// The whole query, with nothing assumed about the masks: prepared masks, emitted
// program, interpreter, merge and centring return the exact integer product.
module EndToEnd {
  import opened Modular
  import opened Lanes
  import opened Reduction
  import opened Naming
  import opened Outcomes
  import opened Sequences
  import opened CloudProgram
  import opened Emitter
  import opened EmittedRun
  import opened Placement
  import opened PackedComponent
  import opened LogicalMatrix
  import opened ClientMerge
  import opened Pipeline
  import opened F1MMasks

  // The compiled program and its client agree on names, lanes and masks.
  ghost predicate Deployed(
    env: Env, inputs: map<string, Ciphertext>, shape: Shape, m: nat, query: seq<int>, components: seq<Component>)
  {
    && SoundGeometry(shape, components, m) && env.rowSize == shape.rowSize && components != []
    && NoRepeat(NamesIn(components))
    && (forall c | c in components :: WellPlaced(c, shape, query) && GoodName(c.name, Pow2(m)))
    && EncryptedInputs(env, inputs, components, query)
    && Provisioned(env, PowersOfTwo(0, m))
    && SEGMENT_STARTS in env.masks
    && env.masks[SEGMENT_STARTS] == Pack(StartMask(env.rowSize, Pow2(m)), env.rowSize)
  }

  // The masks of the components are what the preparation makes of some draws.
  ghost predicate MasksDrawn(
    components: seq<Component>, slotCount: nat, rows: nat, p: Positive, draws: nat -> int, values: map<nat, seq<int>>)
  {
    && OutputPlanOk(OutputPlanOf(components), slotCount, rows) && Carries(components, values)
    && InRange(draws, DrawnBefore(OutputPlanOf(components), rows), p)
    && PreparedMasks(OutputPlanOf(components), slotCount, rows, p, draws, values)
  }

  // Every row is at most floor(p / 2) in absolute products.
  predicate Bounded(components: seq<Component>, query: seq<int>, rows: nat, p: Positive)
    requires forall e | e in AllEntries(components) :: e.column < |query|
  {
    p % 2 == 1 && forall row | 0 <= row < rows :: AbsoluteRow(AllEntries(components), query, row) <= p / 2
  }

  lemma {:induction false} EntriesWithin(components: seq<Component>, shape: Shape, query: seq<int>)
    requires forall c | c in components :: WellPlaced(c, shape, query)
    ensures forall e | e in AllEntries(components) :: e.column < |query|
    decreases |components|
  {
    if components != [] {
      var n := |components| - 1;
      assert components[n] in components;
      forall c | c in components[..n] ensures WellPlaced(c, shape, query) {
        assert c in components;
      }
      EntriesWithin(components[..n], shape, query);
      forall e | e in EntriesOf(components[n]) ensures e.column < |query| {
        var i :| 0 <= i < |components[n].terms| && EntriesOf(components[n])[i] == e;
        assert Admissible(shape, query, components[n].terms[i]);
      }
    }
  }

  // For any number of components, any ladder depth, any query and any draws, the
  // client recovers the exact integer product of every bounded row.
  lemma {:induction false} QueryIsAnswered(
    env: Env, inputs: map<string, Ciphertext>, shape: Shape, m: nat, query: seq<int>,
    components: seq<Component>, matrix: Matrix, rows: nat, draws: nat -> int, values: map<nat, seq<int>>)
    returns (end: State)
    requires Deployed(env, inputs, shape, m, query, components) && Holds(components, matrix)
    requires MasksDrawn(components, shape.rowSize, rows, env.modulus, draws, values)
    ensures Execute(env, Initial(inputs), ProgramNodes(NamesIn(components), PowersOfTwo(0, m))) == Success(end)
    ensures end.returned == ResultIds(NamesIn(components))
    ensures forall c | c in components ::
      && NamesOf(c.name)(Page) in end.ciphertexts
      && PageHolds(end.ciphertexts[NamesOf(c.name)(Page)], env, c, query, m)
    ensures forall e | e in AllEntries(components) :: e.column < |query|
    ensures forall row | 0 <= row < rows ::
      MergedAll(components, ReturnedShares(env, end, components), row, env.modulus)
      == RowProduct(matrix, query, row) % env.modulus
    ensures Bounded(components, query, rows, env.modulus) ==> forall row | 0 <= row < rows ::
      CenteredLift(MergedAll(components, ReturnedShares(env, end, components), row, env.modulus), env.modulus)
      == RowProduct(matrix, query, row)
  {
    hide WellPlaced, GoodName, EncryptedInputs, Provisioned, PreparedMasks, OutputPlanOk, Carries, InRange,
      DrawnBefore, ZeroSumMasks, MergedAll, RowProduct, CenteredLift, Execute, ReturnedShares, AbsoluteRow, Holds,
      AllEntries, ProgramNodes, SoundGeometry, Text, PageHolds;
    PreparedMasksCancel(components, shape.rowSize, rows, env.modulus, draws, values);
    end := ProgramComputesProduct(env, inputs, shape, m, query, components, matrix, rows);
    EntriesWithin(components, shape, query);
    if Bounded(components, query, rows, env.modulus) {
      forall row | 0 <= row < rows
        ensures CenteredLift(RowProduct(matrix, query, row) % env.modulus, env.modulus) == RowProduct(matrix, query, row)
      {
        HoldsCollected(components, matrix);
        BoundedRowIsExact(AllEntries(components), matrix, query, row, env.modulus);
      }
    }
  }

  lemma {:induction false} HoldsCollected(components: seq<Component>, matrix: Matrix)
    requires Holds(components, matrix)
    ensures SameMatrix(Collect(AllEntries(components)), matrix)
  {
  }

  // The hand-executed witness, under prepared masks: accepted, and exact in every bounded row.
  lemma {:induction false} WitnessIsExact(
    shape: Shape, m: nat, p: Positive, query: seq<int>, components: seq<Component>, matrix: Matrix, rows: nat,
    draws: nat -> int, values: map<nat, seq<int>>)
    requires SoundGeometry(shape, components, m) && Holds(components, matrix)
    requires forall c | c in components :: WellPlaced(c, shape, query)
    requires MasksDrawn(components, shape.rowSize, rows, p, draws, values)
    ensures forall c | c in components :: Acceptable(shape, query, rows, c)
    ensures forall e | e in AllEntries(components) :: e.column < |query|
    ensures Bounded(components, query, rows, p) ==> forall row | 0 <= row < rows ::
      CenteredLift(MergedAll(components, Shares(BareEnv(shape, p), components, query, m), row, p), p)
      == RowProduct(matrix, query, row)
  {
    hide PreparedMasks, Carries, InRange, DrawnBefore, ZeroSumMasks, MergedAll, RowProduct, CenteredLift, AbsoluteRow,
      AllEntries, SoundGeometry, Shares, AllAdmissible, Owns, DistinctSlots;
    PreparedMasksCancel(components, shape.rowSize, rows, p, draws, values);
    EntriesWithin(components, shape, query);
    forall c | c in components ensures Acceptable(shape, query, rows, c) {
      var k :| 0 <= k < |components| && components[k] == c;
      assert ShareOk(OutputPlanOf(components)[k], shape.rowSize, rows);
    }
    if Bounded(components, query, rows, p) {
      HoldsCollected(components, matrix);
      forall row | 0 <= row < rows
        ensures CenteredLift(MergedAll(components, Shares(BareEnv(shape, p), components, query, m), row, p), p)
             == RowProduct(matrix, query, row)
      {
        hide Holds, Acceptable, WellPlaced;
        WitnessIsDirectProduct(shape, m, BareEnv(shape, p), query, components, matrix, rows, row);
        BoundedRowIsExact(AllEntries(components), matrix, query, row, p);
      }
    }
  }

  // ----- the counts of the record -----

  lemma {:induction false} AdditionsAppend(a: seq<Node>, b: seq<Node>)
    ensures CountF1MAdditions(a + b) == CountF1MAdditions(a) + CountF1MAdditions(b)
    decreases |b|
  {
    if b == [] {
      assert a + b == a;
    } else {
      assert (a + b)[..|a + b| - 1] == a + b[..|b| - 1];
      AdditionsAppend(a, b[..|b| - 1]);
    }
  }

  function MaskAddition(node: Node): nat { if node.AddF1MMask? then 1 else 0 }

  lemma {:induction false} FewAdditions(a: Node, b: Node, c: Node)
    ensures CountF1MAdditions([a, b]) == MaskAddition(a) + MaskAddition(b)
    ensures CountF1MAdditions([a, b, c]) == MaskAddition(a) + MaskAddition(b) + MaskAddition(c)
  {
    assert [a][..0] == [] && [a, b][..1] == [a] && [a, b, c][..2] == [a, b];
    assert CountF1MAdditions([]) == 0 && CountF1MAdditions([a]) == MaskAddition(a);
  }

  lemma {:induction false} LadderAddsNoMask(name: Suffix -> string, reduced: Suffix, span: nat, rotations: seq<nat>)
    ensures CountF1MAdditions(LadderNodes(name, reduced, span, rotations)) == 0
    decreases |rotations|
  {
    if rotations != [] {
      hide CountF1MAdditions;
      var r := rotations[0];
      var rung := Rung(name, reduced, span, r);
      LadderAddsNoMask(name, Sum(span + r), span + r, rotations[1..]);
      AdditionsAppend(rung, LadderNodes(name, Sum(span + r), span + r, rotations[1..]));
      FewAdditions(rung[0], rung[1], rung[1]);
    }
  }

  lemma {:induction false} OneAddition(name: Suffix -> string, rotations: seq<nat>)
    ensures CountF1MAdditions(NodesOf(name, rotations)) == 1
  {
    hide CountF1MAdditions, LadderNodes, LastReduced;
    var first, ladder, last := Prologue(name), LadderNodes(name, Relin, 1, rotations),
      Epilogue(name, LastReduced(Relin, 1, rotations));
    AdditionsAppend(first + ladder, last);
    AdditionsAppend(first, ladder);
    LadderAddsNoMask(name, Relin, 1, rotations);
    FewAdditions(first[0], first[1], first[1]);
    FewAdditions(last[0], last[1], last[2]);
  }

  lemma {:induction false} OneAdditionEach(components: seq<string>, rotations: seq<nat>)
    ensures CountF1MAdditions(ProgramNodes(components, rotations)) == |components|
    decreases |components|
  {
    hide NodesOf, NamesOf;
    if components != [] {
      OneAdditionEach(components[1..], rotations);
      OneAddition(NamesOf(components[0]), rotations);
      AdditionsAppend(NodesOf(NamesOf(components[0]), rotations), ProgramNodes(components[1..], rotations));
    }
  }

  // In an accepted record of an emitted program every ciphertext of either kind
  // is added exactly once: the first two counts add up to the fourth.
  lemma {:induction false} EmittedRecordBalances(
    components: seq<Component>, kinds: seq<MaskKind>, rows: nat, p: Positive, rotations: seq<nat>)
    requires RecordAccepts(components, kinds, rows, p)
    ensures var plan := OutputPlanOf(components);
      var counts := DerivedCounts(plan, kinds, rows, ProgramNodes(NamesIn(components), rotations));
      && counts.randomZeroSumCiphertexts == |MaskedShares(plan)|
      && counts.randomZeroSumCiphertexts + counts.encryptedZeroDummyCiphertexts == counts.ciphertextAdditions
      && counts.ciphertextAdditions == |components|
  {
    hide RecordAccepts, ProgramNodes, MaskedShares, OutputPlanOf;
    AcceptedCounts(components, kinds, rows, p, ProgramNodes(NamesIn(components), rotations));
    OneAdditionEach(NamesIn(components), rotations);
  }
}
