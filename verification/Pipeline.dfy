// End to end: placement, encryption, the Cloud program, decryption, merge and
// centring compute the direct sparse matrix-vector product.
module Pipeline {
  import opened Modular
  import opened Lanes
  import opened Reduction
  import opened Naming
  import opened Outcomes
  import opened Sequences
  import opened CloudProgram
  import opened Emitter
  import opened TypedRuns
  import opened EmittedRun
  import opened Placement
  import opened PackedComponent
  import opened LogicalMatrix
  import opened ClientMerge

  function NamesIn(components: seq<Component>): (names: seq<string>)
    ensures |names| == |components|
  {
    seq(|components|, i requires 0 <= i < |components| => components[i].name)
  }

  // The decrypted batches of the hand-executed components.
  function Shares(env: Env, components: seq<Component>, query: seq<int>, m: nat): (s: seq<seq<int>>)
    ensures |s| == |components|
  {
    seq(|components|, k requires 0 <= k < |components| =>
      Decrypt(PageOf(env, components[k].terms, query, components[k].mask, m), env.rowSize, env.modulus))
  }

  predicate Acceptable(shape: Shape, query: seq<int>, rows: nat, c: Component) {
    AllAdmissible(shape, query, c.terms) && OwnersWithin(c.owners, 2 * shape.rowSize, rows)
  }

  function BareEnv(shape: Shape, p: Positive): Env {
    Env(shape.rowSize, p, map[], {}, map[])
  }

  // One component of the witness run: placed, evaluated, decrypted and merged.
  method MergeComponent(
    shape: Shape, m: nat, p: Positive, query: seq<int>, c: Component, startMask: seq<int>,
    modularResult: array<int>)
    returns (ok: bool)
    requires startMask == StartMask(shape.rowSize, Pow2(m))
    modifies modularResult
    ensures ok <==> Acceptable(shape, query, modularResult.Length, c)
    ensures ok ==> forall row | 0 <= row < modularResult.Length ::
      modularResult[row] == MergedRow(
        c.owners, Decrypt(PageOf(BareEnv(shape, p), c.terms, query, c.mask, m), shape.rowSize, p), row,
        old(modularResult[row]), p)
  {
    hide ComponentResult, MergedRow, Decrypt;
    var placed, input := MakeComponent(shape, query, c.terms);
    if !placed {
      return false;
    }
    var masked, _, _, _ := EvaluateComponent(shape, p, c.name, input, startMask, c.mask, PowersOfTwo(0, m));
    PageIsEvaluated(BareEnv(shape, p), c, query, m);
    ok := MergeShare(modularResult, c.owners, Decrypt(masked, shape.rowSize, p), p);
  }

  // The witness run over all components, then one centring per row.
  method RunWitness(shape: Shape, m: nat, p: Positive, query: seq<int>, components: seq<Component>, rows: nat)
    returns (r: Option<seq<int>>)
    requires shape.width == Pow2(m)
    ensures r.Some? <==> forall c | c in components :: Acceptable(shape, query, rows, c)
    ensures r.Some? ==> |r.value| == rows
    ensures r.Some? ==> forall row | 0 <= row < rows ::
      r.value[row]
      == CenteredLift(MergedAll(components, Shares(BareEnv(shape, p), components, query, m), row, p), p)
  {
    hide MergedRow, PageOf, Decrypt, Acceptable, StartMask;
    ghost var shares := Shares(BareEnv(shape, p), components, query, m);
    var startMask := MakeStartMask(shape);
    var modularResult := new int[rows](_ => 0);
    for k := 0 to |components|
      invariant fresh(modularResult) && modularResult.Length == rows
      invariant fresh(startMask) && startMask[..] == StartMask(shape.rowSize, shape.width)
      invariant forall c | c in components[..k] :: Acceptable(shape, query, rows, c)
      invariant forall row | 0 <= row < rows ::
        modularResult[row] == MergedAll(components[..k], shares[..k], row, p)
    {
      assert components[k] in components;
      var ok := MergeComponent(shape, m, p, query, components[k], startMask[..], modularResult);
      if !ok {
        return None;
      }
      assert components[..k + 1][..k] == components[..k] && shares[..k + 1][..k] == shares[..k];
      assert components[..k + 1] == components[..k] + [components[k]];
    }
    assert components[..|components|] == components && shares[..|components|] == shares;
    return Some(seq(rows, i requires 0 <= i < rows reads modularResult => CenteredLift(modularResult[i], p)));
  }

  lemma {:induction false} PageIsEvaluated(env: Env, c: Component, query: seq<int>, m: nat)
    ensures PageOf(env, c.terms, query, c.mask, m) == ComponentResult(
              env,
              Encrypt(PlacedValues(c.terms, 2 * env.rowSize), env.rowSize, env.modulus),
              Encrypt(PlacedQuery(c.terms, query, 2 * env.rowSize), env.rowSize, env.modulus),
              Encrypt(c.mask, env.rowSize, env.modulus),
              Pack(StartMask(env.rowSize, Pow2(m)), env.rowSize), PowersOfTwo(0, m))
  {
  }

  // All segments are 2^m lanes wide and tile the row.
  predicate SoundGeometry(shape: Shape, components: seq<Component>, m: nat) {
    && shape.width == Pow2(m) && shape.rowSize % Pow2(m) == 0
    && forall c | c in components :: c.width == Pow2(m)
  }

  // The merge of the decrypted components is the direct product, for any number
  // of components, any ladder depth, query and cancelling masks.
  lemma {:induction false} WitnessIsDirectProduct(
    shape: Shape, m: nat, env: Env, query: seq<int>, components: seq<Component>, matrix: Matrix,
    rows: nat, row: nat)
    requires SoundGeometry(shape, components, m) && env.rowSize == shape.rowSize && row < rows
    requires forall c | c in components :: WellPlaced(c, shape, query)
    requires ZeroSumMasks(components, rows, env.modulus) && Holds(components, matrix)
    ensures MergedAll(components, Shares(env, components, query, m), row, env.modulus)
         == RowProduct(matrix, query, row) % env.modulus
  {
    hide WellPlaced, IsShare, PageOf, Decrypt;
    var shares := Shares(env, components, query, m);
    forall k | 0 <= k < |components|
      ensures IsShare(shares[k], components[k], query, env.modulus)
      ensures WellPlaced(components[k], shape, query)
    {
      assert components[k] in components;
      PageIsShare(env, components[k], shape, query, m);
    }
    MergeIsDirectProduct(components, shares, shape, query, matrix, rows, row, env.modulus);
  }

  // ----- through the interpreter -----

  function Initial(inputs: map<string, Ciphertext>): State {
    State(inputs, inputs.Keys, [], NO_OPERATIONS)
  }

  // The encrypted inputs of every component, and nothing the program will define.
  ghost predicate EncryptedInputs(
    env: Env, inputs: map<string, Ciphertext>, components: seq<Component>, query: seq<int>)
  {
    forall c | c in components ::
      && FreshFor(Initial(inputs), c.name)
      && NamesOf(c.name)(Values) in inputs && NamesOf(c.name)(Query) in inputs && NamesOf(c.name)(F1MMask) in inputs
      && inputs[NamesOf(c.name)(Values)]
         == Encrypt(PlacedValues(c.terms, 2 * env.rowSize), env.rowSize, env.modulus)
      && inputs[NamesOf(c.name)(Query)]
         == Encrypt(PlacedQuery(c.terms, query, 2 * env.rowSize), env.rowSize, env.modulus)
      && inputs[NamesOf(c.name)(F1MMask)] == Encrypt(c.mask, env.rowSize, env.modulus)
  }

  // The decrypted pages the run leaves behind, in component order.
  function ReturnedShares(env: Env, end: State, components: seq<Component>): (s: seq<seq<int>>)
    requires forall c | c in components :: NamesOf(c.name)(Page) in end.ciphertexts
    ensures |s| == |components|
  {
    seq(|components|, k requires 0 <= k < |components| =>
      Decrypt(end.ciphertexts[NamesOf(components[k].name)(Page)], env.rowSize, env.modulus))
  }

  lemma {:induction false} ComponentReady(
    env: Env, inputs: map<string, Ciphertext>, components: seq<Component>, query: seq<int>,
    c: Component, rotations: seq<nat>)
    requires EncryptedInputs(env, inputs, components, query) && c in components
    requires GoodName(c.name, 1 + Total(rotations))
    ensures ReadyFor(env, Initial(inputs), c.name, rotations)
  {
    hide Text, Total, FreshFor;
  }

  // A page lane by lane: segment starts hold the segment's terms plus the mask,
  // every other lane of the batch the mask alone.
  ghost predicate PageHolds(page: Ciphertext, env: Env, c: Component, query: seq<int>, m: nat) {
    Canonical(page.lanes, env.rowSize, env.modulus)
    && forall i: nat | i < env.rowSize :: LaneHolds(page, env, c, query, m, i)
  }

  predicate LaneHolds(page: Ciphertext, env: Env, c: Component, query: seq<int>, m: nat, i: nat) {
    var terms := if i % Pow2(m) == 0 then WindowTotal(c.terms, query, i, Pow2(m)) else 0;
    && At(page.lanes.first, i) == (At(c.mask, i) + terms) % env.modulus
    && At(page.lanes.second, i) == At(c.mask, env.rowSize + i) % env.modulus
  }

  lemma {:induction false} PageOfHolds(env: Env, c: Component, shape: Shape, query: seq<int>, m: nat)
    requires WellPlaced(c, shape, query) && shape.rowSize == env.rowSize && env.rowSize % Pow2(m) == 0
    ensures PageHolds(PageOf(env, c.terms, query, c.mask, m), env, c, query, m)
  {
    hide PageOf, WindowTotal;
    forall i: nat | i < env.rowSize ensures LaneHolds(PageOf(env, c.terms, query, c.mask, m), env, c, query, m, i) {
      PageLanes(env, c.terms, query, c.mask, m, i);
    }
    PageShape(env, c.terms, query, c.mask, m);
  }

  lemma {:induction false} PageShape(env: Env, terms: seq<Term>, query: seq<int>, mask: seq<int>, m: nat)
    ensures Canonical(PageOf(env, terms, query, mask, m).lanes, env.rowSize, env.modulus)
  {
    hide Ladder, PlacedValues, PlacedQuery, StartMask, Pow2, PowersOfTwo;
  }

  // The emitted program, run by the interpreter on the encrypted inputs, never
  // gets stuck, returns one page per component in order at the closed-form
  // operation counts, and its pages merge to the direct product.
  lemma {:induction false} ProgramComputesProduct(
    env: Env, inputs: map<string, Ciphertext>, shape: Shape, m: nat, query: seq<int>,
    components: seq<Component>, matrix: Matrix, rows: nat)
    returns (end: State)
    requires SoundGeometry(shape, components, m) && env.rowSize == shape.rowSize && components != []
    requires NoRepeat(NamesIn(components))
    requires forall c | c in components :: WellPlaced(c, shape, query) && GoodName(c.name, Pow2(m))
    requires EncryptedInputs(env, inputs, components, query)
    requires Provisioned(env, PowersOfTwo(0, m))
    requires SEGMENT_STARTS in env.masks && env.masks[SEGMENT_STARTS] == Pack(StartMask(env.rowSize, Pow2(m)), env.rowSize)
    requires ZeroSumMasks(components, rows, env.modulus) && Holds(components, matrix)
    ensures Execute(env, Initial(inputs), ProgramNodes(NamesIn(components), PowersOfTwo(0, m))) == Success(end)
    ensures Reaches(env, Initial(inputs), ProgramNodes(NamesIn(components), PowersOfTwo(0, m)), end)
    ensures end.returned == ResultIds(NamesIn(components))
    ensures end.counts == ComponentCounts(NO_OPERATIONS, |components|, m)
    ensures forall c | c in components ::
      && NamesOf(c.name)(Page) in end.ciphertexts
      && end.ciphertexts[NamesOf(c.name)(Page)] == PageOf(env, c.terms, query, c.mask, m)
      && PageHolds(end.ciphertexts[NamesOf(c.name)(Page)], env, c, query, m)
    ensures forall row | 0 <= row < rows ::
      MergedAll(components, ReturnedShares(env, end, components), row, env.modulus)
      == RowProduct(matrix, query, row) % env.modulus
  {
    hide Reaches, Run, WellPlaced, ReadyFor, PageComputed, MergedAll, RowProduct, Text, PageHolds, PageOf;
    var names, rotations := NamesIn(components), PowersOfTwo(0, m);
    SpanOfPowers(m);
    PowersAscend(0, m, 0);
    forall name | name in names ensures ReadyFor(env, Initial(inputs), name, rotations) {
      var c :| c in components && c.name == name;
      ComponentReady(env, inputs, components, query, c, rotations);
    }
    end := RunProgram(env, Initial(inputs), names, rotations);
    ReachesIsRun(env, Initial(inputs), ProgramNodes(names, rotations), end);
    ProgramNotEmpty(names, rotations);
    PagesArePlaced(env, inputs, end, shape, m, query, components);
    assert ReturnedShares(env, end, components) == Shares(env, components, query, m);
    forall row | 0 <= row < rows
      ensures MergedAll(components, ReturnedShares(env, end, components), row, env.modulus)
           == RowProduct(matrix, query, row) % env.modulus
    {
      WitnessIsDirectProduct(shape, m, env, query, components, matrix, rows, row);
    }
  }

  lemma {:induction false} ProgramNotEmpty(names: seq<string>, rotations: seq<nat>)
    requires names != []
    ensures ProgramNodes(names, rotations) != []
  {
    assert |NodesOf(NamesOf(names[0]), rotations)| >= 2;
  }

  lemma {:induction false} PageIsPlaced(
    env: Env, inputs: map<string, Ciphertext>, end: State, components: seq<Component>, query: seq<int>,
    c: Component, m: nat)
    requires EncryptedInputs(env, inputs, components, query) && c in components
    requires PageComputed(env, Initial(inputs), end, c.name, PowersOfTwo(0, m))
    requires SEGMENT_STARTS in env.masks && env.masks[SEGMENT_STARTS] == Pack(StartMask(env.rowSize, Pow2(m)), env.rowSize)
    ensures NamesOf(c.name)(Page) in end.ciphertexts
    ensures end.ciphertexts[NamesOf(c.name)(Page)] == PageOf(env, c.terms, query, c.mask, m)
  {
    hide Text, ComponentResult, FreshFor;
  }

  lemma {:induction false} PagesArePlaced(
    env: Env, inputs: map<string, Ciphertext>, end: State, shape: Shape, m: nat, query: seq<int>,
    components: seq<Component>)
    requires env.rowSize == shape.rowSize && env.rowSize % Pow2(m) == 0
    requires EncryptedInputs(env, inputs, components, query)
    requires forall c | c in components :: WellPlaced(c, shape, query)
    requires forall name | name in NamesIn(components) ::
      PageComputed(env, Initial(inputs), end, name, PowersOfTwo(0, m))
    requires SEGMENT_STARTS in env.masks && env.masks[SEGMENT_STARTS] == Pack(StartMask(env.rowSize, Pow2(m)), env.rowSize)
    ensures forall c | c in components ::
      && NamesOf(c.name)(Page) in end.ciphertexts
      && end.ciphertexts[NamesOf(c.name)(Page)] == PageOf(env, c.terms, query, c.mask, m)
      && PageHolds(end.ciphertexts[NamesOf(c.name)(Page)], env, c, query, m)
  {
    hide WellPlaced, PageComputed, Text, PageHolds, PageOf, EncryptedInputs, StartMask, Pow2;
    forall c | c in components
      ensures NamesOf(c.name)(Page) in end.ciphertexts
      ensures end.ciphertexts[NamesOf(c.name)(Page)] == PageOf(env, c.terms, query, c.mask, m)
      ensures PageHolds(end.ciphertexts[NamesOf(c.name)(Page)], env, c, query, m)
    {
      assert c.name in NamesIn(components) by {
        var i :| 0 <= i < |components| && components[i] == c;
        assert NamesIn(components)[i] == c.name;
      }
      PageIsPlaced(env, inputs, end, components, query, c, m);
      PageOfHolds(env, c, shape, query, m);
    }
  }

  // ----- recovering the integer result -----

  // The centred merged row is the exact integer product on one interval and on no more.
  lemma {:induction false} RecoveryIsExact(matrix: Matrix, query: seq<int>, row: nat, p: Positive)
    ensures CenteredLift(RowProduct(matrix, query, row) % p, p) == RowProduct(matrix, query, row)
      <==> -((p - 1) / 2) <= RowProduct(matrix, query, row) <= p / 2
  {
    NormalizeModIsResidue(RowProduct(matrix, query, row), p);
    CenterNormalizeExact(RowProduct(matrix, query, row), p);
  }

  // The sum of the absolute products that contribute to a row.
  function AbsoluteRow(entries: seq<Entry>, x: seq<int>, row: nat): nat
    requires forall e | e in entries :: e.column < |x|
  {
    if entries == [] then 0
    else
      var e := entries[|entries| - 1];
      AbsoluteRow(entries[..|entries| - 1], x, row) + if e.row == row then Abs(e.value * x[e.column]) else 0
  }

  lemma {:induction false} AbsoluteRowBounds(entries: seq<Entry>, x: seq<int>, row: nat)
    requires forall e | e in entries :: e.column < |x|
    ensures Abs(EntrySum(entries, x, row)) <= AbsoluteRow(entries, x, row)
  {
    if entries != [] {
      AbsoluteRowBounds(entries[..|entries| - 1], x, row);
    }
  }

  // The static bound: with an odd modulus, absolute products of at most
  // floor(p / 2) per row make the recovered row exact.
  lemma {:induction false} BoundedRowIsExact(entries: seq<Entry>, matrix: Matrix, x: seq<int>, row: nat, p: Positive)
    requires forall e | e in entries :: e.column < |x|
    requires SameMatrix(Collect(entries), matrix)
    requires p % 2 == 1 && AbsoluteRow(entries, x, row) <= p / 2
    ensures CenteredLift(RowProduct(matrix, x, row) % p, p) == RowProduct(matrix, x, row)
  {
    AbsoluteRowBounds(entries, x, row);
    CollectedProduct(entries, x, row);
    SameRows(Collect(entries), matrix, x, row, |x|);
    RecoveryIsExact(matrix, x, row, p);
  }

  // For an even modulus every row of -p/2 is recovered wrongly.
  lemma {:induction false} EvenModulusBoundFails(matrix: Matrix, x: seq<int>, row: nat, p: Positive)
    requires p % 2 == 0 && RowProduct(matrix, x, row) == -(p / 2)
    ensures CenteredLift(RowProduct(matrix, x, row) % p, p) != RowProduct(matrix, x, row)
  {
    RecoveryIsExact(matrix, x, row, p);
  }

  // Every row within the static bound is recovered.
  ghost predicate BoundSuffices(p: Positive) {
    forall entries: seq<Entry>, matrix: Matrix, x: seq<int>, row: nat |
      WithinBound(entries, matrix, x, row, p) ::
      CenteredLift(RowProduct(matrix, x, row) % p, p) == RowProduct(matrix, x, row)
  }

  ghost predicate WithinBound(entries: seq<Entry>, matrix: Matrix, x: seq<int>, row: nat, p: Positive) {
    && (forall e | e in entries :: e.column < |x|)
    && SameMatrix(Collect(entries), matrix) && AbsoluteRow(entries, x, row) <= p / 2
  }

  // The bound floor(p / 2) suffices for all matrices exactly for odd moduli.
  lemma {:induction false} StaticBoundSufficesIff(p: Positive)
    ensures BoundSuffices(p) <==> p % 2 == 1
  {
    hide RowProduct, CenteredLift, AbsoluteRow, SameMatrix, Collect;
    if p % 2 == 1 {
      forall entries: seq<Entry>, matrix: Matrix, x: seq<int>, row: nat | WithinBound(entries, matrix, x, row, p)
        ensures CenteredLift(RowProduct(matrix, x, row) % p, p) == RowProduct(matrix, x, row)
      {
        BoundedRowIsExact(entries, matrix, x, row, p);
      }
    } else {
      HalfRow(p);
      var half := [Entry(0, 0, -(p / 2))];
      assert WithinBound(half, Collect(half), [1], 0, p);
      EvenModulusBoundFails(Collect(half), [1], 0, p);
    }
  }

  lemma {:induction false} HalfRow(p: Positive)
    ensures var half := [Entry(0, 0, -(p / 2))];
      && AbsoluteRow(half, [1], 0) == p / 2 && RowProduct(Collect(half), [1], 0) == -(p / 2)
      && SameMatrix(Collect(half), Collect(half))
  {
    var half := [Entry(0, 0, -(p / 2))];
    assert half[..0] == [];
    CollectedProduct(half, [1], 0);
    assert EntrySum(half, [1], 0) == -(p / 2);
  }
}
