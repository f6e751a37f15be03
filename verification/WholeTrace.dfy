// The whole-query witness: all operands evaluated in order into one trace, and
// that trace replayed by the interpreter.
module WholeTrace {
  import opened Modular
  import opened Lanes
  import opened Outcomes
  import opened Sequences
  import opened CloudProgram
  import opened TypedRuns
  import opened EmittedRun
  import opened Placement
  import opened LogicalMatrix
  import opened ClientMerge
  import opened WholeQuery
  import opened OperandReplay
  import opened OperandLabels
  import opened Pipeline
  import opened F1MMasks
  import opened EndToEnd

  datatype Operand = Operand(
    ids: OperandIds, values: seq<int>, aligned: seq<int>, f1mValues: seq<int>, rotations: seq<nat>, leaders: seq<nat>)

  // What the operand's evaluation returns at that position.
  function OperandCiphertext(operand: Operand, ordinal: nat, n: nat, p: Positive): Ciphertext {
    EvalAdd(
      EvalMultPlain(
        ReducedOperand(ordinal, OperandProduct(operand.values, operand.aligned, n, p), operand.rotations, n, p),
        Pack(Selection(operand.leaders, 2 * n), n), n, p),
      Encrypt(operand.f1mValues, n, p), n, p)
  }

  predicate AllLabelsFit(operands: seq<Operand>, from: nat) {
    forall i | 0 <= i < |operands| :: LabelsFit(from + i, operands[i].rotations, 0)
  }

  function TraceNodes(operands: seq<Operand>, from: nat): seq<Node>
    requires AllLabelsFit(operands, from)
    decreases |operands|
  {
    if operands == [] then []
    else
      var rest := operands[1..];
      assert LabelsFit(from + 0, operands[0].rotations, 0);
      assert forall i | 0 <= i < |rest| :: rest[i] == operands[i + 1] && LabelsFit(from + (i + 1), operands[i + 1].rotations, 0);
      OperandNodes(from, operands[0].ids, operands[0].rotations) + TraceNodes(rest, from + 1)
  }

  // ----- the witness's loop -----

  // Evaluates the operands in order, appending to one trace.
  method EvaluateOperands(operands: seq<Operand>, n: nat, p: Positive)
    returns (r: Option<seq<Ciphertext>>, trace: seq<Node>)
    ensures r.Some? <==>
      && AllLabelsFit(operands, 0)
      && forall i | 0 <= i < |operands| :: forall leader | leader in operands[i].leaders :: leader < 2 * n
    ensures r.Some? ==> |r.value| == |operands| && forall i | 0 <= i < |operands| ::
      r.value[i] == OperandCiphertext(operands[i], i, n, p)
    ensures r.Some? ==> trace == TraceNodes(operands, 0)
  {
    hide LabelsFit, ReducedOperand, OperandProduct, EvalAdd, EvalMultPlain, Selection, Encrypt, OperandNodes;
    trace := [];
    var results: seq<Ciphertext> := [];
    for ordinal := 0 to |operands|
      invariant AllLabelsFit(operands[..ordinal], 0) && trace == TraceNodes(operands[..ordinal], 0)
      invariant forall i | 0 <= i < ordinal :: forall leader | leader in operands[i].leaders :: leader < 2 * n
      invariant |results| == ordinal
      invariant forall i | 0 <= i < ordinal :: results[i] == OperandCiphertext(operands[i], i, n, p)
    {
      var operand := operands[ordinal];
      var evaluated, nodes, _, _ := EvaluateOperand(
        ordinal, n, p, operand.ids, operand.values, operand.aligned, operand.f1mValues, operand.rotations,
        operand.leaders);
      if evaluated.None? {
        assert AllLabelsFit(operands, 0) ==> LabelsFit(0 + ordinal, operands[ordinal].rotations, 0);
        return None, trace;
      }
      assert operands[..ordinal + 1] == operands[..ordinal] + [operand];
      OneMoreOperand(operands[..ordinal], operand, 0);
      trace := trace + nodes;
      results := results + [evaluated.value];
    }
    assert operands[..|operands|] == operands;
    return Some(results), trace;
  }

  lemma {:induction false} OneMoreOperand(operands: seq<Operand>, operand: Operand, from: nat)
    requires AllLabelsFit(operands, from) && LabelsFit(from + |operands|, operand.rotations, 0)
    ensures AllLabelsFit(operands + [operand], from)
    ensures TraceNodes(operands + [operand], from)
         == TraceNodes(operands, from) + OperandNodes(from + |operands|, operand.ids, operand.rotations)
    decreases |operands|
  {
    hide LabelsFit, OperandNodes;
    var longer := operands + [operand];
    FitsOneMore(operands, operand, from);
    if operands == [] {
      assert longer == [operand] && longer[1..] == [];
    } else {
      assert longer[1..] == operands[1..] + [operand] && longer[0] == operands[0];
      FitsRest(operands, from);
      OneMoreOperand(operands[1..], operand, from + 1);
      AppendAssociates(
        OperandNodes(from, operands[0].ids, operands[0].rotations), TraceNodes(operands[1..], from + 1),
        OperandNodes(from + |operands|, operand.ids, operand.rotations));
    }
  }

  lemma {:induction false} FitsOneMore(operands: seq<Operand>, operand: Operand, from: nat)
    requires AllLabelsFit(operands, from) && LabelsFit(from + |operands|, operand.rotations, 0)
    ensures AllLabelsFit(operands + [operand], from)
  {
    hide LabelsFit;
  }

  lemma {:induction false} FitsRest(operands: seq<Operand>, from: nat)
    requires AllLabelsFit(operands, from) && operands != []
    ensures LabelsFit(from, operands[0].rotations, 0) && AllLabelsFit(operands[1..], from + 1)
  {
    hide LabelsFit;
    assert LabelsFit(from + 0, operands[0].rotations, 0);
    forall i | 0 <= i < |operands[1..]| ensures LabelsFit(from + 1 + i, operands[1..][i].rotations, 0) {
      assert LabelsFit(from + (i + 1), operands[i + 1].rotations, 0);
    }
  }

  // ----- the replay -----

  // The operand's inputs and selection are there, and its rotations can be run.
  ghost predicate Supplied(env: Env, st: State, operand: Operand, ordinal: nat)
    requires LabelFits(ordinal)
  {
    var ids, selection := operand.ids, "pt-selection-" + Ordinal(ordinal);
    && AscendingRotations(operand.rotations, 0) && Provisioned(env, operand.rotations)
    && {ids.valueId, ids.queryId, ids.f1mId} <= st.ciphertexts.Keys
    && st.ciphertexts[ids.valueId] == Encrypt(operand.values, env.rowSize, env.modulus)
    && st.ciphertexts[ids.queryId] == Encrypt(operand.aligned, env.rowSize, env.modulus)
    && st.ciphertexts[ids.f1mId] == Encrypt(operand.f1mValues, env.rowSize, env.modulus)
    && selection in env.masks && env.masks[selection] == Pack(Selection(operand.leaders, 2 * env.rowSize), env.rowSize)
  }

  ghost predicate AllSupplied(env: Env, st: State, operands: seq<Operand>, from: nat)
    requires AllLabelsFit(operands, from)
  {
    forall i | 0 <= i < |operands| :: Supplied(env, st, operands[i], from + i)
  }

  // Ids the inputs and results may have: none begins the way a label does.
  predicate Plain(id: string) { forall kind | kind in KINDS :: !(kind <= id) }

  ghost predicate NotCarriedFrom(keys: set<string>, from: nat) {
    forall key, ordinal: nat | key in keys && from <= ordinal && LabelFits(ordinal) :: !CarriedBy(ordinal, key)
  }

  lemma {:induction false} PlainIsNotCarried(ordinal: nat, id: string)
    requires LabelFits(ordinal) && Plain(id)
    ensures !CarriedBy(ordinal, id)
  {
    hide Ordinal;
    if kind :| kind in KINDS && kind + Ordinal(ordinal) <= id {
      PrefixOfPrefix(kind, Ordinal(ordinal), id);
    }
  }

  function ResultIdsOf(operands: seq<Operand>): (s: seq<string>)
    ensures |s| == |operands|
  {
    seq(|operands|, i requires 0 <= i < |operands| => operands[i].ids.resultId)
  }

  // Printable, plain, pairwise distinct, and new.
  ghost predicate ResultIdsNew(st: State, operands: seq<Operand>) {
    && NoRepeat(ResultIdsOf(operands))
    && forall i | 0 <= i < |operands| ::
         var id := operands[i].ids.resultId;
         PrintableIdentifier(id) && Plain(id) && id !in st.ciphertexts
  }

  // One operand's trace keeps everything the later operands need.
  lemma {:induction false} StaysSupplied(
    env: Env, st: State, mid: State, operands: seq<Operand>, from: nat)
    requires operands != [] && AllLabelsFit(operands, from) && AllLabelsFit(operands[1..], from + 1)
    requires AllSupplied(env, st, operands, from) && Keeps(st, mid)
    ensures AllSupplied(env, mid, operands[1..], from + 1)
  {
    hide Ordinal, Encrypt, Selection, Pack, Provisioned, AscendingRotations, Supplied;
    forall i | 0 <= i < |operands[1..]| ensures LabelFits(from + 1 + i) && Supplied(env, mid, operands[1..][i], from + 1 + i) {
      assert operands[1..][i] == operands[i + 1] && from + 1 + i == from + (i + 1);
      assert LabelsFit(from + (i + 1), operands[i + 1].rotations, 0);
      assert Supplied(env, st, operands[i + 1], from + (i + 1));
      KeptSupplied(env, st, mid, operands[i + 1], from + (i + 1));
    }
  }

  lemma {:induction false} KeptSupplied(env: Env, st: State, mid: State, operand: Operand, ordinal: nat)
    requires LabelFits(ordinal) && Supplied(env, st, operand, ordinal) && Keeps(st, mid)
    ensures Supplied(env, mid, operand, ordinal)
  {
    hide Ordinal, Encrypt, Selection, Pack, Provisioned, AscendingRotations;
  }

  lemma {:induction false} StaysNew(
    st: State, mid: State, operands: seq<Operand>, from: nat)
    requires operands != [] && AllLabelsFit(operands, from) && ResultIdsNew(st, operands)
    requires NotCarriedFrom(st.ciphertexts.Keys, from)
    requires Adds(st, mid, OperandNodes(from, operands[0].ids, operands[0].rotations))
    requires forall id | id in IdsOf(OperandNodes(from, operands[0].ids, operands[0].rotations)) ::
      id == operands[0].ids.resultId || CarriedBy(from, id)
    ensures ResultIdsNew(mid, operands[1..]) && NotCarriedFrom(mid.ciphertexts.Keys, from + 1)
  {
    hide Ordinal, LabelsFit, CarriedBy, PrintableIdentifier, Plain, IdsOf, OperandNodes;
    FitsRest(operands, from);
    assert LabelFits(from) by { FitsLabel(from, operands[0].rotations); }
    var first := operands[0].ids.resultId;
    forall i | 0 <= i < |operands[1..]|
      ensures var id := operands[1..][i].ids.resultId;
        PrintableIdentifier(id) && Plain(id) && id !in mid.ciphertexts && id != first
    {
      var id := operands[i + 1].ids.resultId;
      assert ResultIdsOf(operands)[0] != ResultIdsOf(operands)[i + 1];
      PlainIsNotCarried(from, id);
    }
    forall key, ordinal: nat | key in mid.ciphertexts.Keys && from + 1 <= ordinal && LabelFits(ordinal)
      ensures !CarriedBy(ordinal, key)
    {
      if key == first {
        PlainIsNotCarried(ordinal, key);
      } else if key !in st.ciphertexts && CarriedBy(ordinal, key) {
        OneOperand(from, ordinal, key);
      }
    }
    forall i, j | 0 <= i < j < |operands[1..]| ensures ResultIdsOf(operands[1..])[i] != ResultIdsOf(operands[1..])[j] {
      assert ResultIdsOf(operands)[i + 1] != ResultIdsOf(operands)[j + 1];
    }
  }

  lemma {:induction false} FitsLabel(ordinal: nat, rotations: seq<nat>)
    requires LabelsFit(ordinal, rotations, 0)
    ensures LabelFits(ordinal)
  {
  }

  // The trace of any list of operands runs to the end, typed; the results return
  // in order, and each is the ciphertext computed by hand.
  lemma {:induction false} WholeTraceReplays(env: Env, st: State, operands: seq<Operand>, from: nat)
    returns (end: State)
    requires Closed(st) && AllLabelsFit(operands, from) && AllSupplied(env, st, operands, from)
    requires ResultIdsNew(st, operands) && NotCarriedFrom(st.ciphertexts.Keys, from)
    ensures Reaches(env, st, TraceNodes(operands, from), end) && Adds(st, end, TraceNodes(operands, from))
    ensures end.returned == st.returned + ResultIdsOf(operands)
    ensures forall i | 0 <= i < |operands| ::
      && operands[i].ids.resultId in end.ciphertexts
      && end.ciphertexts[operands[i].ids.resultId]
         == OperandCiphertext(operands[i], from + i, env.rowSize, env.modulus)
    decreases |operands|
  {
    hide Reaches, OperandNodes, OperandCiphertext, CarriedBy, LabelsFit, IdsOf, Supplied, NotCarriedFrom, TraceNodes;
    TraceUnfolds(operands, from);
    if operands == [] {
      ReachesNothing(env, st);
      NothingAdded(st);
      return st;
    }
    var first, rest := operands[0], operands[1..];
    FitsRest(operands, from);
    FitsLabel(from, first.rotations);
    assert Supplied(env, st, first, from + 0);
    var mid := FirstReplays(env, st, first, from);
    StaysSupplied(env, st, mid, operands, from);
    StaysNew(st, mid, operands, from);
    end := WholeTraceReplays(env, mid, rest, from + 1);
    var nodes := OperandNodes(from, first.ids, first.rotations);
    ReachesAppend(env, st, nodes, mid, TraceNodes(rest, from + 1), end);
    AddsAppend(st, mid, end, nodes, TraceNodes(rest, from + 1));
    assert ResultIdsOf(operands) == [first.ids.resultId] + ResultIdsOf(rest);
    forall i | 0 <= i < |operands|
      ensures operands[i].ids.resultId in end.ciphertexts
      ensures end.ciphertexts[operands[i].ids.resultId]
           == OperandCiphertext(operands[i], from + i, env.rowSize, env.modulus)
    {
      assert i > 0 ==> rest[i - 1] == operands[i];
    }
  }

  lemma {:induction false} TraceUnfolds(operands: seq<Operand>, from: nat)
    requires AllLabelsFit(operands, from)
    ensures operands == [] ==> TraceNodes(operands, from) == []
    ensures operands != [] ==>
      && LabelsFit(from, operands[0].rotations, 0) && AllLabelsFit(operands[1..], from + 1)
      && TraceNodes(operands, from)
         == OperandNodes(from, operands[0].ids, operands[0].rotations) + TraceNodes(operands[1..], from + 1)
  {
    hide LabelsFit, OperandNodes;
    if operands != [] {
      FitsRest(operands, from);
    }
  }

  lemma {:induction false} NothingAdded(st: State)
    requires Closed(st)
    ensures Adds(st, st, [])
  {
  }

  lemma {:induction false} FirstReplays(env: Env, st: State, operand: Operand, ordinal: nat)
    returns (end: State)
    requires Closed(st) && LabelsFit(ordinal, operand.rotations, 0) && Supplied(env, st, operand, ordinal)
    requires NotCarriedFrom(st.ciphertexts.Keys, ordinal)
    requires PrintableIdentifier(operand.ids.resultId) && Plain(operand.ids.resultId)
    requires operand.ids.resultId !in st.ciphertexts
    ensures Reaches(env, st, OperandNodes(ordinal, operand.ids, operand.rotations), end)
    ensures Adds(st, end, OperandNodes(ordinal, operand.ids, operand.rotations))
    ensures forall id | id in IdsOf(OperandNodes(ordinal, operand.ids, operand.rotations)) ::
      id == operand.ids.resultId || CarriedBy(ordinal, id)
    ensures end.returned == st.returned + [operand.ids.resultId] && operand.ids.resultId in end.ciphertexts
    ensures end.ciphertexts[operand.ids.resultId]
         == OperandCiphertext(operand, ordinal, env.rowSize, env.modulus)
  {
    hide Reaches, OperandNodes, CarriedBy, Plain, PrintableIdentifier, Encrypt, EvalAdd, EvalMultPlain, ReducedOperand,
      OperandProduct, Ordinal, FreshFrom, Pack, Selection;
    PlainIsNotCarried(ordinal, operand.ids.resultId);
    LabelsAreFresh(st.ciphertexts.Keys, ordinal, operand.ids, operand.rotations);
    end := OperandReplays(
      env, st, ordinal, operand.ids, operand.values, operand.aligned, operand.f1mValues, operand.rotations,
      operand.leaders);
  }

  // ----- from the trace to the product -----

  // The operands carry the placements of the components.
  ghost predicate CarriesComponents(operands: seq<Operand>, components: seq<Component>, query: seq<int>, n: nat) {
    |operands| == |components| && forall k | 0 <= k < |components| ::
      && operands[k].values == PlacedValues(components[k].terms, 2 * n)
      && operands[k].aligned == PlacedQuery(components[k].terms, query, 2 * n)
      && operands[k].f1mValues == components[k].mask
  }

  // Each component's reduction suits its position and reaches every mapped leader.
  ghost predicate Reducible(
    operands: seq<Operand>, components: seq<Component>, depths: seq<nat>, shape: Shape, query: seq<int>)
    requires |operands| == |components| == |depths|
  {
    forall k | 0 <= k < |components| ::
      && WellPlaced(components[k], shape, query)
      && ReducesWindows(k, operands[k].rotations, components[k].width, depths[k])
      && forall o | o in components[k].owners ::
           o.0 in operands[k].leaders && o.0 + components[k].width <= shape.rowSize
  }

  function DecryptedResults(end: State, operands: seq<Operand>, n: nat, p: Positive): (s: seq<seq<int>>)
    requires forall i | 0 <= i < |operands| :: operands[i].ids.resultId in end.ciphertexts
    ensures |s| == |operands|
  {
    seq(|operands|, i requires 0 <= i < |operands| => Decrypt(end.ciphertexts[operands[i].ids.resultId], n, p))
  }

  // So the replayed trace returns pages that merge to the direct product.
  lemma {:induction false} WholeTraceComputesProduct(
    env: Env, st: State, operands: seq<Operand>, components: seq<Component>, depths: seq<nat>, shape: Shape,
    query: seq<int>, matrix: Matrix, rows: nat)
    returns (end: State)
    requires Closed(st) && AllLabelsFit(operands, 0) && AllSupplied(env, st, operands, 0)
    requires ResultIdsNew(st, operands) && NotCarriedFrom(st.ciphertexts.Keys, 0)
    requires |operands| == |components| == |depths| && env.rowSize == shape.rowSize
    requires CarriesComponents(operands, components, query, env.rowSize)
    requires Reducible(operands, components, depths, shape, query)
    requires ZeroSumMasks(components, rows, env.modulus) && Holds(components, matrix)
    ensures Reaches(env, st, TraceNodes(operands, 0), end)
    ensures end.returned == st.returned + ResultIdsOf(operands)
    ensures forall i | 0 <= i < |operands| :: operands[i].ids.resultId in end.ciphertexts
    ensures forall row | 0 <= row < rows ::
      MergedAll(components, DecryptedResults(end, operands, env.rowSize, env.modulus), row, env.modulus)
      == RowProduct(matrix, query, row) % env.modulus
  {
    hide Reaches, TraceNodes, AllSupplied, ResultIdsNew, NotCarriedFrom, MergedAll, RowProduct, WellPlaced, Holds,
      ZeroSumMasks, ReducedOperand, OperandProduct, Selection, Encrypt, EvalAdd, EvalMultPlain, Decrypt, LabelsFit;
    end := WholeTraceReplays(env, st, operands, 0);
    var n, p := env.rowSize, env.modulus;
    var rotations := seq(|operands|, k requires 0 <= k < |operands| => operands[k].rotations);
    var leaders := seq(|operands|, k requires 0 <= k < |operands| => operands[k].leaders);
    var shares := seq(|components|, k requires 0 <= k < |components| =>
      Decrypt(OperandPage(k, n, p, components[k], query, rotations[k], leaders[k]), n, p));
    forall k | 0 <= k < |components| ensures shares[k] == DecryptedResults(end, operands, n, p)[k] {
      assert OperandCiphertext(operands[k], k, n, p) == OperandPage(k, n, p, components[k], query, rotations[k], leaders[k]);
      assert 0 + k == k;
    }
    assert shares == DecryptedResults(end, operands, n, p);
    forall row | 0 <= row < rows
      ensures MergedAll(components, DecryptedResults(end, operands, n, p), row, p) == RowProduct(matrix, query, row) % p
    {
      WholeQueryIsDirectProduct(components, rotations, leaders, depths, shape, query, matrix, rows, row, p);
    }
  }

  // Under prepared masks the client's centred merge of the replayed results is the
  // exact integer product of every bounded row.
  lemma {:induction false} WholeTraceIsExact(
    env: Env, st: State, operands: seq<Operand>, components: seq<Component>, depths: seq<nat>, shape: Shape,
    query: seq<int>, matrix: Matrix, rows: nat, draws: nat -> int, values: map<nat, seq<int>>)
    returns (end: State)
    requires Closed(st) && AllLabelsFit(operands, 0) && AllSupplied(env, st, operands, 0)
    requires ResultIdsNew(st, operands) && NotCarriedFrom(st.ciphertexts.Keys, 0)
    requires |operands| == |components| == |depths| && env.rowSize == shape.rowSize
    requires CarriesComponents(operands, components, query, env.rowSize)
    requires Reducible(operands, components, depths, shape, query)
    requires MasksDrawn(components, shape.rowSize, rows, env.modulus, draws, values) && Holds(components, matrix)
    ensures Reaches(env, st, TraceNodes(operands, 0), end)
    ensures end.returned == st.returned + ResultIdsOf(operands)
    ensures forall i | 0 <= i < |operands| :: operands[i].ids.resultId in end.ciphertexts
    ensures forall e | e in AllEntries(components) :: e.column < |query|
    ensures Bounded(components, query, rows, env.modulus) ==> forall row | 0 <= row < rows ::
      CenteredLift(
        MergedAll(components, DecryptedResults(end, operands, env.rowSize, env.modulus), row, env.modulus), env.modulus)
      == RowProduct(matrix, query, row)
  {
    hide Reaches, TraceNodes, AllSupplied, ResultIdsNew, NotCarriedFrom, MergedAll, RowProduct, WellPlaced, Holds,
      ZeroSumMasks, PreparedMasks, OutputPlanOk, Carries, InRange, DrawnBefore, CenteredLift, DecryptedResults,
      AbsoluteRow, AllEntries, CarriesComponents;
    var p := env.modulus;
    PreparedMasksCancel(components, shape.rowSize, rows, p, draws, values);
    end := WholeTraceComputesProduct(env, st, operands, components, depths, shape, query, matrix, rows);
    forall c | c in components ensures WellPlaced(c, shape, query) {
      var k :| 0 <= k < |components| && components[k] == c;
    }
    EntriesWithin(components, shape, query);
    if Bounded(components, query, rows, p) {
      HoldsCollected(components, matrix);
      forall row | 0 <= row < rows
        ensures CenteredLift(RowProduct(matrix, query, row) % p, p) == RowProduct(matrix, query, row)
      {
        BoundedRowIsExact(AllEntries(components), matrix, query, row, p);
      }
    }
  }
}
