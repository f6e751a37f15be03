// What the labels of an operand's trace mean: the ciphertext a replay leaves under
// each label, spelled out, is the product, the rotation or the window sum it names.
module TraceLabels {
  import opened Modular
  import opened Lanes
  import opened Reduction
  import opened CloudProgram
  import opened TypedRuns
  import opened EmittedRun
  import opened WholeQuery
  import opened OperandReplay

  // Both rows of the ciphertext hold the windows of w lanes of the source.
  ghost predicate WindowsUnder(st: State, id: string, source: Ciphertext, w: nat, n: nat, p: Positive) {
    && id in st.ciphertexts && st.ciphertexts[id].elements == 2
    && |st.ciphertexts[id].lanes.first| == n == |st.ciphertexts[id].lanes.second|
    && BothHoldWindows(st.ciphertexts[id], source, w, p)
  }

  ghost predicate RotationUnder(st: State, id: string, rotated: string, r: nat, n: nat) {
    && id in st.ciphertexts && rotated in st.ciphertexts
    && st.ciphertexts[id] == EvalRotate(st.ciphertexts[rotated], r, n)
  }

  // ----- delta operands -----

  // The sum that 2^k lanes are in after k rungs.
  function SegmentSum(ordinal: nat, k: nat): string
    requires LabelFits(ordinal) && (k > 0 ==> LabelFits(Pow2(k)))
  {
    if k == 0 then "ssa-relinearized-" + Ordinal(ordinal)
    else "ssa-segment-sum-" + Ordinal(ordinal) + "-" + Ordinal(Pow2(k))
  }

  // The k-th rung: the sum labelled 2^(k+1) holds windows of 2^(k+1) lanes, and the
  // rotation labelled 2^k rotates the sum before it by 2^k.
  ghost predicate DeltaLabels(st: State, ordinal: nat, source: Ciphertext, k: nat, n: nat, p: Positive) {
    && LabelFits(ordinal) && LabelFits(Pow2(k)) && LabelFits(Pow2(k + 1))
    && WindowsUnder(
         st, "ssa-segment-sum-" + Ordinal(ordinal) + "-" + Ordinal(Pow2(k + 1)), source, Pow2(k + 1), n, p)
    && RotationUnder(
         st, "ssa-rotate-" + Ordinal(ordinal) + "-" + Ordinal(Pow2(k)), SegmentSum(ordinal, k), Pow2(k), n)
  }

  ghost predicate AllDeltaLabels(
    st: State, ordinal: nat, source: Ciphertext, from: nat, to: nat, n: nat, p: Positive)
  {
    forall k | from <= k < to :: DeltaLabels(st, ordinal, source, k, n, p)
  }

  lemma {:induction false} DeltaRung(
    env: Env, st: State, ordinal: nat, sourceId: string, source: Ciphertext, k: nat)
    returns (end: State)
    requires Closed(st) && BASE_OPERANDS <= ordinal && LabelFits(ordinal) && LabelFits(Pow2(k))
    requires LabelFits(Pow2(k + 1)) && LabelFits(SumNumber(ordinal, k, Pow2(k))) && Provisioned(env, [Pow2(k)])
    requires TwoElements(st, sourceId) && |source.lanes.first| == |source.lanes.second| == env.rowSize
    requires WindowsUnder(st, SegmentSum(ordinal, k), source, Pow2(k), env.rowSize, env.modulus)
    requires FreshFrom(st.ciphertexts.Keys, RungAt(ordinal, sourceId, SegmentSum(ordinal, k), Pow2(k), k))
    ensures SumLabel(ordinal, k, Pow2(k)) == SegmentSum(ordinal, k + 1)
    ensures Reaches(env, st, RungAt(ordinal, sourceId, SegmentSum(ordinal, k), Pow2(k), k), end)
    ensures Adds(st, end, RungAt(ordinal, sourceId, SegmentSum(ordinal, k), Pow2(k), k))
    ensures DeltaLabels(end, ordinal, source, k, env.rowSize, env.modulus)
  {
    hide Reaches, Ordinal, AddRows, RotateRow, HoldsWindows, Adds, FreshFrom, RungAt, Provisioned;
    var r, id := Pow2(k), SegmentSum(ordinal, k);
    assert Pow2(k + 1) == 2 * r;
    end := ReplayRung(env, st, ordinal, sourceId, id, r, k);
    var held := st.ciphertexts[id];
    LadderStep(held.lanes.first, source.lanes.first, r, env.modulus);
    LadderStep(held.lanes.second, source.lanes.second, r, env.modulus);
    KeptIn(st, end, RungAt(ordinal, sourceId, id, r, k), id);
  }

  lemma {:induction false} KeptIn(st: State, end: State, nodes: seq<Node>, id: string)
    requires Adds(st, end, nodes) && id in st.ciphertexts
    ensures id in end.ciphertexts && end.ciphertexts[id] == st.ciphertexts[id] && Closed(end)
  {
  }

  lemma {:induction false} DeltaLabelsKept(
    st: State, end: State, nodes: seq<Node>, ordinal: nat, source: Ciphertext, k: nat, n: nat, p: Positive)
    requires Adds(st, end, nodes) && DeltaLabels(st, ordinal, source, k, n, p)
    ensures DeltaLabels(end, ordinal, source, k, n, p)
  {
    hide Ordinal, BothHoldWindows, RotateRow, IdsOf;
  }

  lemma {:induction false} DeltaRungs(
    env: Env, st: State, ordinal: nat, sourceId: string, source: Ciphertext, k: nat, count: nat)
    returns (end: State)
    requires Closed(st) && BASE_OPERANDS <= ordinal && LabelFits(ordinal) && (k > 0 ==> LabelFits(Pow2(k)))
    requires LabelsFit(ordinal, PowersOfTwo(k, count), k) && Provisioned(env, PowersOfTwo(k, count))
    requires TwoElements(st, sourceId) && |source.lanes.first| == |source.lanes.second| == env.rowSize
    requires WindowsUnder(st, SegmentSum(ordinal, k), source, Pow2(k), env.rowSize, env.modulus)
    requires FreshFrom(
      st.ciphertexts.Keys, RungNodes(ordinal, sourceId, SegmentSum(ordinal, k), PowersOfTwo(k, count), k))
    ensures Reaches(env, st, RungNodes(ordinal, sourceId, SegmentSum(ordinal, k), PowersOfTwo(k, count), k), end)
    ensures Adds(st, end, RungNodes(ordinal, sourceId, SegmentSum(ordinal, k), PowersOfTwo(k, count), k))
    ensures AllDeltaLabels(end, ordinal, source, k, k + count, env.rowSize, env.modulus)
    decreases count
  {
    hide Reaches, Ordinal, SumLabel, RungAt, RungNodes, FreshFrom, IdsOf, Adds, WindowsUnder, DeltaLabels, HoldsWindows,
      BothHoldWindows, Provisioned, PowersOfTwo, Pow2, SegmentSum, LabelsFit, LabelFits;
    var rotations, id := PowersOfTwo(k, count), SegmentSum(ordinal, k);
    if count == 0 {
      assert rotations == [];
      NoRung(ordinal, sourceId, id, k);
      ReachesNothing(env, st);
      AddsNothing(st);
      return st;
    }
    var r, rest := Pow2(k), PowersOfTwo(k + 1, count - 1);
    FirstPower(k, count);
    DeltaLabelsFit(ordinal, rotations, k);
    UnfoldRungs(ordinal, sourceId, id, rotations, k);
    FreshAppend(
      st.ciphertexts.Keys, RungAt(ordinal, sourceId, id, r, k),
      RungNodes(ordinal, sourceId, SumLabel(ordinal, k, r), rest, k + 1));
    ProvisionedParts(env, rotations);
    var mid := DeltaRung(env, st, ordinal, sourceId, source, k);
    AddsKeys(st, mid, RungAt(ordinal, sourceId, id, r, k));
    KeptIn(st, mid, RungAt(ordinal, sourceId, id, r, k), sourceId);
    NextWindows(mid, ordinal, source, k, env.rowSize, env.modulus);
    end := DeltaRungs(env, mid, ordinal, sourceId, source, k + 1, count - 1);
    var tail := RungNodes(ordinal, sourceId, SegmentSum(ordinal, k + 1), rest, k + 1);
    ReachesAppend(env, st, RungAt(ordinal, sourceId, id, r, k), mid, tail, end);
    AddsAppend(st, mid, end, RungAt(ordinal, sourceId, id, r, k), tail);
    DeltaLabelsKept(mid, end, tail, ordinal, source, k, env.rowSize, env.modulus);
  }

  // The labels of the first rung, and of the rest, fit.
  lemma {:induction false} DeltaLabelsFit(ordinal: nat, rotations: seq<nat>, k: nat)
    requires BASE_OPERANDS <= ordinal && rotations != [] && LabelsFit(ordinal, rotations, k)
    ensures LabelFits(ordinal) && LabelFits(rotations[0]) && LabelFits(SumNumber(ordinal, k, rotations[0]))
    ensures SumNumber(ordinal, k, rotations[0]) == rotations[0] + rotations[0]
    ensures LabelsFit(ordinal, rotations[1..], k + 1)
  {
    hide LabelFits;
    assert SumNumber(ordinal, k + 0, rotations[0]) == SumNumber(ordinal, k, rotations[0]);
    forall i | 0 <= i < |rotations[1..]|
      ensures LabelFits(rotations[1..][i]) && LabelFits(SumNumber(ordinal, k + 1 + i, rotations[1..][i]))
    {
      assert rotations[1..][i] == rotations[i + 1];
      assert LabelFits(SumNumber(ordinal, k + (i + 1), rotations[i + 1]));
    }
  }

  lemma {:induction false} AddsNothing(st: State)
    requires Closed(st)
    ensures Adds(st, st, [])
  {
  }

  lemma {:induction false} AddsKeys(st: State, end: State, nodes: seq<Node>)
    requires Adds(st, end, nodes)
    ensures end.ciphertexts.Keys == st.ciphertexts.Keys + IdsOf(nodes)
  {
  }

  lemma {:induction false} ProvisionedParts(env: Env, rotations: seq<nat>)
    requires rotations != [] && Provisioned(env, rotations)
    ensures Provisioned(env, [rotations[0]]) && Provisioned(env, rotations[1..])
  {
    assert rotations[0] in rotations;
  }

  lemma {:induction false} NextWindows(st: State, ordinal: nat, source: Ciphertext, k: nat, n: nat, p: Positive)
    requires DeltaLabels(st, ordinal, source, k, n, p)
    ensures LabelFits(ordinal) && LabelFits(Pow2(k + 1))
    ensures WindowsUnder(st, SegmentSum(ordinal, k + 1), source, Pow2(k + 1), n, p)
  {
    hide Ordinal, BothHoldWindows;
  }

  // ----- base operands -----

  // The sum after k rungs.
  function ColumnSum(ordinal: nat, k: nat): string
    requires LabelFits(ordinal) && (k > 0 ==> LabelFits(k))
  {
    if k == 0 then "ssa-relinearized-" + Ordinal(ordinal)
    else "ssa-column-sum-" + Ordinal(ordinal) + "-" + Ordinal(k)
  }

  // The sum labelled k holds windows of k + 1 lanes, and the rotation labelled k
  // rotates the relinearised product by k.
  ghost predicate BaseLabels(st: State, ordinal: nat, source: Ciphertext, k: nat, n: nat, p: Positive) {
    && LabelFits(ordinal) && LabelFits(k)
    && WindowsUnder(st, "ssa-column-sum-" + Ordinal(ordinal) + "-" + Ordinal(k), source, k + 1, n, p)
    && RotationUnder(
         st, "ssa-rotate-" + Ordinal(ordinal) + "-" + Ordinal(k), "ssa-relinearized-" + Ordinal(ordinal), k, n)
  }

  ghost predicate AllBaseLabels(
    st: State, ordinal: nat, source: Ciphertext, from: nat, to: nat, n: nat, p: Positive)
  {
    forall k | from < k <= to :: BaseLabels(st, ordinal, source, k, n, p)
  }

  lemma {:induction false} BaseRung(env: Env, st: State, ordinal: nat, source: Ciphertext, k: nat) returns (end: State)
    requires Closed(st) && ordinal < BASE_OPERANDS && LabelFits(ordinal) && (k > 0 ==> LabelFits(k))
    requires LabelFits(k + 1) && LabelFits(SumNumber(ordinal, k, k + 1)) && Provisioned(env, [k + 1])
    requires |source.lanes.first| == |source.lanes.second| == env.rowSize
    requires var id := "ssa-relinearized-" + Ordinal(ordinal); TwoElements(st, id) && st.ciphertexts[id] == source
    requires WindowsUnder(st, ColumnSum(ordinal, k), source, k + 1, env.rowSize, env.modulus)
    requires FreshFrom(
      st.ciphertexts.Keys, RungAt(ordinal, "ssa-relinearized-" + Ordinal(ordinal), ColumnSum(ordinal, k), k + 1, k))
    ensures SumLabel(ordinal, k, k + 1) == ColumnSum(ordinal, k + 1)
    ensures var nodes := RungAt(ordinal, "ssa-relinearized-" + Ordinal(ordinal), ColumnSum(ordinal, k), k + 1, k);
      Reaches(env, st, nodes, end) && Adds(st, end, nodes)
    ensures BaseLabels(end, ordinal, source, k + 1, env.rowSize, env.modulus)
  {
    hide Reaches, Ordinal, AddRows, RotateRow, HoldsWindows, Adds, FreshFrom, RungAt, Provisioned;
    var sourceId, id := "ssa-relinearized-" + Ordinal(ordinal), ColumnSum(ordinal, k);
    end := ReplayRung(env, st, ordinal, sourceId, id, k + 1, k);
    var held := st.ciphertexts[id];
    StarStep(held.lanes.first, source.lanes.first, k + 1, env.modulus);
    StarStep(held.lanes.second, source.lanes.second, k + 1, env.modulus);
    KeptIn(st, end, RungAt(ordinal, sourceId, id, k + 1, k), sourceId);
  }

  lemma {:induction false} BaseLabelsKept(
    st: State, end: State, nodes: seq<Node>, ordinal: nat, source: Ciphertext, k: nat, n: nat, p: Positive)
    requires Adds(st, end, nodes) && BaseLabels(st, ordinal, source, k, n, p)
    ensures BaseLabels(end, ordinal, source, k, n, p)
  {
    hide Ordinal, BothHoldWindows, RotateRow, IdsOf;
  }

  lemma {:induction false} BaseNextWindows(st: State, ordinal: nat, source: Ciphertext, k: nat, n: nat, p: Positive)
    requires 0 < k && BaseLabels(st, ordinal, source, k, n, p)
    ensures LabelFits(ordinal) && LabelFits(k) && WindowsUnder(st, ColumnSum(ordinal, k), source, k + 1, n, p)
  {
    hide Ordinal, BothHoldWindows;
  }

  lemma {:induction false} BaseLabelsFit(ordinal: nat, rotations: seq<nat>, k: nat)
    requires ordinal < BASE_OPERANDS && rotations != [] && LabelsFit(ordinal, rotations, k)
    ensures LabelFits(ordinal) && LabelFits(rotations[0]) && LabelFits(SumNumber(ordinal, k, rotations[0]))
    ensures LabelsFit(ordinal, rotations[1..], k + 1)
  {
    hide LabelFits;
    assert SumNumber(ordinal, k + 0, rotations[0]) == SumNumber(ordinal, k, rotations[0]);
    forall i | 0 <= i < |rotations[1..]|
      ensures LabelFits(rotations[1..][i]) && LabelFits(SumNumber(ordinal, k + 1 + i, rotations[1..][i]))
    {
      assert rotations[1..][i] == rotations[i + 1];
      assert LabelFits(SumNumber(ordinal, k + (i + 1), rotations[i + 1]));
    }
  }

  lemma {:induction false} BaseRungs(
    env: Env, st: State, ordinal: nat, source: Ciphertext, rotations: seq<nat>, k: nat, count: nat)
    returns (end: State)
    requires Closed(st) && ordinal < BASE_OPERANDS && LabelFits(ordinal) && (k > 0 ==> LabelFits(k))
    requires rotations == Consecutive(k + 1, count)
    requires LabelsFit(ordinal, rotations, k) && Provisioned(env, rotations)
    requires |source.lanes.first| == |source.lanes.second| == env.rowSize
    requires var id := "ssa-relinearized-" + Ordinal(ordinal); TwoElements(st, id) && st.ciphertexts[id] == source
    requires WindowsUnder(st, ColumnSum(ordinal, k), source, k + 1, env.rowSize, env.modulus)
    requires FreshFrom(
      st.ciphertexts.Keys, RungNodes(ordinal, "ssa-relinearized-" + Ordinal(ordinal), ColumnSum(ordinal, k), rotations, k))
    ensures var nodes :=
        RungNodes(ordinal, "ssa-relinearized-" + Ordinal(ordinal), ColumnSum(ordinal, k), rotations, k);
      Reaches(env, st, nodes, end) && Adds(st, end, nodes)
    ensures AllBaseLabels(end, ordinal, source, k, k + count, env.rowSize, env.modulus)
    decreases count
  {
    hide Reaches, Ordinal, SumLabel, RungAt, RungNodes, FreshFrom, IdsOf, Adds, WindowsUnder, BaseLabels, HoldsWindows,
      BothHoldWindows, Provisioned, ColumnSum, LabelsFit, LabelFits;
    var sourceId, id := "ssa-relinearized-" + Ordinal(ordinal), ColumnSum(ordinal, k);
    if count == 0 {
      assert rotations == [];
      NoRung(ordinal, sourceId, id, k);
      ReachesNothing(env, st);
      AddsNothing(st);
      return st;
    }
    var rest := rotations[1..];
    assert rotations[0] == k + 1 && rest == Consecutive(k + 2, count - 1);
    BaseLabelsFit(ordinal, rotations, k);
    UnfoldRungs(ordinal, sourceId, id, rotations, k);
    FreshAppend(
      st.ciphertexts.Keys, RungAt(ordinal, sourceId, id, k + 1, k),
      RungNodes(ordinal, sourceId, SumLabel(ordinal, k, k + 1), rest, k + 1));
    ProvisionedParts(env, rotations);
    var mid := BaseRung(env, st, ordinal, source, k);
    AddsKeys(st, mid, RungAt(ordinal, sourceId, id, k + 1, k));
    KeptIn(st, mid, RungAt(ordinal, sourceId, id, k + 1, k), sourceId);
    BaseNextWindows(mid, ordinal, source, k + 1, env.rowSize, env.modulus);
    end := BaseRungs(env, mid, ordinal, source, rest, k + 1, count - 1);
    var tail := RungNodes(ordinal, sourceId, ColumnSum(ordinal, k + 1), rest, k + 1);
    ReachesAppend(env, st, RungAt(ordinal, sourceId, id, k + 1, k), mid, tail, end);
    AddsAppend(st, mid, end, RungAt(ordinal, sourceId, id, k + 1, k), tail);
    BaseLabelsKept(mid, end, tail, ordinal, source, k + 1, env.rowSize, env.modulus);
  }

  // ----- the whole operand -----

  lemma {:induction false} RunKeeps(env: Env, st: State, nodes: seq<Node>)
    requires Run(env, st, nodes).Success?
    ensures Keeps(st, Run(env, st, nodes).value)
    decreases |nodes|
  {
    if nodes != [] {
      hide Evaluate, PrintableIdentifier;
      RunKeeps(env, Step(env, st, nodes[0]).value, nodes[1..]);
    }
  }

  // The product and what relinearisation makes of it, in a state the run keeps.
  lemma {:induction false} ProductUnder(env: Env, st: State, ordinal: nat, ids: OperandIds)
    returns (mid: State)
    requires Closed(st) && LabelFits(ordinal) && TwoElements(st, ids.valueId) && TwoElements(st, ids.queryId)
    requires FreshFrom(st.ciphertexts.Keys, ProductNodes(ordinal, ids))
    ensures Reaches(env, st, ProductNodes(ordinal, ids), mid) && Adds(st, mid, ProductNodes(ordinal, ids))
    ensures var product, id :=
        EvalMultNoRelin(st.ciphertexts[ids.valueId], st.ciphertexts[ids.queryId], env.rowSize, env.modulus),
        "ssa-relinearized-" + Ordinal(ordinal);
      && TwoElements(mid, id) && mid.ciphertexts[id] == Relinearized(product)
      && WindowsUnder(mid, id, Relinearized(product), 1, env.rowSize, env.modulus)
  {
    hide Reaches, Ordinal, Adds, FreshFrom, HoldsWindows, MulRows;
    mid := ReplayProduct(env, st, ordinal, ids);
    var product := EvalMultNoRelin(st.ciphertexts[ids.valueId], st.ciphertexts[ids.queryId], env.rowSize, env.modulus);
    ProductResidues(st.ciphertexts[ids.valueId], st.ciphertexts[ids.queryId], env.rowSize, env.modulus);
    ResiduesHoldUnitWindows(product.lanes.first, env.modulus);
    ResiduesHoldUnitWindows(product.lanes.second, env.modulus);
  }

  lemma {:induction false} ProductResidues(a: Ciphertext, b: Ciphertext, n: nat, p: Positive)
    ensures Canonical(EvalMultNoRelin(a, b, n, p).lanes, n, p)
  {
  }

  // What the replay needs of an operand.
  ghost predicate Replayable(env: Env, st: State, ordinal: nat, ids: OperandIds, rotations: seq<nat>) {
    && Closed(st) && LabelsFit(ordinal, rotations, 0) && Provisioned(env, rotations)
    && TwoElements(st, ids.valueId) && TwoElements(st, ids.queryId)
    && FreshFrom(st.ciphertexts.Keys, OperandNodes(ordinal, ids, rotations))
  }

  // The rungs of a replayed operand come after its product and before its masking.
  lemma {:induction false} RungsInside(
    env: Env, st: State, ordinal: nat, ids: OperandIds, rotations: seq<nat>, end: State, mid: State, reduced: State)
    requires LabelsFit(ordinal, rotations, 0) && Reaches(env, st, OperandNodes(ordinal, ids, rotations), end)
    requires Reaches(env, st, ProductNodes(ordinal, ids), mid)
    requires var id := "ssa-relinearized-" + Ordinal(ordinal);
      Reaches(env, mid, RungNodes(ordinal, id, id, rotations, 0), reduced)
    ensures Keeps(reduced, end)
  {
    hide Ordinal, RungNodes, MaskedNodes, ProductNodes, LastSum, Run, Reaches;
    var id := "ssa-relinearized-" + Ordinal(ordinal);
    var first, rungs := ProductNodes(ordinal, ids), RungNodes(ordinal, id, id, rotations, 0);
    var rest := MaskedNodes(ordinal, ids, LastSum(ordinal, id, rotations, 0));
    ReachesIsRun(env, st, OperandNodes(ordinal, ids, rotations), end);
    ReachesIsRun(env, st, first, mid);
    ReachesIsRun(env, mid, rungs, reduced);
    RunAppend(env, st, first, rungs);
    RunAppend(env, st, first + rungs, rest);
    RunKeeps(env, reduced, rest);
  }

  lemma {:induction false} FreshParts(keys: set<string>, ordinal: nat, ids: OperandIds, rotations: seq<nat>)
    requires LabelsFit(ordinal, rotations, 0) && FreshFrom(keys, OperandNodes(ordinal, ids, rotations))
    ensures FreshFrom(keys, ProductNodes(ordinal, ids))
    ensures var id := "ssa-relinearized-" + Ordinal(ordinal);
      FreshFrom(keys + IdsOf(ProductNodes(ordinal, ids)), RungNodes(ordinal, id, id, rotations, 0))
  {
    hide Ordinal, RungNodes, MaskedNodes, ProductNodes, LastSum, IdsOf, FreshFrom;
    var id := "ssa-relinearized-" + Ordinal(ordinal);
    var first, rungs := ProductNodes(ordinal, ids), RungNodes(ordinal, id, id, rotations, 0);
    FreshAppend(keys, first + rungs, MaskedNodes(ordinal, ids, LastSum(ordinal, id, rotations, 0)));
    FreshAppend(keys, first, rungs);
  }

  // However the trace of a delta operand is replayed to the end, the sum labelled
  // 2^k holds in every lane of either row the cyclic sum of the next 2^k lanes of
  // the product, and the rotations are those their labels name.
  lemma {:induction false} DeltaLabelsMean(
    env: Env, st: State, ordinal: nat, ids: OperandIds, m: nat, end: State)
    requires BASE_OPERANDS <= ordinal && Replayable(env, st, ordinal, ids, PowersOfTwo(0, m))
    requires Reaches(env, st, OperandNodes(ordinal, ids, PowersOfTwo(0, m)), end)
    ensures var product :=
        EvalMultNoRelin(st.ciphertexts[ids.valueId], st.ciphertexts[ids.queryId], env.rowSize, env.modulus);
      AllDeltaLabels(end, ordinal, Relinearized(product), 0, m, env.rowSize, env.modulus)
  {
    hide Reaches, Ordinal, RungNodes, OperandNodes, ProductNodes, FreshFrom, IdsOf, Adds, WindowsUnder, HoldsWindows,
      BothHoldWindows, MulRows, Provisioned, LabelsFit, LabelFits, DeltaLabels, PowersOfTwo;
    var id := OperandSource(ordinal, PowersOfTwo(0, m));
    FreshParts(st.ciphertexts.Keys, ordinal, ids, PowersOfTwo(0, m));
    var mid := ProductUnder(env, st, ordinal, ids);
    AddsKeys(st, mid, ProductNodes(ordinal, ids));
    KeptClosed(st, mid, ProductNodes(ordinal, ids));
    var product := EvalMultNoRelin(st.ciphertexts[ids.valueId], st.ciphertexts[ids.queryId], env.rowSize, env.modulus);
    assert Pow2(0) == 1;
    var reduced := DeltaRungs(env, mid, ordinal, id, Relinearized(product), 0, m);
    RungsInside(env, st, ordinal, ids, PowersOfTwo(0, m), end, mid, reduced);
    forall k | 0 <= k < m ensures DeltaLabels(end, ordinal, Relinearized(product), k, env.rowSize, env.modulus) {
      DeltaLabelsStay(reduced, end, ordinal, Relinearized(product), k, env.rowSize, env.modulus);
    }
  }

  lemma {:induction false} OperandSource(ordinal: nat, rotations: seq<nat>) returns (id: string)
    requires LabelsFit(ordinal, rotations, 0)
    ensures LabelFits(ordinal) && id == "ssa-relinearized-" + Ordinal(ordinal) == SegmentSum(ordinal, 0)
    ensures id == ColumnSum(ordinal, 0)
  {
    id := "ssa-relinearized-" + Ordinal(ordinal);
  }

  lemma {:induction false} KeptClosed(st: State, end: State, nodes: seq<Node>)
    requires Adds(st, end, nodes)
    ensures Closed(end)
  {
  }

  lemma {:induction false} DeltaLabelsStay(
    st: State, end: State, ordinal: nat, source: Ciphertext, k: nat, n: nat, p: Positive)
    requires Keeps(st, end) && DeltaLabels(st, ordinal, source, k, n, p)
    ensures DeltaLabels(end, ordinal, source, k, n, p)
  {
    hide Ordinal, BothHoldWindows, RotateRow;
  }

  lemma {:induction false} BaseLabelsStay(
    st: State, end: State, ordinal: nat, source: Ciphertext, k: nat, n: nat, p: Positive)
    requires Keeps(st, end) && BaseLabels(st, ordinal, source, k, n, p)
    ensures BaseLabels(end, ordinal, source, k, n, p)
  {
    hide Ordinal, BothHoldWindows, RotateRow;
  }

  // For a base operand the sum labelled k holds the sum of the next k + 1 lanes.
  lemma {:induction false} BaseLabelsMean(
    env: Env, st: State, ordinal: nat, ids: OperandIds, rotations: seq<nat>, w: nat, end: State)
    requires ordinal < BASE_OPERANDS && 0 < w && rotations == Consecutive(1, w - 1)
    requires Replayable(env, st, ordinal, ids, rotations)
    requires Reaches(env, st, OperandNodes(ordinal, ids, rotations), end)
    ensures var product :=
        EvalMultNoRelin(st.ciphertexts[ids.valueId], st.ciphertexts[ids.queryId], env.rowSize, env.modulus);
      AllBaseLabels(end, ordinal, Relinearized(product), 0, w - 1, env.rowSize, env.modulus)
  {
    hide Reaches, Ordinal, RungNodes, OperandNodes, ProductNodes, FreshFrom, IdsOf, Adds, WindowsUnder, HoldsWindows,
      BothHoldWindows, MulRows, Provisioned, LabelsFit, LabelFits, BaseLabels;
    var id := OperandSource(ordinal, rotations);
    FreshParts(st.ciphertexts.Keys, ordinal, ids, rotations);
    var mid := ProductUnder(env, st, ordinal, ids);
    AddsKeys(st, mid, ProductNodes(ordinal, ids));
    KeptClosed(st, mid, ProductNodes(ordinal, ids));
    var product := EvalMultNoRelin(st.ciphertexts[ids.valueId], st.ciphertexts[ids.queryId], env.rowSize, env.modulus);
    var reduced := BaseRungs(env, mid, ordinal, Relinearized(product), rotations, 0, w - 1);
    RungsInside(env, st, ordinal, ids, rotations, end, mid, reduced);
    forall k | 0 < k <= w - 1 ensures BaseLabels(end, ordinal, Relinearized(product), k, env.rowSize, env.modulus) {
      BaseLabelsStay(reduced, end, ordinal, Relinearized(product), k, env.rowSize, env.modulus);
    }
  }

  // The other labels of the trace, whatever its rotations.
  ghost predicate EndLabels(
    env: Env, st: State, end: State, ordinal: nat, ids: OperandIds, rotations: seq<nat>)
    requires {ids.valueId, ids.queryId, ids.f1mId} <= st.ciphertexts.Keys
  {
    && LabelFits(ordinal) && "pt-selection-" + Ordinal(ordinal) in env.masks
    && var product, relinearized := "ssa-product-" + Ordinal(ordinal), "ssa-relinearized-" + Ordinal(ordinal);
       var selected, masked := "ssa-selected-" + Ordinal(ordinal), "ssa-masked-" + Ordinal(ordinal);
       var n, p, cts := env.rowSize, env.modulus, end.ciphertexts;
       && {product, relinearized, selected, masked, ids.resultId} <= cts.Keys
       && cts[product] == EvalMultNoRelin(st.ciphertexts[ids.valueId], st.ciphertexts[ids.queryId], n, p)
       && cts[relinearized] == Relinearized(cts[product])
       && cts[selected] == EvalMultPlain(
            ReducedOperand(ordinal, cts[relinearized], rotations, n, p), env.masks["pt-selection-" + Ordinal(ordinal)], n, p)
       && cts[masked] == EvalAdd(cts[selected], st.ciphertexts[ids.f1mId], n, p)
       && cts[ids.resultId] == cts[masked]
  }

  // However the trace of an operand is replayed to the end, the product, what
  // relinearisation makes of it, the selection of the reduced value and the blinded
  // selection are under the labels that say so.
  lemma {:induction false} FixedLabelsMean(
    env: Env, st: State, ordinal: nat, ids: OperandIds, rotations: seq<nat>, end: State)
    requires Replayable(env, st, ordinal, ids, rotations) && TwoElements(st, ids.f1mId)
    requires "pt-selection-" + Ordinal(ordinal) in env.masks
    requires Reaches(env, st, OperandNodes(ordinal, ids, rotations), end)
    ensures EndLabels(env, st, end, ordinal, ids, rotations)
  {
    hide Reaches, Ordinal, Run, RungNodes, MaskedNodes, FreshFrom, IdsOf, LastSum, EvalAdd, EvalMultPlain,
      EvalMultNoRelin, Star, LadderOf, Provisioned, LabelsFit, ReducedOperand;
    var id := OperandSource(ordinal, rotations);
    var first, rungs := ProductNodes(ordinal, ids), RungNodes(ordinal, id, id, rotations, 0);
    var last := LastSum(ordinal, id, rotations, 0);
    var rest := MaskedNodes(ordinal, ids, last);
    FreshAppend(st.ciphertexts.Keys, first + rungs, rest);
    FreshAppend(st.ciphertexts.Keys, first, rungs);
    IdsAppend(first, rungs);
    var mid := ReplayProduct(env, st, ordinal, ids);
    assert st.ciphertexts.Keys + (IdsOf(first) + IdsOf(rungs)) == mid.ciphertexts.Keys + IdsOf(rungs);
    var reduced := ReplayRungs(env, mid, ordinal, id, id, rotations, 0);
    ReducedElements(ordinal, mid.ciphertexts[id], rotations, env.rowSize, env.modulus);
    var finished := ReplayMasked(env, reduced, ordinal, ids, last);
    ReachesAppend(env, st, first, mid, rungs, reduced);
    ReachesAppend(env, st, first + rungs, reduced, rest, finished);
    ReachesIsRun(env, st, first + rungs + rest, finished);
    ReachesIsRun(env, st, OperandNodes(ordinal, ids, rotations), end);
  }
}
