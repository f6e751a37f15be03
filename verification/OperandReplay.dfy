// The trace of one operand is a program: the interpreter replays it to the
// ciphertext the whole-query witness computed by hand.
module OperandReplay {
  import opened Modular
  import opened Lanes
  import opened Reduction
  import opened CloudProgram
  import opened TypedRuns
  import opened EmittedRun
  import opened WholeQuery

  // Every node defines an acceptable identifier that nothing has defined before.
  predicate FreshFrom(keys: set<string>, nodes: seq<Node>)
    decreases |nodes|
  {
    nodes == []
    || (PrintableIdentifier(nodes[0].resultId) && nodes[0].resultId !in keys
        && FreshFrom(keys + {nodes[0].resultId}, nodes[1..]))
  }

  function IdsOf(nodes: seq<Node>): set<string>
    decreases |nodes|
  {
    if nodes == [] then {} else {nodes[0].resultId} + IdsOf(nodes[1..])
  }

  lemma {:induction false} FreshAppend(keys: set<string>, a: seq<Node>, b: seq<Node>)
    requires FreshFrom(keys, a + b)
    ensures FreshFrom(keys, a) && FreshFrom(keys + IdsOf(a), b)
    decreases |a|
  {
    if a == [] {
      assert a + b == b && keys + IdsOf(a) == keys;
    } else {
      assert (a + b)[1..] == a[1..] + b;
      FreshAppend(keys + {a[0].resultId}, a[1..], b);
      assert keys + {a[0].resultId} + IdsOf(a[1..]) == keys + IdsOf(a);
    }
  }

  lemma {:induction false} OneFresh(keys: set<string>, node: Node)
    requires FreshFrom(keys, [node])
    ensures PrintableIdentifier(node.resultId) && node.resultId !in keys && IdsOf([node]) == {node.resultId}
  {
    assert [node][1..] == [];
  }

  // `end` is `st` with exactly the definitions of the nodes added.
  ghost predicate Adds(st: State, end: State, nodes: seq<Node>) {
    Closed(end) && Keeps(st, end) && end.ciphertexts.Keys == st.ciphertexts.Keys + IdsOf(nodes)
  }

  lemma {:induction false} AddsAppend(st: State, mid: State, end: State, a: seq<Node>, b: seq<Node>)
    requires Adds(st, mid, a) && Adds(mid, end, b)
    ensures Adds(st, end, a + b)
  {
    IdsAppend(a, b);
  }

  lemma {:induction false} IdsAppend(a: seq<Node>, b: seq<Node>)
    ensures IdsOf(a + b) == IdsOf(a) + IdsOf(b)
    decreases |a|
  {
    if a == [] {
      assert a + b == b;
    } else {
      assert (a + b)[1..] == a[1..] + b;
      IdsAppend(a[1..], b);
    }
  }

  lemma {:induction false} DefinesAdds(st: State, end: State, node: Node, c: Ciphertext)
    requires Defines(st, end, node.resultId, c) && node.resultId !in st.ciphertexts
    ensures Adds(st, end, [node])
  {
    assert [node][1..] == [];
  }

  // ----- the product -----

  lemma {:induction false} ReplayProduct(env: Env, st: State, ordinal: nat, ids: OperandIds) returns (end: State)
    requires Closed(st) && LabelFits(ordinal) && TwoElements(st, ids.valueId) && TwoElements(st, ids.queryId)
    requires FreshFrom(st.ciphertexts.Keys, ProductNodes(ordinal, ids))
    ensures Reaches(env, st, ProductNodes(ordinal, ids), end) && Adds(st, end, ProductNodes(ordinal, ids))
    ensures "ssa-product-" + Ordinal(ordinal) in end.ciphertexts
    ensures end.ciphertexts["ssa-product-" + Ordinal(ordinal)]
         == EvalMultNoRelin(st.ciphertexts[ids.valueId], st.ciphertexts[ids.queryId], env.rowSize, env.modulus)
    ensures ProductNodes(ordinal, ids)[1].resultId in end.ciphertexts
    ensures end.ciphertexts[ProductNodes(ordinal, ids)[1].resultId]
         == Relinearized(EvalMultNoRelin(
              st.ciphertexts[ids.valueId], st.ciphertexts[ids.queryId], env.rowSize, env.modulus))
    ensures end.returned == st.returned
  {
    hide Reaches, Ordinal;
    var nodes := ProductNodes(ordinal, ids);
    var first, second := nodes[0], nodes[1];
    assert nodes == [first] + [second] && nodes[1..] == [second];
    var mid := TakeMultiply(env, st, first.resultId, ids.valueId, ids.queryId);
    DefinesAdds(st, mid, first, mid.ciphertexts[first.resultId]);
    end := TakeRelinearize(env, mid, second.resultId, first.resultId);
    DefinesAdds(mid, end, second, end.ciphertexts[second.resultId]);
    ReachesAppend(env, st, [first], mid, [second], end);
    AddsAppend(st, mid, end, [first], [second]);
  }

  // ----- the rungs -----

  function Reduced(
    ordinal: nat, accumulated: Ciphertext, source: Ciphertext, rotations: seq<nat>, n: nat, p: Positive): Ciphertext
  {
    if ordinal < BASE_OPERANDS then
      Ciphertext(
        Packed(Star(accumulated.lanes.first, source.lanes.first, rotations, n, p),
               Star(accumulated.lanes.second, source.lanes.second, rotations, n, p)),
        accumulated.elements)
    else LadderOf(accumulated, rotations, n, p)
  }

  function OneRung(ordinal: nat, accumulated: Ciphertext, source: Ciphertext, r: nat, n: nat, p: Positive): Ciphertext {
    EvalAdd(accumulated, EvalRotate(if ordinal < BASE_OPERANDS then source else accumulated, r, n), n, p)
  }

  lemma {:induction false} ReducedUnfolds(
    ordinal: nat, accumulated: Ciphertext, source: Ciphertext, rotations: seq<nat>, n: nat, p: Positive)
    requires accumulated.elements == 2 == source.elements
    ensures rotations == [] ==> Reduced(ordinal, accumulated, source, rotations, n, p) == accumulated
    ensures rotations != [] ==>
      Reduced(ordinal, accumulated, source, rotations, n, p)
      == Reduced(ordinal, OneRung(ordinal, accumulated, source, rotations[0], n, p), source, rotations[1..], n, p)
  {
    hide AddRows, RotateRow;
  }

  lemma {:induction false} ReplayRung(
    env: Env, st: State, ordinal: nat, source: string, accumulated: string, r: nat, k: nat)
    returns (end: State)
    requires Closed(st) && LabelFits(ordinal) && LabelFits(r) && LabelFits(SumNumber(ordinal, k, r))
    requires TwoElements(st, source) && TwoElements(st, accumulated) && Provisioned(env, [r])
    requires FreshFrom(st.ciphertexts.Keys, RungAt(ordinal, source, accumulated, r, k))
    ensures Reaches(env, st, RungAt(ordinal, source, accumulated, r, k), end)
    ensures Adds(st, end, RungAt(ordinal, source, accumulated, r, k)) && end.returned == st.returned
    ensures RotateLabel(ordinal, r) in end.ciphertexts
    ensures end.ciphertexts[RotateLabel(ordinal, r)] == EvalRotate(
      st.ciphertexts[if ordinal < BASE_OPERANDS then source else accumulated], r, env.rowSize)
    ensures SumLabel(ordinal, k, r) in end.ciphertexts
    ensures end.ciphertexts[SumLabel(ordinal, k, r)]
         == OneRung(ordinal, st.ciphertexts[accumulated], st.ciphertexts[source], r, env.rowSize, env.modulus)
  {
    hide Reaches, SumLabel, RotateLabel, AddRows, RotateRow;
    var nodes := RungAt(ordinal, source, accumulated, r, k);
    var first, second := nodes[0], nodes[1];
    assert nodes == [first] + [second] && nodes[1..] == [second];
    assert r in [r];
    var rotated := if ordinal < BASE_OPERANDS then source else accumulated;
    var mid := TakeRotate(env, st, first.resultId, rotated, r);
    DefinesAdds(st, mid, first, mid.ciphertexts[first.resultId]);
    end := TakeAdd(env, mid, second.resultId, accumulated, first.resultId);
    DefinesAdds(mid, end, second, end.ciphertexts[second.resultId]);
    ReachesAppend(env, st, [first], mid, [second], end);
    AddsAppend(st, mid, end, [first], [second]);
  }

  lemma {:induction false} ReplayRungs(
    env: Env, st: State, ordinal: nat, source: string, accumulated: string, rotations: seq<nat>, k: nat)
    returns (end: State)
    requires Closed(st) && LabelsFit(ordinal, rotations, k) && Provisioned(env, rotations)
    requires TwoElements(st, source) && TwoElements(st, accumulated)
    requires FreshFrom(st.ciphertexts.Keys, RungNodes(ordinal, source, accumulated, rotations, k))
    ensures Reaches(env, st, RungNodes(ordinal, source, accumulated, rotations, k), end)
    ensures Adds(st, end, RungNodes(ordinal, source, accumulated, rotations, k)) && end.returned == st.returned
    ensures LastSum(ordinal, accumulated, rotations, k) in end.ciphertexts
    ensures end.ciphertexts[LastSum(ordinal, accumulated, rotations, k)]
         == Reduced(ordinal, st.ciphertexts[accumulated], st.ciphertexts[source], rotations, env.rowSize, env.modulus)
    decreases |rotations|
  {
    hide Reaches, SumLabel, RotateLabel, RungAt, Reduced, OneRung, RungNodes, FreshFrom, IdsOf;
    ReducedUnfolds(
      ordinal, st.ciphertexts[accumulated], st.ciphertexts[source], rotations, env.rowSize, env.modulus);
    if rotations == [] {
      NoRung(ordinal, source, accumulated, k);
      ReachesNothing(env, st);
      end := st;
    } else {
      var r, rest := rotations[0], rotations[1..];
      var sum := SumLabel(ordinal, k, r);
      UnfoldRungs(ordinal, source, accumulated, rotations, k);
      FreshAppend(st.ciphertexts.Keys, RungAt(ordinal, source, accumulated, r, k), RungNodes(ordinal, source, sum, rest, k + 1));
      var mid := ReplayRung(env, st, ordinal, source, accumulated, r, k);
      RungElements(ordinal, st.ciphertexts[accumulated], st.ciphertexts[source], r, env.rowSize, env.modulus);
      end := ReplayRungs(env, mid, ordinal, source, sum, rest, k + 1);
      ReachesAppend(env, st, RungAt(ordinal, source, accumulated, r, k), mid,
                    RungNodes(ordinal, source, sum, rest, k + 1), end);
      AddsAppend(st, mid, end, RungAt(ordinal, source, accumulated, r, k), RungNodes(ordinal, source, sum, rest, k + 1));
      RestLast(ordinal, accumulated, sum, rotations, k);
    }
  }

  lemma {:induction false} NoRung(ordinal: nat, source: string, accumulated: string, k: nat)
    requires LabelFits(ordinal)
    ensures RungNodes(ordinal, source, accumulated, [], k) == [] && LastSum(ordinal, accumulated, [], k) == accumulated
    ensures IdsOf([]) == {}
  {
  }

  lemma {:induction false} RungElements(
    ordinal: nat, accumulated: Ciphertext, source: Ciphertext, r: nat, n: nat, p: Positive)
    requires accumulated.elements == 2 == source.elements
    ensures OneRung(ordinal, accumulated, source, r, n, p).elements == 2
  {
  }

  // ----- selection, mask and return -----

  lemma {:induction false} ReplayMasked(
    env: Env, st: State, ordinal: nat, ids: OperandIds, accumulated: string)
    returns (end: State)
    requires Closed(st) && LabelFits(ordinal) && TwoElements(st, accumulated) && TwoElements(st, ids.f1mId)
    requires "pt-selection-" + Ordinal(ordinal) in env.masks
    requires FreshFrom(st.ciphertexts.Keys, MaskedNodes(ordinal, ids, accumulated))
    ensures Reaches(env, st, MaskedNodes(ordinal, ids, accumulated), end)
    ensures Adds(st, end, MaskedNodes(ordinal, ids, accumulated))
    ensures end.returned == st.returned + [ids.resultId] && ids.resultId in end.ciphertexts
    ensures {"ssa-selected-" + Ordinal(ordinal), "ssa-masked-" + Ordinal(ordinal)} <= end.ciphertexts.Keys
    ensures end.ciphertexts["ssa-selected-" + Ordinal(ordinal)] == EvalMultPlain(
      st.ciphertexts[accumulated], env.masks["pt-selection-" + Ordinal(ordinal)], env.rowSize, env.modulus)
    ensures end.ciphertexts["ssa-masked-" + Ordinal(ordinal)] == end.ciphertexts[ids.resultId]
    ensures end.ciphertexts[ids.resultId] == EvalAdd(
      EvalMultPlain(st.ciphertexts[accumulated], env.masks["pt-selection-" + Ordinal(ordinal)], env.rowSize, env.modulus),
      st.ciphertexts[ids.f1mId], env.rowSize, env.modulus)
  {
    hide Reaches, Ordinal, AddRows, MulRows, FreshFrom, IdsOf;
    var nodes := MaskedNodes(ordinal, ids, accumulated);
    var a, b, c := nodes[0], nodes[1], nodes[2];
    assert nodes == [a] + [b] + [c] && nodes[1..] == [b] + [c] && ([b] + [c])[1..] == [c];
    FreshAppend(st.ciphertexts.Keys, [a] + [b], [c]);
    FreshAppend(st.ciphertexts.Keys, [a], [b]);
    IdsAppend([a], [b]);
    OneFresh(st.ciphertexts.Keys, a);
    OneFresh(st.ciphertexts.Keys + IdsOf([a]), b);
    OneFresh(st.ciphertexts.Keys + IdsOf([a] + [b]), c);
    var selected := TakeSelect(env, st, a.resultId, accumulated, "pt-selection-" + Ordinal(ordinal));
    DefinesAdds(st, selected, a, selected.ciphertexts[a.resultId]);
    var masked := TakeBlind(env, selected, b.resultId, a.resultId, ids.f1mId);
    DefinesAdds(selected, masked, b, masked.ciphertexts[b.resultId]);
    end := TakeReturn(env, masked, c.resultId, b.resultId);
    DefinesAdds(masked, end, c, end.ciphertexts[c.resultId]);
    ReachesAppend(env, st, [a], selected, [b], masked);
    ReachesAppend(env, st, [a] + [b], masked, [c], end);
    AddsAppend(st, selected, masked, [a], [b]);
    AddsAppend(st, masked, end, [a] + [b], [c]);
  }

  // ----- the whole trace -----

  // The trace with new identifiers runs to the end and returns, under the result
  // id, the ciphertext of the hand-executed operand.
  lemma {:induction false} OperandReplays(
    env: Env, st: State, ordinal: nat, ids: OperandIds, values: seq<int>, aligned: seq<int>, f1mValues: seq<int>,
    rotations: seq<nat>, leaders: seq<nat>)
    returns (end: State)
    requires Closed(st) && LabelsFit(ordinal, rotations, 0) && Provisioned(env, rotations)
    requires {ids.valueId, ids.queryId, ids.f1mId} <= st.ciphertexts.Keys
    requires st.ciphertexts[ids.valueId] == Encrypt(values, env.rowSize, env.modulus)
    requires st.ciphertexts[ids.queryId] == Encrypt(aligned, env.rowSize, env.modulus)
    requires st.ciphertexts[ids.f1mId] == Encrypt(f1mValues, env.rowSize, env.modulus)
    requires "pt-selection-" + Ordinal(ordinal) in env.masks
    requires env.masks["pt-selection-" + Ordinal(ordinal)] == Pack(Selection(leaders, 2 * env.rowSize), env.rowSize)
    requires FreshFrom(st.ciphertexts.Keys, OperandNodes(ordinal, ids, rotations))
    ensures Reaches(env, st, OperandNodes(ordinal, ids, rotations), end)
    ensures Adds(st, end, OperandNodes(ordinal, ids, rotations))
    ensures end.returned == st.returned + [ids.resultId] && ids.resultId in end.ciphertexts
    ensures end.ciphertexts[ids.resultId] == EvalAdd(
      EvalMultPlain(
        ReducedOperand(ordinal, OperandProduct(values, aligned, env.rowSize, env.modulus), rotations, env.rowSize, env.modulus),
        Pack(Selection(leaders, 2 * env.rowSize), env.rowSize), env.rowSize, env.modulus),
      Encrypt(f1mValues, env.rowSize, env.modulus), env.rowSize, env.modulus)
  {
    hide Reaches, Ordinal, Encrypt, Run, RungNodes, MaskedNodes, FreshFrom, IdsOf, LastSum, EvalAdd, EvalMultPlain,
      EvalMultNoRelin, Pack, Selection, Star, LadderOf;
    var n, p := env.rowSize, env.modulus;
    var first := ProductNodes(ordinal, ids);
    var relinearized := "ssa-relinearized-" + Ordinal(ordinal);
    var rungs := RungNodes(ordinal, relinearized, relinearized, rotations, 0);
    var last := LastSum(ordinal, relinearized, rotations, 0);
    var rest := MaskedNodes(ordinal, ids, last);
    EncryptedElements(values, n, p);
    EncryptedElements(aligned, n, p);
    EncryptedElements(f1mValues, n, p);
    FreshAppend(st.ciphertexts.Keys, first + rungs, rest);
    FreshAppend(st.ciphertexts.Keys, first, rungs);
    IdsAppend(first, rungs);
    var mid := ReplayProduct(env, st, ordinal, ids);
    assert st.ciphertexts.Keys + (IdsOf(first) + IdsOf(rungs)) == mid.ciphertexts.Keys + IdsOf(rungs);
    var reduced := ReplayRungs(env, mid, ordinal, relinearized, relinearized, rotations, 0);
    ReducedElements(ordinal, mid.ciphertexts[relinearized], rotations, n, p);
    end := ReplayMasked(env, reduced, ordinal, ids, last);
    ReachesAppend(env, st, first, mid, rungs, reduced);
    ReachesAppend(env, st, first + rungs, reduced, rest, end);
    AddsAppend(st, mid, reduced, first, rungs);
    AddsAppend(st, reduced, end, first + rungs, rest);
  }

  lemma {:induction false} ReducedElements(ordinal: nat, source: Ciphertext, rotations: seq<nat>, n: nat, p: Positive)
    ensures Reduced(ordinal, source, source, rotations, n, p) == ReducedOperand(ordinal, source, rotations, n, p)
    ensures ReducedOperand(ordinal, source, rotations, n, p).elements == source.elements
  {
  }
}
