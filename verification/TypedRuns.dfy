// Runs in which every operation finds operands with the element counts the
// library intends, composed from single nodes.
module TypedRuns {
  import opened Lanes
  import opened Outcomes
  import opened CloudProgram

  // The identifier set and the ciphertext table agree.
  ghost predicate Closed(st: State) { st.identifiers == st.ciphertexts.Keys }

  predicate TwoElements(st: State, id: string) {
    id in st.ciphertexts && st.ciphertexts[id].elements == 2
  }

  // The element counts at which each operation is used as the library intends.
  predicate OperandsTyped(st: State, node: Node) {
    match node
    case MultiplyCiphertexts(_, left, right) => TwoElements(st, left) && TwoElements(st, right)
    case Relinearize(_, source) => source in st.ciphertexts && st.ciphertexts[source].elements > 2
    case Rotate(_, source, _, _) => TwoElements(st, source)
    case MultiplyPlaintextMask(_, source, _) => TwoElements(st, source)
    case AddCiphertexts(_, left, right) => TwoElements(st, left) && TwoElements(st, right)
    case AddF1MMask(_, source, mask, _) => TwoElements(st, source) && TwoElements(st, mask)
    case ReturnResult(_, source) => TwoElements(st, source)
  }

  // The run succeeds in `end`, and every node on the way finds its operands typed.
  ghost predicate Reaches(env: Env, st: State, nodes: seq<Node>, end: State)
    decreases |nodes|
  {
    if nodes == [] then st == end
    else
      var next := Step(env, st, nodes[0]);
      OperandsTyped(st, nodes[0]) && next.Success? && Reaches(env, next.value, nodes[1..], end)
  }

  lemma {:induction false} ReachesIsRun(env: Env, st: State, nodes: seq<Node>, end: State)
    requires Reaches(env, st, nodes, end)
    ensures Run(env, st, nodes) == Success(end)
    decreases |nodes|
  {
    if nodes != [] {
      ReachesIsRun(env, Step(env, st, nodes[0]).value, nodes[1..], end);
    }
  }

  lemma {:induction false} ReachesAppend(
    env: Env, st: State, a: seq<Node>, mid: State, b: seq<Node>, end: State)
    requires Reaches(env, st, a, mid) && Reaches(env, mid, b, end)
    ensures Reaches(env, st, a + b, end)
    decreases |a|
  {
    if a == [] {
      assert a + b == b;
    } else {
      assert (a + b)[1..] == a[1..] + b;
      ReachesAppend(env, Step(env, st, a[0]).value, a[1..], mid, b, end);
    }
  }

  lemma {:induction false} ReachesNothing(env: Env, st: State)
    ensures Reaches(env, st, [], st)
  {
  }

  // `end` is `st` with one more definition.
  ghost predicate Defines(st: State, end: State, id: string, c: Ciphertext) {
    Closed(end) && end.ciphertexts == st.ciphertexts[id := c]
  }

  // One typed node with a new identifier.
  lemma {:induction false} TakeStep(env: Env, st: State, node: Node, c: Ciphertext) returns (end: State)
    requires Closed(st) && OperandsTyped(st, node) && Evaluate(env, st.ciphertexts, node) == Success(c)
    requires PrintableIdentifier(node.resultId) && node.resultId !in st.ciphertexts
    ensures Reaches(env, st, [node], end) && Defines(st, end, node.resultId, c)
    ensures end.returned == if node.ReturnResult? then st.returned + [node.resultId] else st.returned
    ensures end.counts == Count(st.counts, node)
  {
    end := Step(env, st, node).value;
    assert [node][1..] == [];
  }

  lemma {:induction false} TakeMultiply(env: Env, st: State, id: string, left: string, right: string) returns (end: State)
    requires Closed(st) && PrintableIdentifier(id) && id !in st.ciphertexts
    requires TwoElements(st, left) && TwoElements(st, right)
    ensures Reaches(env, st, [MultiplyCiphertexts(id, left, right)], end)
    ensures Defines(st, end, id,
              EvalMultNoRelin(st.ciphertexts[left], st.ciphertexts[right], env.rowSize, env.modulus))
    ensures end.returned == st.returned
    ensures end.counts == st.counts.(multiplyCiphertexts := st.counts.multiplyCiphertexts + 1)
  {
    end := TakeStep(env, st, MultiplyCiphertexts(id, left, right),
      EvalMultNoRelin(st.ciphertexts[left], st.ciphertexts[right], env.rowSize, env.modulus));
  }

  lemma {:induction false} TakeRelinearize(env: Env, st: State, id: string, source: string) returns (end: State)
    requires Closed(st) && PrintableIdentifier(id) && id !in st.ciphertexts
    requires source in st.ciphertexts && st.ciphertexts[source].elements > 2
    ensures Reaches(env, st, [Relinearize(id, source)], end)
    ensures Defines(st, end, id, Relinearized(st.ciphertexts[source]))
    ensures end.returned == st.returned
    ensures end.counts == st.counts.(relinearize := st.counts.relinearize + 1)
  {
    end := TakeStep(env, st, Relinearize(id, source), Relinearized(st.ciphertexts[source]));
  }

  lemma {:induction false} TakeRotate(env: Env, st: State, id: string, source: string, r: int) returns (end: State)
    requires Closed(st) && PrintableIdentifier(id) && id !in st.ciphertexts
    requires TwoElements(st, source)
    requires r in env.rotations && env.rotations[r] == r && r in env.keys && InInt32(r)
    ensures Reaches(env, st, [Rotate(id, source, r, r)], end)
    ensures Defines(st, end, id, EvalRotate(st.ciphertexts[source], r, env.rowSize))
    ensures end.returned == st.returned
    ensures end.counts == st.counts.(evalRotate := st.counts.evalRotate + 1)
  {
    end := TakeStep(env, st, Rotate(id, source, r, r), EvalRotate(st.ciphertexts[source], r, env.rowSize));
  }

  lemma {:induction false} TakeAdd(env: Env, st: State, id: string, left: string, right: string) returns (end: State)
    requires Closed(st) && PrintableIdentifier(id) && id !in st.ciphertexts
    requires TwoElements(st, left) && TwoElements(st, right)
    ensures Reaches(env, st, [AddCiphertexts(id, left, right)], end)
    ensures Defines(st, end, id, EvalAdd(st.ciphertexts[left], st.ciphertexts[right], env.rowSize, env.modulus))
    ensures end.returned == st.returned
    ensures end.counts == st.counts.(evalAddCiphertext := st.counts.evalAddCiphertext + 1)
  {
    end := TakeStep(env, st, AddCiphertexts(id, left, right),
      EvalAdd(st.ciphertexts[left], st.ciphertexts[right], env.rowSize, env.modulus));
  }

  lemma {:induction false} TakeSelect(env: Env, st: State, id: string, source: string, maskId: string) returns (end: State)
    requires Closed(st) && PrintableIdentifier(id) && id !in st.ciphertexts
    requires TwoElements(st, source) && maskId in env.masks
    ensures Reaches(env, st, [MultiplyPlaintextMask(id, source, maskId)], end)
    ensures Defines(st, end, id,
              EvalMultPlain(st.ciphertexts[source], env.masks[maskId], env.rowSize, env.modulus))
    ensures end.returned == st.returned
    ensures end.counts == st.counts.(evalMultPlaintextMask := st.counts.evalMultPlaintextMask + 1)
  {
    end := TakeStep(env, st, MultiplyPlaintextMask(id, source, maskId),
      EvalMultPlain(st.ciphertexts[source], env.masks[maskId], env.rowSize, env.modulus));
  }

  lemma {:induction false} TakeBlind(env: Env, st: State, id: string, source: string, mask: string) returns (end: State)
    requires Closed(st) && PrintableIdentifier(id) && id !in st.ciphertexts
    requires TwoElements(st, source) && TwoElements(st, mask)
    ensures Reaches(env, st, [AddF1MMask(id, source, mask, OPAQUE_ZERO_SUM)], end)
    ensures Defines(st, end, id, EvalAdd(st.ciphertexts[source], st.ciphertexts[mask], env.rowSize, env.modulus))
    ensures end.returned == st.returned
    ensures end.counts == st.counts.(addF1MMask := st.counts.addF1MMask + 1)
  {
    end := TakeStep(env, st, AddF1MMask(id, source, mask, OPAQUE_ZERO_SUM),
      EvalAdd(st.ciphertexts[source], st.ciphertexts[mask], env.rowSize, env.modulus));
  }

  lemma {:induction false} TakeReturn(env: Env, st: State, id: string, source: string) returns (end: State)
    requires Closed(st) && PrintableIdentifier(id) && id !in st.ciphertexts
    requires TwoElements(st, source)
    ensures Reaches(env, st, [ReturnResult(id, source)], end)
    ensures Defines(st, end, id, st.ciphertexts[source])
    ensures end.returned == st.returned + [id]
    ensures end.counts == st.counts.(returnResult := st.counts.returnResult + 1)
  {
    end := TakeStep(env, st, ReturnResult(id, source), st.ciphertexts[source]);
  }
}
