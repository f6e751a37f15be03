// What running a Cloud program comes to: the cause of every refused node, and, for
// every run that succeeds, a table that solves all equations of the program, with
// the returned ids and the counters read off its nodes.
module RunOutcome {
  import opened Lanes
  import opened Outcomes
  import opened CloudProgram

  // ----- why a node is refused -----

  // The ciphertexts a node reads.
  function CiphertextsRead(node: Node): set<string> {
    match node
    case MultiplyCiphertexts(_, left, right) => {left, right}
    case Relinearize(_, source) => {source}
    case Rotate(_, source, _, _) => {source}
    case MultiplyPlaintextMask(_, source, _) => {source}
    case AddCiphertexts(_, left, right) => {left, right}
    case AddF1MMask(_, source, mask, _) => {source, mask}
    case ReturnResult(_, source) => {source}
  }

  predicate BadRotation(env: Env, node: Node) {
    node.Rotate? && !(node.logicalShift in env.rotations
      && env.rotations[node.logicalShift] == node.openfheIndex && InInt32(node.openfheIndex))
  }

  predicate BadMask(env: Env, node: Node) { node.MultiplyPlaintextMask? && node.maskId !in env.masks }

  predicate BadRole(node: Node) { node.AddF1MMask? && node.maskRole != "opaque-zero-sum" }

  // A product that stays within two elements, or a relinearisation of so few.
  predicate TooFewElements(cts: map<string, Ciphertext>, node: Node)
    requires CiphertextsRead(node) <= cts.Keys
  {
    || (node.MultiplyCiphertexts? && cts[node.leftId].elements + cts[node.rightId].elements <= 3)
    || (node.Relinearize? && cts[node.ciphertextId].elements <= 2)
  }

  // Every cause is given in exactly the case it names; the catalog, mask and role
  // checks come before the operands, the others after.
  lemma {:induction false} StepOutcome(env: Env, st: State, node: Node)
    ensures var r := Step(env, st, node);
      var early := BadRotation(env, node) || BadMask(env, node) || BadRole(node);
      var defined := CiphertextsRead(node) <= st.ciphertexts.Keys;
      var few := defined && TooFewElements(st.ciphertexts, node);
      var keyless := node.Rotate? && node.openfheIndex !in env.keys;
      var id := node.resultId;
      var taken := !PrintableIdentifier(id) || id in st.identifiers || id in st.ciphertexts;
      && (r == Failure(RotationOutsideCatalog) <==> BadRotation(env, node))
      && (r == Failure(UndefinedMask) <==> BadMask(env, node))
      && (r == Failure(MaskRoleChanged) <==> BadRole(node))
      && (r == Failure(UndefinedCiphertext) <==> !early && !defined)
      && (r == Failure(NotUnrelinearized) <==> few)
      && (r == Failure(MissingRotationKey) <==> !early && defined && keyless)
      && (r == Failure(SsaIdentity) <==> !early && defined && !few && !keyless && taken)
      && (r.Success? <==> !early && defined && !few && !keyless && !taken)
  {
    hide AddRows, MulRows, RotateRow, PrintableIdentifier, InInt32;
  }

  // ----- a run solves its program -----

  // The table holds under the node's id what the node computes from the table.
  predicate Solves(env: Env, cts: map<string, Ciphertext>, node: Node) {
    var n, p := env.rowSize, env.modulus;
    && CiphertextsRead(node) <= cts.Keys && node.resultId in cts
    && match node
       case MultiplyCiphertexts(id, left, right) => cts[id] == EvalMultNoRelin(cts[left], cts[right], n, p)
       case Relinearize(id, source) => cts[id] == Relinearized(cts[source])
       case Rotate(id, source, _, index) => cts[id] == EvalRotate(cts[source], index, n)
       case MultiplyPlaintextMask(id, source, mask) =>
         mask in env.masks && cts[id] == EvalMultPlain(cts[source], env.masks[mask], n, p)
       case AddCiphertexts(id, left, right) => cts[id] == EvalAdd(cts[left], cts[right], n, p)
       case AddF1MMask(id, source, mask, _) => cts[id] == EvalAdd(cts[source], cts[mask], n, p)
       case ReturnResult(id, source) => cts[id] == cts[source]
  }

  // The second table has all of the first.
  ghost predicate ExtendsTable(cts: map<string, Ciphertext>, more: map<string, Ciphertext>) {
    forall id | id in cts :: id in more && more[id] == cts[id]
  }

  ghost function ResultsOf(nodes: seq<Node>): set<string> { set node | node in nodes :: node.resultId }

  lemma {:induction false} StepSolves(env: Env, st: State, node: Node)
    requires Step(env, st, node).Success?
    ensures var cts := Step(env, st, node).value.ciphertexts;
      && Solves(env, cts, node) && ExtendsTable(st.ciphertexts, cts) && node.resultId !in st.ciphertexts
      && cts.Keys == st.ciphertexts.Keys + {node.resultId} && CiphertextsRead(node) <= st.ciphertexts.Keys
  {
    StepOutcome(env, st, node);
    hide AddRows, MulRows, RotateRow, PrintableIdentifier, InInt32;
  }

  lemma {:induction false} StillSolves(
    env: Env, cts: map<string, Ciphertext>, more: map<string, Ciphertext>, node: Node)
    requires Solves(env, cts, node) && ExtendsTable(cts, more)
    ensures Solves(env, more, node)
  {
    hide AddRows, MulRows, RotateRow;
  }

  lemma {:induction false} RunUnfolds(env: Env, st: State, nodes: seq<Node>)
    requires Run(env, st, nodes).Success? && nodes != []
    ensures Step(env, st, nodes[0]).Success?
    ensures Run(env, Step(env, st, nodes[0]).value, nodes[1..]) == Run(env, st, nodes)
  {
  }

  lemma {:induction false} RunDefines(env: Env, st: State, nodes: seq<Node>)
    requires Run(env, st, nodes).Success?
    ensures var cts := Run(env, st, nodes).value.ciphertexts;
      ExtendsTable(st.ciphertexts, cts) && cts.Keys == st.ciphertexts.Keys + ResultsOf(nodes)
    ensures forall k | 0 <= k < |nodes| :: nodes[k].resultId !in st.ciphertexts
    ensures forall j, k | 0 <= j < k < |nodes| :: nodes[j].resultId != nodes[k].resultId
    decreases |nodes|
  {
    if nodes == [] {
      assert ResultsOf(nodes) == {};
    } else {
      hide Step, Solves, Run;
      var first, rest := nodes[0], nodes[1..];
      RunUnfolds(env, st, nodes);
      StepSolves(env, st, first);
      RunDefines(env, Step(env, st, first).value, rest);
      assert nodes == [first] + rest;
      assert ResultsOf(nodes) == {first.resultId} + ResultsOf(rest);
    }
  }

  // Every run that succeeds defines exactly the ids of its nodes, all of them new
  // and different, keeps what was there, and ends in a table that solves every node.
  lemma {:induction false} RunSolves(env: Env, st: State, nodes: seq<Node>)
    requires Run(env, st, nodes).Success?
    ensures var cts := Run(env, st, nodes).value.ciphertexts;
      && ExtendsTable(st.ciphertexts, cts) && cts.Keys == st.ciphertexts.Keys + ResultsOf(nodes)
      && (forall k | 0 <= k < |nodes| :: Solves(env, cts, nodes[k]))
    ensures forall k | 0 <= k < |nodes| :: nodes[k].resultId !in st.ciphertexts
    ensures forall j, k | 0 <= j < k < |nodes| :: nodes[j].resultId != nodes[k].resultId
    decreases |nodes|
  {
    hide Step, Solves, Run, ResultsOf;
    RunDefines(env, st, nodes);
    if nodes != [] {
      hide ExtendsTable;
      var first, rest := nodes[0], nodes[1..];
      RunUnfolds(env, st, nodes);
      var mid := Step(env, st, first).value;
      StepSolves(env, st, first);
      RunSolves(env, mid, rest);
      StillSolves(env, mid.ciphertexts, Run(env, st, nodes).value.ciphertexts, first);
      assert nodes == [first] + rest;
    }
  }

  // And it is the only such table: any other that has the inputs and solves every
  // node has all of it.
  lemma {:induction false} OnlySolution(env: Env, st: State, nodes: seq<Node>, cts: map<string, Ciphertext>)
    requires Run(env, st, nodes).Success? && ExtendsTable(st.ciphertexts, cts)
    requires forall k | 0 <= k < |nodes| :: Solves(env, cts, nodes[k])
    ensures ExtendsTable(Run(env, st, nodes).value.ciphertexts, cts)
    decreases |nodes|
  {
    hide Step, Solves;
    if nodes != [] {
      var mid := Step(env, st, nodes[0]).value;
      StepSolves(env, st, nodes[0]);
      SameSolution(env, st.ciphertexts, mid.ciphertexts, cts, nodes[0]);
      OnlySolution(env, mid, nodes[1..], cts);
    }
  }

  lemma {:induction false} SameSolution(
    env: Env, before: map<string, Ciphertext>, after: map<string, Ciphertext>, cts: map<string, Ciphertext>, node: Node)
    requires ExtendsTable(before, after) && ExtendsTable(before, cts) && CiphertextsRead(node) <= before.Keys
    requires after.Keys == before.Keys + {node.resultId} && Solves(env, after, node) && Solves(env, cts, node)
    ensures ExtendsTable(after, cts)
  {
    hide AddRows, MulRows, RotateRow;
  }

  // ----- what a run returns and counts -----

  ghost function NodesThat(nodes: seq<Node>, kind: Node -> bool): set<nat> {
    set k: nat | k < |nodes| && kind(nodes[k])
  }

  ghost function Tally(nodes: seq<Node>): Counts {
    Counts(
      |NodesThat(nodes, (node: Node) => node.AddF1MMask?)|, |NodesThat(nodes, (node: Node) => node.AddCiphertexts?)|,
      |NodesThat(nodes, (node: Node) => node.MultiplyPlaintextMask?)|,
      |NodesThat(nodes, (node: Node) => node.MultiplyCiphertexts?)|, |NodesThat(nodes, (node: Node) => node.Rotate?)|,
      |NodesThat(nodes, (node: Node) => node.Relinearize?)|, |NodesThat(nodes, (node: Node) => node.ReturnResult?)|)
  }

  lemma {:induction false} OneMoreOfKind(nodes: seq<Node>, kind: Node -> bool)
    requires nodes != []
    ensures var n := |nodes| - 1;
      |NodesThat(nodes, kind)| == |NodesThat(nodes[..n], kind)| + if kind(nodes[n]) then 1 else 0
  {
    var n := |nodes| - 1;
    assert NodesThat(nodes, kind) == NodesThat(nodes[..n], kind) + if kind(nodes[n]) then {n} else {};
  }

  // After every run that succeeds each counter is the number of nodes of its kind.
  lemma {:induction false} RunTallies(env: Env, st: State, nodes: seq<Node>)
    requires Run(env, st, nodes).Success? && st.counts == NO_OPERATIONS
    ensures Run(env, st, nodes).value.counts == Tally(nodes)
    decreases |nodes|
  {
    if nodes == [] {
      assert forall kind: Node -> bool :: NodesThat(nodes, kind) == {};
    } else {
      hide Run, Count, NodesThat;
      var n := |nodes| - 1;
      var init, last := nodes[..n], nodes[n];
      assert nodes == init + [last];
      RunAppend(env, st, init, [last]);
      RunTallies(env, st, init);
      StepCounts(env, Run(env, st, init).value, last);
      TallyOfOneMore(nodes);
    }
  }

  lemma {:induction false} TallyOfOneMore(nodes: seq<Node>)
    requires nodes != []
    ensures Tally(nodes) == Count(Tally(nodes[..|nodes| - 1]), nodes[|nodes| - 1])
  {
    hide NodesThat;
    OneMoreOfKind(nodes, (node: Node) => node.AddF1MMask?);
    OneMoreOfKind(nodes, (node: Node) => node.AddCiphertexts?);
    OneMoreOfKind(nodes, (node: Node) => node.MultiplyPlaintextMask?);
    OneMoreOfKind(nodes, (node: Node) => node.MultiplyCiphertexts?);
    OneMoreOfKind(nodes, (node: Node) => node.Rotate?);
    OneMoreOfKind(nodes, (node: Node) => node.Relinearize?);
    OneMoreOfKind(nodes, (node: Node) => node.ReturnResult?);
  }

  lemma {:induction false} StepCounts(env: Env, st: State, node: Node)
    requires Run(env, st, [node]).Success?
    ensures Run(env, st, [node]).value.counts == Count(st.counts, node)
  {
    hide Evaluate, PrintableIdentifier;
    assert [node][1..] == [];
  }
}
