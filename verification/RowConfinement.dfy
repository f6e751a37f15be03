// Confinement of results to the declared lanes: what every accepted program
// keeps, and when the runner's escape check cannot fire.
module RowConfinement {
  import opened Modular
  import opened Lanes
  import opened CloudProgram
  import opened Outcomes
  import opened Request

  // ----- the second batch row -----

  predicate SecondRowZero(c: Ciphertext) {
    AllZero(c.lanes.second)
  }

  ghost predicate SecondRowsZero(cts: map<string, Ciphertext>) {
    forall id | id in cts :: SecondRowZero(cts[id])
  }

  lemma {:induction false} ZeroModulo(p: Positive)
    ensures 0 % p == 0
  {
    ModSmall(0, p);
  }

  lemma {:induction false} ZeroRows(a: seq<int>, b: seq<int>, k: int, n: nat, p: Positive)
    ensures AllZero(a) && AllZero(b) ==> AllZero(AddRows(a, b, n, p))
    ensures AllZero(a) || AllZero(b) ==> AllZero(MulRows(a, b, n, p))
    ensures AllZero(a) ==> AllZero(RotateRow(a, k, n))
  {
    ZeroModulo(p);
    if AllZero(a) || AllZero(b) {
      forall i | 0 <= i < n ensures At(a, i) * At(b, i) == 0 {
        assert At(a, i) == 0 || At(b, i) == 0;
      }
    }
  }

  // The second rows of the operands of a node.
  lemma {:induction false} EvaluateKeepsSecondRow(env: Env, cts: map<string, Ciphertext>, node: Node)
    requires SecondRowsZero(cts)
    ensures var r := Evaluate(env, cts, node); r.Success? ==> SecondRowZero(r.value)
  {
    hide AddRows, MulRows, RotateRow;
    var n, p := env.rowSize, env.modulus;
    if Evaluate(env, cts, node).Success? {
      match node
      case MultiplyCiphertexts(_, left, right) =>
        ZeroRows(cts[left].lanes.second, cts[right].lanes.second, 0, n, p);
      case Relinearize(_, source) => assert SecondRowZero(cts[source]);
      case Rotate(_, source, _, index) =>
        ZeroRows(cts[source].lanes.second, [], index, n, p);
      case MultiplyPlaintextMask(_, source, maskId) =>
        ZeroRows(cts[source].lanes.second, env.masks[maskId].second, 0, n, p);
      case AddCiphertexts(_, left, right) =>
        ZeroRows(cts[left].lanes.second, cts[right].lanes.second, 0, n, p);
      case AddF1MMask(_, source, mask, _) =>
        ZeroRows(cts[source].lanes.second, cts[mask].lanes.second, 0, n, p);
      case ReturnResult(_, source) => assert SecondRowZero(cts[source]);
    }
  }

  // Every accepted program keeps the second batch row zero in every SSA value.
  lemma {:induction false} RunKeepsSecondRow(env: Env, st: State, nodes: seq<Node>)
    requires SecondRowsZero(st.ciphertexts) && Run(env, st, nodes).Success?
    ensures SecondRowsZero(Run(env, st, nodes).value.ciphertexts)
    decreases |nodes|
  {
    if nodes != [] {
      hide Evaluate, SecondRowZero;
      EvaluateKeepsSecondRow(env, st.ciphertexts, nodes[0]);
      RunKeepsSecondRow(env, Step(env, st, nodes[0]).value, nodes[1..]);
    }
  }

  // Every ciphertext of a run keeps the shape of the batch, with residues as lanes.
  ghost predicate AllCanonical(env: Env, cts: map<string, Ciphertext>) {
    forall id | id in cts :: Canonical(cts[id].lanes, env.rowSize, env.modulus)
  }

  lemma {:induction false} RotatedResidues(row: seq<int>, k: int, n: nat, p: Positive)
    requires |row| == n && Residues(row, p)
    ensures Residues(RotateRow(row, k, n), p)
  {
    forall i | 0 <= i < n ensures 0 <= RotateRow(row, k, n)[i] < p {
      var source := (i + k) % n;
      assert 0 <= source < n;
      assert At(row, source) == row[source];
      assert RotateRow(row, k, n)[i] == At(row, source);
    }
  }

  lemma {:induction false} EvaluateKeepsCanonical(env: Env, cts: map<string, Ciphertext>, node: Node)
    requires AllCanonical(env, cts)
    ensures var r := Evaluate(env, cts, node);
      r.Success? ==> Canonical(r.value.lanes, env.rowSize, env.modulus)
  {
    hide RotateRow;
    if node.Rotate? && Evaluate(env, cts, node).Success? {
      var source := cts[node.ciphertextId].lanes;
      RotatedResidues(source.first, node.openfheIndex, env.rowSize, env.modulus);
      RotatedResidues(source.second, node.openfheIndex, env.rowSize, env.modulus);
    }
  }

  lemma {:induction false} RunKeepsCanonical(env: Env, st: State, nodes: seq<Node>)
    requires AllCanonical(env, st.ciphertexts) && Run(env, st, nodes).Success?
    ensures AllCanonical(env, Run(env, st, nodes).value.ciphertexts)
    decreases |nodes|
  {
    if nodes != [] {
      hide Evaluate, Canonical;
      EvaluateKeepsCanonical(env, st.ciphertexts, nodes[0]);
      RunKeepsCanonical(env, Step(env, st, nodes[0]).value, nodes[1..]);
    }
  }

  // ----- lanes at or beyond slot_count -----

  // No lane of the batch at or beyond slotCount holds anything.
  predicate Confined(c: Ciphertext, slotCount: nat) {
    && AllZero(c.lanes.second)
    && forall i | slotCount <= i < |c.lanes.first| :: c.lanes.first[i] == 0
  }

  predicate MaskConfined(mask: Packed, slotCount: nat) {
    && AllZero(mask.second)
    && forall i | slotCount <= i < |mask.first| :: mask.first[i] == 0
  }

  // Static analysis: the identifiers whose lanes stay below slot_count whatever
  // the inputs are. A rotation may move lanes across the boundary.
  predicate Confines(clean: set<string>, node: Node) {
    match node
    case MultiplyCiphertexts(_, left, right) => left in clean || right in clean
    case Relinearize(_, source) => source in clean
    case Rotate(_, _, _, _) => false
    case MultiplyPlaintextMask(_, _, _) => true
    case AddCiphertexts(_, left, right) => left in clean && right in clean
    case AddF1MMask(_, source, mask, _) => source in clean && mask in clean
    case ReturnResult(_, source) => source in clean
  }

  function CleanAfter(clean: set<string>, nodes: seq<Node>): set<string>
    decreases |nodes|
  {
    if nodes == [] then clean
    else CleanAfter(if Confines(clean, nodes[0]) then clean + {nodes[0].resultId} else clean, nodes[1..])
  }

  ghost predicate CleanIsConfined(cts: map<string, Ciphertext>, clean: set<string>, slotCount: nat) {
    forall id | id in cts && id in clean :: Confined(cts[id], slotCount)
  }

  ghost predicate MasksConfined(env: Env, slotCount: nat) {
    forall id | id in env.masks :: MaskConfined(env.masks[id], slotCount)
  }

  lemma {:induction false} EvaluateConfines(
    env: Env, cts: map<string, Ciphertext>, node: Node, clean: set<string>, slotCount: nat)
    requires SecondRowsZero(cts) && CleanIsConfined(cts, clean, slotCount) && MasksConfined(env, slotCount)
    requires Confines(clean, node)
    ensures var r := Evaluate(env, cts, node); r.Success? ==> Confined(r.value, slotCount)
  {
    ZeroModulo(env.modulus);
    EvaluateKeepsSecondRow(env, cts, node);
  }

  lemma {:induction false} RunConfinesClean(
    env: Env, st: State, nodes: seq<Node>, clean: set<string>, slotCount: nat)
    requires SecondRowsZero(st.ciphertexts) && CleanIsConfined(st.ciphertexts, clean, slotCount)
    requires clean <= st.ciphertexts.Keys
    requires MasksConfined(env, slotCount) && Run(env, st, nodes).Success?
    ensures CleanIsConfined(Run(env, st, nodes).value.ciphertexts, CleanAfter(clean, nodes), slotCount)
    decreases |nodes|
  {
    if nodes != [] {
      hide Evaluate, SecondRowZero, Confined, MaskConfined;
      var node := nodes[0];
      var next := Step(env, st, node).value;
      EvaluateKeepsSecondRow(env, st.ciphertexts, node);
      if Confines(clean, node) {
        EvaluateConfines(env, st.ciphertexts, node, clean, slotCount);
        RunConfinesClean(env, next, nodes[1..], clean + {node.resultId}, slotCount);
      } else {
        RunConfinesClean(env, next, nodes[1..], clean, slotCount);
      }
    }
  }

  // ----- programs that return a blinded selection -----

  // Every returned result is an F1-M addition, with an input as mask, to a value
  // selected by a plaintext mask.
  ghost predicate ReturnsBlindedSelections(nodes: seq<Node>, inputs: set<string>) {
    forall k | 0 <= k < |nodes| && nodes[k].ReturnResult? ::
      exists i, j :: 0 <= i < j < k && BlindedSelection(nodes, i, j, nodes[k].ciphertextId, inputs)
  }

  predicate BlindedSelection(nodes: seq<Node>, i: nat, j: nat, source: string, inputs: set<string>)
    requires i < |nodes| && j < |nodes|
  {
    && nodes[i].MultiplyPlaintextMask? && nodes[j].AddF1MMask?
    && nodes[j].ciphertextId == nodes[i].resultId && nodes[j].maskCiphertextId in inputs
    && nodes[j].resultId == source
  }

  lemma {:induction false} CleanGrows(clean: set<string>, nodes: seq<Node>)
    ensures clean <= CleanAfter(clean, nodes)
    decreases |nodes|
  {
    if nodes != [] {
      CleanGrows(if Confines(clean, nodes[0]) then clean + {nodes[0].resultId} else clean, nodes[1..]);
    }
  }

  lemma {:induction false} CleanAppend(clean: set<string>, a: seq<Node>, b: seq<Node>)
    ensures CleanAfter(clean, a + b) == CleanAfter(CleanAfter(clean, a), b)
    decreases |a|
  {
    if a == [] {
      assert a + b == b;
    } else {
      assert (a + b)[1..] == a[1..] + b;
      CleanAppend(if Confines(clean, a[0]) then clean + {a[0].resultId} else clean, a[1..], b);
    }
  }

  // A node that confines, given what is clean before it, has a clean result at the end.
  lemma {:induction false} CleanResult(clean: set<string>, nodes: seq<Node>, k: nat)
    requires k < |nodes| && Confines(CleanAfter(clean, nodes[..k]), nodes[k])
    ensures nodes[k].resultId in CleanAfter(clean, nodes)
    ensures forall l | k < l <= |nodes| :: nodes[k].resultId in CleanAfter(clean, nodes[..l])
  {
    forall l | k < l <= |nodes| ensures nodes[k].resultId in CleanAfter(clean, nodes[..l]) {
      CleanAppend(clean, nodes[..k], nodes[k..l]);
      assert nodes[..k] + nodes[k..l] == nodes[..l];
      assert nodes[k..l][0] == nodes[k];
      CleanGrows(CleanAfter(clean, nodes[..k]) + {nodes[k].resultId}, nodes[k..l][1..]);
    }
    assert nodes[..|nodes|] == nodes;
  }

  lemma {:induction false} InputsStayClean(inputs: set<string>, nodes: seq<Node>, k: nat)
    requires k <= |nodes|
    ensures inputs <= CleanAfter(inputs, nodes[..k])
  {
    CleanGrows(inputs, nodes[..k]);
  }

  lemma {:induction false} BlindedReturnsAreClean(nodes: seq<Node>, inputs: set<string>, k: nat)
    requires ReturnsBlindedSelections(nodes, inputs) && k < |nodes| && nodes[k].ReturnResult?
    ensures nodes[k].resultId in CleanAfter(inputs, nodes)
  {
    var i, j :| 0 <= i < j < k && BlindedSelection(nodes, i, j, nodes[k].ciphertextId, inputs);
    CleanResult(inputs, nodes, i);
    InputsStayClean(inputs, nodes, j);
    CleanResult(inputs, nodes, j);
    CleanResult(inputs, nodes, k);
  }

  // What a run returns is what its return nodes define, in order.
  function ReturnIds(nodes: seq<Node>): seq<string>
    decreases |nodes|
  {
    if nodes == [] then []
    else (if nodes[0].ReturnResult? then [nodes[0].resultId] else []) + ReturnIds(nodes[1..])
  }

  lemma {:induction false} RunReturns(env: Env, st: State, nodes: seq<Node>)
    requires Run(env, st, nodes).Success?
    ensures Run(env, st, nodes).value.returned == st.returned + ReturnIds(nodes)
    decreases |nodes|
  {
    if nodes != [] {
      hide Evaluate;
      RunReturns(env, Step(env, st, nodes[0]).value, nodes[1..]);
    }
  }

  lemma {:induction false} ReturnIdHasNode(nodes: seq<Node>, id: string)
    requires id in ReturnIds(nodes)
    ensures exists k :: 0 <= k < |nodes| && nodes[k].ReturnResult? && nodes[k].resultId == id
    decreases |nodes|
  {
    if nodes[0].ReturnResult? && nodes[0].resultId == id {
    } else {
      ReturnIdHasNode(nodes[1..], id);
      var k :| 0 <= k < |nodes[1..]| && nodes[1..][k].ReturnResult? && nodes[1..][k].resultId == id;
      assert nodes[k + 1] == nodes[1..][k];
    }
  }

  // ----- the decrypt loop and its escape check -----

  // The declared lanes of a result.
  function KeptLanes(c: Ciphertext, slotCount: nat): (s: seq<int>)
    ensures |s| == slotCount
  {
    seq(slotCount, i => At(c.lanes.first, i))
  }

  datatype Decrypted = Decrypted(id: string, values: seq<int>)

  // Normalised lanes below slotCount are kept; any other nonzero lane clears the flag.
  method DecryptResults(
    cts: map<string, Ciphertext>, resultIds: seq<string>, slotCount: nat, n: nat, p: Positive)
    returns (r: Option<seq<Decrypted>>, secondBatchRowZero: bool)
    requires slotCount <= n && forall id | id in cts :: Canonical(cts[id].lanes, n, p)
    ensures r.Some? <==> forall k | 0 <= k < |resultIds| :: resultIds[k] in cts
    ensures r.Some? ==> |r.value| == |resultIds| && forall k | 0 <= k < |resultIds| ::
      r.value[k] == Decrypted(resultIds[k], KeptLanes(cts[resultIds[k]], slotCount))
    ensures r.Some? ==> (secondBatchRowZero <==>
      forall k | 0 <= k < |resultIds| :: Confined(cts[resultIds[k]], slotCount))
  {
    hide Decrypt, Confined;
    secondBatchRowZero := true;
    var decrypted: seq<Decrypted> := [];
    for k := 0 to |resultIds|
      invariant forall j | 0 <= j < k :: resultIds[j] in cts
      invariant |decrypted| == k && forall j | 0 <= j < k ::
        decrypted[j] == Decrypted(resultIds[j], KeptLanes(cts[resultIds[j]], slotCount))
      invariant secondBatchRowZero <==> forall j | 0 <= j < k :: Confined(cts[resultIds[j]], slotCount)
    {
      var id := resultIds[k];
      if id !in cts {
        return None, secondBatchRowZero;
      }
      var values, zero := DecryptLanes(cts[id], slotCount, n, p);
      secondBatchRowZero := secondBatchRowZero && zero;
      decrypted := decrypted + [Decrypted(id, values)];
    }
    return Some(decrypted), secondBatchRowZero;
  }

  method DecryptLanes(c: Ciphertext, slotCount: nat, n: nat, p: Positive) returns (values: seq<int>, zero: bool)
    requires slotCount <= n && Canonical(c.lanes, n, p)
    ensures values == KeptLanes(c, slotCount)
    ensures zero <==> Confined(c, slotCount)
  {
    hide Decrypt;
    var lanes := Decrypt(c, n, p);
    ghost var flat := c.lanes.first + c.lanes.second;
    values, zero := [], true;
    for lane := 0 to 2 * n
      invariant values == flat[..if lane < slotCount then lane else slotCount]
      invariant zero <==> forall l | slotCount <= l < lane :: flat[l] == 0
    {
      DecryptThenNormalize(c, n, p, lane);
      var value := NormalizeMod(lanes[lane], p);
      assert value == flat[lane];
      if lane < slotCount {
        values := values + [value];
      } else if value != 0 {
        zero := false;
      }
    }
    assert zero ==> forall l | n <= l < 2 * n :: flat[l] == c.lanes.second[l - n];
    if zero {
      forall i | 0 <= i < n ensures c.lanes.second[i] == 0 { assert flat[n + i] == 0; }
      forall i | slotCount <= i < n ensures c.lanes.first[i] == 0 { assert flat[i] == 0; }
    } else {
      ghost var l :| slotCount <= l < 2 * n && flat[l] != 0;
      assert if l < n then c.lanes.first[l] != 0 else c.lanes.second[l - n] != 0;
    }
  }

  // ----- the guarantee -----

  // Parsed inputs and masks are confined to slot_count lanes.
  lemma {:induction false} ParsedInputConfined(values: seq<int>, slotCount: nat, n: nat, p: Positive)
    requires |values| == slotCount <= n
    ensures Confined(Encrypt(Padded(values, 2 * n, p), n, p), slotCount)
    ensures MaskConfined(Pack(PaddedMask(values, 2 * n), n), slotCount)
  {
    ZeroModulo(p);
  }

  ghost predicate StartsConfined(env: Env, st: State, slotCount: nat) {
    && MasksConfined(env, slotCount)
    && forall id | id in st.ciphertexts :: Confined(st.ciphertexts[id], slotCount)
  }

  ghost predicate ParsedFrom(env: Env, id: string, c: Ciphertext, raw: RawInput) {
    raw.id == id && c == Encrypt(Padded(raw.values, 2 * env.rowSize, env.modulus), env.rowSize, env.modulus)
  }

  ghost predicate MaskParsedFrom(env: Env, id: string, mask: Packed, raw: RawMask) {
    raw.id == id && mask == Pack(PaddedMask(raw.values, 2 * env.rowSize), env.rowSize)
  }

  // A run that starts from a parsed request starts confined, in batch shape.
  lemma {:induction false} ParsedRequestStartsConfined(
    env: Env, st: State, raw: seq<RawInput>, masks: seq<RawMask>, slotCount: nat)
    requires slotCount <= env.rowSize && AcceptableInputs(raw, slotCount) && AcceptableMasks(masks, slotCount)
    requires forall id | id in st.ciphertexts ::
      exists i :: 0 <= i < |raw| && ParsedFrom(env, id, st.ciphertexts[id], raw[i])
    requires forall id | id in env.masks ::
      exists i :: 0 <= i < |masks| && MaskParsedFrom(env, id, env.masks[id], masks[i])
    ensures StartsConfined(env, st, slotCount) && AllCanonical(env, st.ciphertexts)
  {
    hide Encrypt, Padded, Pack, PaddedMask, Confined, MaskConfined, Canonical;
    forall id | id in st.ciphertexts
      ensures Confined(st.ciphertexts[id], slotCount)
      ensures Canonical(st.ciphertexts[id].lanes, env.rowSize, env.modulus)
    {
      var i :| 0 <= i < |raw| && ParsedFrom(env, id, st.ciphertexts[id], raw[i]);
      assert AcceptableInput(raw[i], slotCount);
      ParsedInputConfined(raw[i].values, slotCount, env.rowSize, env.modulus);
    }
    forall id | id in env.masks ensures MaskConfined(env.masks[id], slotCount) {
      var i :| 0 <= i < |masks| && MaskParsedFrom(env, id, env.masks[id], masks[i]);
      assert AcceptableMask(masks[i], slotCount);
      ParsedInputConfined(masks[i].values, slotCount, env.rowSize, env.modulus);
    }
  }

  // With a full row the escape check can never fire, whatever the program rotates.
  lemma {:induction false} FullRowNeverEscapes(env: Env, st: State, nodes: seq<Node>, id: string)
    requires StartsConfined(env, st, env.rowSize) && AllCanonical(env, st.ciphertexts)
    requires Run(env, st, nodes).Success? && id in Run(env, st, nodes).value.ciphertexts
    ensures Confined(Run(env, st, nodes).value.ciphertexts[id], env.rowSize)
  {
    RunKeepsSecondRow(env, st, nodes);
    RunKeepsCanonical(env, st, nodes);
  }

  // With fewer lanes than the row, no rotation spill reaches a returned blinded selection.
  lemma {:induction false} BlindedSelectionsNeverEscape(env: Env, st: State, nodes: seq<Node>, slotCount: nat, id: string)
    requires StartsConfined(env, st, slotCount) && Run(env, st, nodes).Success? && st.returned == []
    requires ReturnsBlindedSelections(nodes, st.ciphertexts.Keys)
    requires id in Run(env, st, nodes).value.returned && id in Run(env, st, nodes).value.ciphertexts
    ensures Confined(Run(env, st, nodes).value.ciphertexts[id], slotCount)
  {
    hide Run, Confined;
    var inputs := st.ciphertexts.Keys;
    assert SecondRowsZero(st.ciphertexts) by { ConfinedSecondRows(st.ciphertexts, slotCount); }
    RunConfinesClean(env, st, nodes, inputs, slotCount);
    RunReturns(env, st, nodes);
    ReturnIdHasNode(nodes, id);
    var k :| 0 <= k < |nodes| && nodes[k].ReturnResult? && nodes[k].resultId == id;
    BlindedReturnsAreClean(nodes, inputs, k);
  }

  lemma {:induction false} ConfinedSecondRows(cts: map<string, Ciphertext>, slotCount: nat)
    requires forall id | id in cts :: Confined(cts[id], slotCount)
    ensures SecondRowsZero(cts)
  {
  }
}
