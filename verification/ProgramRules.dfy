// The public rules of Cloud programs, which a static validator decides before
// anything is encrypted, and what they promise the interpreter.
module ProgramRules {
  import opened Lanes
  import opened Outcomes
  import opened Sequences
  import opened CloudProgram
  import opened TypedRuns
  import opened RotationKeys
  import opened RowConfinement

  datatype CiphertextInput = CiphertextInput(inputId: string, role: string, length: int)
  datatype PublicMask = PublicMask(maskName: string, role: string, length: int, values: seq<int>)

  datatype Program = Program(
    format: string, slotCount: int, inputs: seq<CiphertextInput>, masks: seq<PublicMask>, nodes: seq<Node>,
    resultIds: seq<string>, catalog: seq<CatalogEntry>)

  const PROGRAM_FORMAT := "dynamic-cssc-cloud-program-v1"
  const VALUE_ROLE := "value"
  const QUERY_ROLE := "query"
  const F1M_ROLE := "f1m-mask"
  const SELECTION_ROLE := "selection"

  // Unlike the interpreter's rule, no bound on the length.
  predicate AsciiIdentifier(s: string) {
    s != "" && forall c | c in s :: '!' <= c <= '~'
  }

  // ----- operands and catalog -----

  predicate InputOk(input: CiphertextInput, slotCount: int) {
    && AsciiIdentifier(input.inputId) && input.role in {VALUE_ROLE, QUERY_ROLE, F1M_ROLE}
    && input.length == slotCount > 0
  }

  predicate PublicMaskOk(mask: PublicMask, slotCount: int) {
    && AsciiIdentifier(mask.maskName) && mask.role == SELECTION_ROLE && mask.length == slotCount > 0
    && |mask.values| == mask.length && forall v | v in mask.values :: v == 0 || v == 1
  }

  function DeclaredIds(inputs: seq<CiphertextInput>, masks: seq<PublicMask>): (s: seq<string>)
    ensures |s| == |inputs| + |masks|
  {
    seq(|inputs|, i requires 0 <= i < |inputs| => inputs[i].inputId)
    + seq(|masks|, i requires 0 <= i < |masks| => masks[i].maskName)
  }

  ghost predicate OperandsOk(program: Program) {
    && program.slotCount > 0
    && (forall i | 0 <= i < |program.inputs| :: InputOk(program.inputs[i], program.slotCount))
    && (forall i | 0 <= i < |program.masks| :: PublicMaskOk(program.masks[i], program.slotCount))
    && NoRepeat(DeclaredIds(program.inputs, program.masks))
  }

  // Shifts and indices are nonzero, and no shift repeats.
  ghost predicate PublicCatalogOk(catalog: seq<CatalogEntry>) {
    && (forall i | 0 <= i < |catalog| :: catalog[i].logicalShift != 0 && catalog[i].openfheIndex != 0)
    && (forall i, j | 0 <= i < j < |catalog| :: catalog[i].logicalShift != catalog[j].logicalShift)
  }

  predicate InputWith(inputs: seq<CiphertextInput>, id: string, role: string) {
    exists i | 0 <= i < |inputs| :: inputs[i].inputId == id && inputs[i].role == role
  }

  predicate IsInput(inputs: seq<CiphertextInput>, id: string) {
    exists i | 0 <= i < |inputs| :: inputs[i].inputId == id
  }

  predicate IsMask(masks: seq<PublicMask>, id: string) {
    exists i | 0 <= i < |masks| :: masks[i].maskName == id
  }

  lemma {:induction false} DeclaredIdsAre(program: Program, id: string)
    ensures id in DeclaredIds(program.inputs, program.masks)
       <==> IsInput(program.inputs, id) || IsMask(program.masks, id)
  {
    var ids, n := DeclaredIds(program.inputs, program.masks), |program.inputs|;
    if i :| 0 <= i < n && program.inputs[i].inputId == id {
      assert ids[i] == id;
    }
    if i :| 0 <= i < |program.masks| && program.masks[i].maskName == id {
      assert ids[n + i] == id;
    }
  }

  // ----- one node -----

  // Node j computes that ciphertext; what a return defines is not referable.
  predicate Computes(nodes: seq<Node>, j: nat, id: string) {
    j < |nodes| && nodes[j].resultId == id && !nodes[j].ReturnResult?
  }

  // An input or the result of an earlier computation.
  predicate Available(program: Program, k: nat, id: string) {
    IsInput(program.inputs, id) || exists j | 0 <= j < k :: Computes(program.nodes, j, id)
  }

  predicate MaskRequired(required: Option<set<string>>, resultId: string) {
    required.None? || resultId in required.value
  }

  // What may be returned: a blinded result where a mask is required, and
  // elsewhere a final evaluated one.
  predicate Returnable(producer: Node, masked: bool) {
    if masked then producer.AddF1MMask?
    else producer.Relinearize? || producer.MultiplyPlaintextMask? || producer.AddCiphertexts?
  }

  predicate UsesOk(program: Program, required: Option<set<string>>, k: nat, node: Node) {
    match node
    case MultiplyCiphertexts(_, left, right) =>
      || (InputWith(program.inputs, left, VALUE_ROLE) && InputWith(program.inputs, right, QUERY_ROLE))
      || (InputWith(program.inputs, left, QUERY_ROLE) && InputWith(program.inputs, right, VALUE_ROLE))
    case Relinearize(_, source) =>
      exists j | 0 <= j < k :: Computes(program.nodes, j, source) && program.nodes[j].MultiplyCiphertexts?
    case Rotate(_, source, logical, index) =>
      Available(program, k, source) && CatalogEntry(logical, index) in program.catalog
    case MultiplyPlaintextMask(_, source, maskId) => Available(program, k, source) && IsMask(program.masks, maskId)
    case AddCiphertexts(_, left, right) => Available(program, k, left) && Available(program, k, right)
    case AddF1MMask(_, source, mask, role) =>
      Available(program, k, source) && InputWith(program.inputs, mask, F1M_ROLE) && role == OPAQUE_ZERO_SUM
    case ReturnResult(id, source) =>
      exists j | 0 <= j < k ::
        Computes(program.nodes, j, source) && Returnable(program.nodes[j], MaskRequired(required, id))
  }

  ghost predicate NewId(program: Program, k: nat, id: string)
    requires k <= |program.nodes|
  {
    && AsciiIdentifier(id) && id !in DeclaredIds(program.inputs, program.masks)
    && forall j | 0 <= j < k :: program.nodes[j].resultId != id
  }

  ghost predicate NodeOk(program: Program, required: Option<set<string>>, k: nat)
    requires k < |program.nodes|
  {
    NewId(program, k, program.nodes[k].resultId) && UsesOk(program, required, k, program.nodes[k])
  }

  // ----- the whole program -----

  // What a computation reads; a return is not a consumer.
  function Dependencies(node: Node): (s: seq<string>)
    ensures |s| <= 2
  {
    match node
    case MultiplyCiphertexts(_, left, right) => [left, right]
    case Relinearize(_, source) => [source]
    case Rotate(_, source, _, _) => [source]
    case MultiplyPlaintextMask(_, source, maskId) => [source, maskId]
    case AddCiphertexts(_, left, right) => [left, right]
    case AddF1MMask(_, source, mask, _) => [source, mask]
    case ReturnResult(_, _) => []
  }

  // The node, once for each time it reads the id.
  function Readings(node: Node, id: string): seq<Node> {
    var ids := Dependencies(node);
    (if |ids| > 0 && ids[0] == id then [node] else []) + (if |ids| > 1 && ids[1] == id then [node] else [])
  }

  function Consumers(nodes: seq<Node>, id: string): seq<Node> {
    if nodes == [] then [] else Consumers(nodes[..|nodes| - 1], id) + Readings(nodes[|nodes| - 1], id)
  }

  function ReturnedSources(nodes: seq<Node>): multiset<string> {
    if nodes == [] then multiset{}
    else
      var last := nodes[|nodes| - 1];
      ReturnedSources(nodes[..|nodes| - 1]) + if last.ReturnResult? then multiset{last.ciphertextId} else multiset{}
  }

  function MaskUses(nodes: seq<Node>): multiset<string> {
    if nodes == [] then multiset{}
    else
      var last := nodes[|nodes| - 1];
      MaskUses(nodes[..|nodes| - 1]) + if last.AddF1MMask? then multiset{last.maskCiphertextId} else multiset{}
  }

  // Every blinded result is returned once, every F1-M operand added once.
  ghost predicate MasksScheduled(program: Program) {
    && (forall k | 0 <= k < |program.nodes| && program.nodes[k].AddF1MMask? ::
         ReturnedSources(program.nodes)[program.nodes[k].resultId] == 1)
    && (forall i | 0 <= i < |program.inputs| && program.inputs[i].role == F1M_ROLE ::
         MaskUses(program.nodes)[program.inputs[i].inputId] == 1)
  }

  predicate ConsumedAs(input: CiphertextInput, consumers: seq<Node>) {
    && |consumers| == 1
    && if input.role == F1M_ROLE then consumers[0].AddF1MMask? && consumers[0].maskCiphertextId == input.inputId
       else consumers[0].MultiplyCiphertexts?
  }

  predicate OneRelinearize(consumers: seq<Node>) { |consumers| == 1 && consumers[0].Relinearize? }

  ghost predicate ConsumersOk(program: Program) {
    && (forall i | 0 <= i < |program.inputs| ::
         ConsumedAs(program.inputs[i], Consumers(program.nodes, program.inputs[i].inputId)))
    && (forall k | 0 <= k < |program.nodes| && program.nodes[k].MultiplyCiphertexts? ::
         OneRelinearize(Consumers(program.nodes, program.nodes[k].resultId)))
  }

  ghost predicate IsComputed(nodes: seq<Node>, id: string) { exists j | 0 <= j < |nodes| :: Computes(nodes, j, id) }

  // The set has the sources of all returns, and what its own members read.
  ghost predicate LiveClosed(nodes: seq<Node>, live: set<string>) {
    && (forall k | 0 <= k < |nodes| && nodes[k].ReturnResult? :: nodes[k].ciphertextId in live)
    && (forall k, id | 0 <= k < |nodes| && !nodes[k].ReturnResult? && nodes[k].resultId in live
         && id in Dependencies(nodes[k]) && IsComputed(nodes, id) :: id in live)
  }

  // In the smallest such set: some return depends on it.
  ghost predicate Contributes(nodes: seq<Node>, id: string) {
    forall live: set<string> | LiveClosed(nodes, live) :: id in live
  }

  ghost predicate NothingDead(program: Program) {
    && (forall k | 0 <= k < |program.nodes| && !program.nodes[k].ReturnResult? ::
         Contributes(program.nodes, program.nodes[k].resultId))
    && (forall id | id in DeclaredIds(program.inputs, program.masks) ::
         exists k :: 0 <= k < |program.nodes| && id in Dependencies(program.nodes[k]))
  }

  // The rules. `required` is None for the strict contract, in which every result
  // is blinded, and otherwise the results that have to be.
  ghost predicate Admitted(program: Program, required: Option<set<string>>) {
    && program.format == PROGRAM_FORMAT
    && OperandsOk(program) && PublicCatalogOk(program.catalog)
    && (forall k | 0 <= k < |program.nodes| :: NodeOk(program, required, k))
    && program.resultIds == ReturnIds(program.nodes)
    && (required.Some? ==> forall id | id in required.value :: AsciiIdentifier(id) && id in program.resultIds)
    && MasksScheduled(program) && ConsumersOk(program) && NothingDead(program)
  }

  // ----- what the rules promise the interpreter -----

  // The run starts from the program's inputs, masks and catalog, with a key for
  // every rotation of the program.
  ghost predicate Supports(env: Env, st: State, program: Program) {
    && Closed(st)
    && (forall id :: id in st.ciphertexts <==> IsInput(program.inputs, id))
    && (forall id | id in st.ciphertexts :: st.ciphertexts[id].elements == 2)
    && (forall i | 0 <= i < |program.masks| :: program.masks[i].maskName in env.masks)
    && (forall e | e in program.catalog ::
         e.logicalShift in env.rotations && env.rotations[e.logicalShift] == e.openfheIndex)
    && (forall k | 0 <= k < |program.nodes| && program.nodes[k].Rotate? ::
         program.nodes[k].openfheIndex in env.keys && InInt32(program.nodes[k].openfheIndex))
  }

  // The state after the first k nodes.
  ghost predicate AfterNodes(st: State, mid: State, program: Program, k: nat)
    requires k <= |program.nodes|
  {
    && Closed(mid)
    && (forall id :: id in mid.ciphertexts <==>
         IsInput(program.inputs, id) || exists j | 0 <= j < k :: program.nodes[j].resultId == id)
    && (forall id | id in mid.ciphertexts && IsInput(program.inputs, id) :: mid.ciphertexts[id].elements == 2)
    && (forall j | 0 <= j < k && program.nodes[j].resultId in mid.ciphertexts ::
         mid.ciphertexts[program.nodes[j].resultId].elements == if program.nodes[j].MultiplyCiphertexts? then 3 else 2)
    && mid.returned == st.returned + ReturnIds(program.nodes[..k])
  }

  lemma {:induction false} ReadersConsume(nodes: seq<Node>, k: nat, id: string)
    requires k < |nodes| && id in Dependencies(nodes[k])
    ensures nodes[k] in Consumers(nodes, id)
  {
    hide Readings, Dependencies;
    var n := |nodes| - 1;
    if k < n {
      ReadersConsume(nodes[..n], k, id);
    } else {
      ReaderIsReading(nodes[n], id);
    }
  }

  lemma {:induction false} ReaderIsReading(node: Node, id: string)
    requires id in Dependencies(node)
    ensures node in Readings(node, id)
  {
    hide Dependencies;
  }

  // Nothing but its relinearisation reads a product.
  lemma {:induction false} ReadsNoProduct(program: Program, k: nat, j: nat)
    requires ConsumersOk(program) && k < |program.nodes| && j < |program.nodes|
    requires program.nodes[j].MultiplyCiphertexts? && !program.nodes[k].Relinearize?
    ensures program.nodes[j].resultId !in Dependencies(program.nodes[k])
  {
    hide Consumers, Dependencies;
    var id := program.nodes[j].resultId;
    assert OneRelinearize(Consumers(program.nodes, id));
    if id in Dependencies(program.nodes[k]) {
      ReadersConsume(program.nodes, k, id);
    }
  }

  lemma {:induction false} AvailableIsTwo(program: Program, st: State, mid: State, k: nat, id: string)
    requires ConsumersOk(program) && k < |program.nodes| && AfterNodes(st, mid, program, k)
    requires !program.nodes[k].Relinearize? && id in Dependencies(program.nodes[k]) && Available(program, k, id)
    ensures TwoElements(mid, id)
  {
    hide ConsumersOk, ReturnIds, IsInput;
    if !IsInput(program.inputs, id) {
      var j :| 0 <= j < k && Computes(program.nodes, j, id);
      if program.nodes[j].MultiplyCiphertexts? {
        ReadsNoProduct(program, k, j);
      }
    }
  }

  lemma {:induction false} InputIsTwo(program: Program, st: State, mid: State, k: nat, id: string, role: string)
    requires k <= |program.nodes| && AfterNodes(st, mid, program, k) && InputWith(program.inputs, id, role)
    ensures TwoElements(mid, id)
  {
    hide ReturnIds;
    assert IsInput(program.inputs, id);
  }

  // Every node finds its operands defined and typed.
  lemma {:induction false} NodeEvaluates(
    env: Env, st: State, mid: State, program: Program, required: Option<set<string>>, k: nat)
    requires Admitted(program, required) && Supports(env, st, program)
    requires k < |program.nodes| && AfterNodes(st, mid, program, k)
    ensures var node := program.nodes[k];
      && OperandsTyped(mid, node) && Evaluate(env, mid.ciphertexts, node).Success?
      && Evaluate(env, mid.ciphertexts, node).value.elements == if node.MultiplyCiphertexts? then 3 else 2
  {
    hide AfterNodes, ConsumersOk, MasksScheduled, NothingDead, OperandsOk, NewId, ReturnIds, AddRows, MulRows,
      RotateRow, Available, InputWith;
    var node := program.nodes[k];
    assert NodeOk(program, required, k);
    match node {
      case MultiplyCiphertexts(_, left, right) =>
        if InputWith(program.inputs, left, VALUE_ROLE) && InputWith(program.inputs, right, QUERY_ROLE) {
          InputIsTwo(program, st, mid, k, left, VALUE_ROLE);
          InputIsTwo(program, st, mid, k, right, QUERY_ROLE);
        } else {
          InputIsTwo(program, st, mid, k, left, QUERY_ROLE);
          InputIsTwo(program, st, mid, k, right, VALUE_ROLE);
        }
      case Relinearize(_, source) =>
        ProductIsThree(program, st, mid, k, source);
      case Rotate(_, source, logical, index) =>
        AvailableIsTwo(program, st, mid, k, source);
      case MultiplyPlaintextMask(_, source, maskId) =>
        AvailableIsTwo(program, st, mid, k, source);
      case AddCiphertexts(_, left, right) =>
        AvailableIsTwo(program, st, mid, k, left);
        AvailableIsTwo(program, st, mid, k, right);
      case AddF1MMask(_, source, mask, _) =>
        AvailableIsTwo(program, st, mid, k, source);
        InputIsTwo(program, st, mid, k, mask, F1M_ROLE);
      case ReturnResult(_, source) =>
        ReturnedIsTwo(program, st, mid, required, k);
    }
  }

  lemma {:induction false} ProductIsThree(program: Program, st: State, mid: State, k: nat, source: string)
    requires k <= |program.nodes| && AfterNodes(st, mid, program, k)
    requires exists j | 0 <= j < k :: Computes(program.nodes, j, source) && program.nodes[j].MultiplyCiphertexts?
    ensures source in mid.ciphertexts && mid.ciphertexts[source].elements == 3
  {
    hide ReturnIds, IsInput;
  }

  lemma {:induction false} ReturnedIsTwo(
    program: Program, st: State, mid: State, required: Option<set<string>>, k: nat)
    requires k < |program.nodes| && AfterNodes(st, mid, program, k)
    requires program.nodes[k].ReturnResult? && UsesOk(program, required, k, program.nodes[k])
    ensures TwoElements(mid, program.nodes[k].ciphertextId)
  {
    hide ReturnIds, IsInput;
  }

  lemma {:induction false} ReturnIdsLast(nodes: seq<Node>, k: nat)
    requires k < |nodes|
    ensures ReturnIds(nodes[..k + 1])
         == ReturnIds(nodes[..k]) + if nodes[k].ReturnResult? then [nodes[k].resultId] else []
  {
    ReturnIdsAppend(nodes[..k], [nodes[k]]);
    assert nodes[..k + 1] == nodes[..k] + [nodes[k]];
    assert [nodes[k]][1..] == [];
  }

  lemma {:induction false} ReturnIdsAppend(a: seq<Node>, b: seq<Node>)
    ensures ReturnIds(a + b) == ReturnIds(a) + ReturnIds(b)
    decreases |a|
  {
    if a == [] {
      assert a + b == b;
    } else {
      assert (a + b)[1..] == a[1..] + b && (a + b)[0] == a[0];
      ReturnIdsAppend(a[1..], b);
    }
  }

  lemma {:induction false} NewIsUndefined(
    st: State, mid: State, program: Program, required: Option<set<string>>, k: nat)
    requires Admitted(program, required) && k < |program.nodes| && AfterNodes(st, mid, program, k)
    ensures program.nodes[k].resultId !in mid.ciphertexts
    ensures |program.nodes[k].resultId| <= 512 ==> PrintableIdentifier(program.nodes[k].resultId)
  {
    ShortPrints(program.nodes[k].resultId);
    hide PrintableIdentifier, ConsumersOk, MasksScheduled, NothingDead, OperandsOk, ReturnIds, AsciiIdentifier, UsesOk;
    assert NodeOk(program, required, k);
    var id := program.nodes[k].resultId;
    if IsInput(program.inputs, id) {
      InputIsOperand(program, id);
    }
  }

  lemma {:induction false} ShortPrints(id: string)
    ensures PrintableIdentifier(id) <==> AsciiIdentifier(id) && |id| <= 512
  {
    if AsciiIdentifier(id) {
      forall i | 0 <= i < |id| ensures '!' <= id[i] <= '~' {
        assert id[i] in id;
      }
    }
  }

  lemma {:induction false} InputIsOperand(program: Program, id: string)
    requires IsInput(program.inputs, id)
    ensures id in DeclaredIds(program.inputs, program.masks)
  {
    var i :| 0 <= i < |program.inputs| && program.inputs[i].inputId == id;
    assert DeclaredIds(program.inputs, program.masks)[i] == id;
  }

  // One more node with an identifier the interpreter takes.
  lemma {:induction false} NextNode(
    env: Env, st: State, mid: State, program: Program, required: Option<set<string>>, k: nat)
    returns (end: State)
    requires Admitted(program, required) && Supports(env, st, program)
    requires k < |program.nodes| && AfterNodes(st, mid, program, k) && |program.nodes[k].resultId| <= 512
    ensures Reaches(env, mid, [program.nodes[k]], end) && AfterNodes(st, end, program, k + 1)
  {
    hide Admitted, Supports, Evaluate, OperandsTyped, Reaches, AfterNodes, PrintableIdentifier;
    var node := program.nodes[k];
    assert Closed(mid) by { AfterIsClosed(st, mid, program, k); }
    NodeEvaluates(env, st, mid, program, required, k);
    NewIsUndefined(st, mid, program, required, k);
    end := TakeStep(env, mid, node, Evaluate(env, mid.ciphertexts, node).value);
    AfterOneMore(st, mid, end, program, k, Evaluate(env, mid.ciphertexts, node).value);
  }

  lemma {:induction false} AfterIsClosed(st: State, mid: State, program: Program, k: nat)
    requires k <= |program.nodes| && AfterNodes(st, mid, program, k)
    ensures Closed(mid)
  {
    hide ReturnIds, IsInput;
  }

  lemma {:induction false} AfterOneMore(st: State, mid: State, end: State, program: Program, k: nat, c: Ciphertext)
    requires k < |program.nodes| && AfterNodes(st, mid, program, k)
    requires Defines(mid, end, program.nodes[k].resultId, c) && program.nodes[k].resultId !in mid.ciphertexts
    requires c.elements == if program.nodes[k].MultiplyCiphertexts? then 3 else 2
    requires end.returned
      == if program.nodes[k].ReturnResult? then mid.returned + [program.nodes[k].resultId] else mid.returned
    ensures AfterNodes(st, end, program, k + 1)
  {
    hide ReturnIds, IsInput;
    ReturnIdsLast(program.nodes, k);
  }

  // The first k nodes run, typed, when the interpreter takes their identifiers.
  lemma {:induction false} PrefixRuns(env: Env, st: State, program: Program, required: Option<set<string>>, k: nat)
    returns (mid: State)
    requires Admitted(program, required) && Supports(env, st, program) && k <= |program.nodes|
    requires forall j | 0 <= j < k :: |program.nodes[j].resultId| <= 512
    ensures Reaches(env, st, program.nodes[..k], mid) && AfterNodes(st, mid, program, k)
  {
    hide Admitted, Reaches, Evaluate, Supports, AfterNodes;
    if k == 0 {
      ReachesNothing(env, st);
      StartsAfterNone(env, st, program);
      return st;
    }
    var before := PrefixRuns(env, st, program, required, k - 1);
    mid := NextNode(env, st, before, program, required, k - 1);
    ReachesAppend(env, st, program.nodes[..k - 1], before, [program.nodes[k - 1]], mid);
    assert program.nodes[..k - 1] + [program.nodes[k - 1]] == program.nodes[..k];
  }

  lemma {:induction false} StartsAfterNone(env: Env, st: State, program: Program)
    requires Supports(env, st, program)
    ensures AfterNodes(st, st, program, 0)
  {
    hide IsInput;
  }

  ghost predicate ShortIds(nodes: seq<Node>) { forall k | 0 <= k < |nodes| :: |nodes[k].resultId| <= 512 }

  // The first identifier the interpreter finds too long stops the run.
  lemma {:induction false} LongIdFails(env: Env, st: State, program: Program, required: Option<set<string>>)
    requires Admitted(program, required) && Supports(env, st, program) && !ShortIds(program.nodes)
    ensures Run(env, st, program.nodes) == Failure(SsaIdentity)
  {
    hide Admitted, Supports, AfterNodes, Reaches, Evaluate;
    var k := FirstLong(program.nodes, 0);
    var mid := PrefixRuns(env, st, program, required, k);
    ReachesIsRun(env, st, program.nodes[..k], mid);
    NodeEvaluates(env, st, mid, program, required, k);
    assert program.nodes == program.nodes[..k] + program.nodes[k..];
    RunAppend(env, st, program.nodes[..k], program.nodes[k..]);
    assert program.nodes[k..][0] == program.nodes[k];
  }

  lemma {:induction false} FirstLong(nodes: seq<Node>, from: nat) returns (k: nat)
    requires from <= |nodes| && !ShortIds(nodes) && forall j | 0 <= j < from :: |nodes[j].resultId| <= 512
    ensures k < |nodes| && |nodes[k].resultId| > 512 && forall j | 0 <= j < k :: |nodes[j].resultId| <= 512
    decreases |nodes| - from
  {
    if |nodes[from].resultId| > 512 {
      return from;
    }
    k := FirstLong(nodes, from + 1);
  }

  // An accepted program, given its inputs, masks and keys, runs typed to the end
  // and returns exactly the declared results, each of two elements, if and only if
  // it has a node and no identifier is longer than the interpreter allows.
  lemma {:induction false} AcceptedProgramRuns(
    env: Env, st: State, program: Program, required: Option<set<string>>)
    requires Admitted(program, required) && Supports(env, st, program)
    ensures Execute(env, st, program.nodes).Success? <==> program.nodes != [] && ShortIds(program.nodes)
    ensures program.nodes == [] ==> Execute(env, st, program.nodes) == Failure(EmptyProgram)
    ensures program.nodes != [] && !ShortIds(program.nodes) ==>
      Execute(env, st, program.nodes) == Failure(SsaIdentity)
    ensures Execute(env, st, program.nodes).Success? ==>
      var end := Execute(env, st, program.nodes).value;
      && Reaches(env, st, program.nodes, end)
      && end.returned == st.returned + program.resultIds
      && forall id | id in program.resultIds :: TwoElements(end, id)
  {
    if !ShortIds(program.nodes) {
      LongIdFails(env, st, program, required);
    } else if program.nodes != [] {
      var nodes := program.nodes;
      var end := PrefixRuns(env, st, program, required, |nodes|);
      assert nodes[..|nodes|] == nodes;
      ReachesIsRun(env, st, nodes, end);
      hide Run, Reaches, Supports;
      forall id | id in program.resultIds ensures TwoElements(end, id) {
        ReturnIdHasNode(nodes, id);
      }
    }
  }

  // Only the empty program returns nothing, and it has no operands.
  lemma {:induction false} AcceptedReturns(program: Program, required: Option<set<string>>)
    requires Admitted(program, required)
    ensures program.resultIds == [] <==> program.nodes == []
    ensures program.nodes == [] ==> program.inputs == [] && program.masks == []
  {
    hide ConsumersOk, MasksScheduled, OperandsOk, PublicCatalogOk, Contributes;
    var nodes := program.nodes;
    if program.inputs != [] || program.masks != [] {
      OperandsAreRead(program, DeclaredIds(program.inputs, program.masks)[0]);
    }
    if nodes != [] {
      var k := 0;
      if !nodes[0].ReturnResult? {
        k := SomethingReturned(nodes, nodes[0].resultId);
      }
      ReturnHasId(nodes, k);
    }
  }

  lemma {:induction false} OperandsAreRead(program: Program, id: string)
    requires NothingDead(program) && id in DeclaredIds(program.inputs, program.masks)
    ensures program.nodes != []
  {
  }

  lemma {:induction false} SomethingReturned(nodes: seq<Node>, id: string) returns (k: nat)
    requires Contributes(nodes, id)
    ensures k < |nodes| && nodes[k].ReturnResult?
  {
    assert LiveClosed(nodes, {}) <== forall j | 0 <= j < |nodes| :: !nodes[j].ReturnResult?;
    k :| 0 <= k < |nodes| && nodes[k].ReturnResult?;
  }

  lemma {:induction false} ReturnHasId(nodes: seq<Node>, k: nat)
    requires k < |nodes| && nodes[k].ReturnResult?
    ensures nodes[k].resultId in ReturnIds(nodes)
    decreases |nodes|
  {
    if k > 0 {
      ReturnHasId(nodes[1..], k - 1);
    }
  }
}
