// The emitted program with its operands meets the strict rules, so the
// validation that ends its construction never fails.
module EmittedAccepted {
  import opened Lanes
  import opened Naming
  import opened Outcomes
  import opened Sequences
  import opened CloudProgram
  import opened TypedRuns
  import opened Emitter
  import opened EmittedRun
  import opened RotationKeys
  import opened RowConfinement
  import opened ProgramRules

  // ----- the program -----

  function ComponentInputs(c: string, length: nat): seq<CiphertextInput> {
    [CiphertextInput(NamesOf(c)(Values), VALUE_ROLE, length), CiphertextInput(NamesOf(c)(Query), QUERY_ROLE, length),
     CiphertextInput(NamesOf(c)(F1MMask), F1M_ROLE, length)]
  }

  function InputsFor(components: seq<string>, length: nat): seq<CiphertextInput> {
    if components == [] then [] else ComponentInputs(components[0], length) + InputsFor(components[1..], length)
  }

  function LadderCatalog(rotations: seq<nat>): (s: seq<CatalogEntry>)
    ensures |s| == |rotations|
  {
    seq(|rotations|, i requires 0 <= i < |rotations| => CatalogEntry(rotations[i], rotations[i]))
  }

  function EmittedProgram(components: seq<string>, rotations: seq<nat>, slotCount: nat, starts: seq<int>): Program {
    Program(
      PROGRAM_FORMAT, slotCount, InputsFor(components, slotCount),
      [PublicMask(SEGMENT_STARTS, SELECTION_ROLE, slotCount, starts)],
      ProgramNodes(components, rotations), ResultIds(components), LadderCatalog(rotations))
  }

  // ----- the shape of its nodes -----

  predicate Partial(s: Suffix) { s.Relin? || s.Sum? }

  predicate EmittedNode(node: Node, name: Suffix -> string, rotations: seq<nat>, s: Suffix, reduced: Suffix) {
    Partial(reduced) && node.resultId == name(s) &&
    match node
    case MultiplyCiphertexts(_, left, right) => s.Product? && left == name(Values) && right == name(Query)
    case Relinearize(_, source) => s.Relin? && source == name(Product)
    case Rotate(_, source, logical, index) =>
      s.Rotated? && source == name(reduced) && logical == index == s.rotation && s.rotation in rotations
    case MultiplyPlaintextMask(_, source, maskId) => s.Selected? && source == name(reduced) && maskId == SEGMENT_STARTS
    case AddCiphertexts(_, left, right) =>
      s.Sum? && left == name(reduced) && exists r :: r in rotations && right == name(Rotated(r))
    case AddF1MMask(_, source, mask, role) =>
      s.Masked? && source == name(Selected) && mask == name(F1MMask) && role == OPAQUE_ZERO_SUM
    case ReturnResult(_, source) => s.Page? && source == name(Masked)
  }

  ghost predicate EmittedBy(node: Node, name: Suffix -> string, rotations: seq<nat>) {
    exists s, reduced :: EmittedNode(node, name, rotations, s, reduced)
  }

  lemma {:induction false} LadderEmits(
    name: Suffix -> string, reduced: Suffix, span: nat, rotations: seq<nat>, all: seq<nat>, node: Node)
    requires Partial(reduced) && (forall r | r in rotations :: r in all)
    requires node in LadderNodes(name, reduced, span, rotations)
    ensures EmittedBy(node, name, all) && (node.Rotate? || node.AddCiphertexts?)
    decreases |rotations|
  {
    var r := rotations[0];
    assert r in all;
    if node == Rotate(name(Rotated(r)), name(reduced), r, r) {
      assert EmittedNode(node, name, all, Rotated(r), reduced);
    } else if node == AddCiphertexts(name(Sum(span + r)), name(reduced), name(Rotated(r))) {
      assert EmittedNode(node, name, all, Sum(span + r), reduced);
    } else {
      LadderEmits(name, Sum(span + r), span + r, rotations[1..], all, node);
    }
  }

  lemma {:induction false} LastIsPartial(rotations: seq<nat>)
    ensures Partial(LastReduced(Relin, 1, rotations))
  {
  }

  lemma {:induction false} ComponentEmits(name: Suffix -> string, rotations: seq<nat>, node: Node)
    requires node in NodesOf(name, rotations)
    ensures EmittedBy(node, name, rotations)
  {
    hide LadderNodes, LastReduced;
    var last := LastReduced(Relin, 1, rotations);
    LastIsPartial(rotations);
    if node in LadderNodes(name, Relin, 1, rotations) {
      LadderEmits(name, Relin, 1, rotations, rotations, node);
    } else if node in Prologue(name) {
      assert EmittedNode(node, name, rotations, if node == Prologue(name)[0] then Product else Relin, Relin);
    } else {
      var epilogue := Epilogue(name, last);
      assert node == epilogue[0] || node == epilogue[1] || node == epilogue[2];
      var s := if node == epilogue[0] then Selected else if node == epilogue[1] then Masked else Page;
      assert EmittedNode(node, name, rotations, s, last);
    }
  }

  // Every node belongs to a component.
  lemma {:induction false} ProgramEmits(components: seq<string>, rotations: seq<nat>, node: Node) returns (c: string)
    requires node in ProgramNodes(components, rotations)
    ensures c in components && node in NodesOf(NamesOf(c), rotations) && EmittedBy(node, NamesOf(c), rotations)
    decreases |components|
  {
    hide NodesOf, EmittedBy, NamesOf;
    if node in NodesOf(NamesOf(components[0]), rotations) {
      c := components[0];
      ComponentEmits(NamesOf(c), rotations, node);
    } else {
      c := ProgramEmits(components[1..], rotations, node);
    }
  }

  lemma {:induction false} ComponentIncluded(components: seq<string>, rotations: seq<nat>, c: string, node: Node)
    requires c in components && node in NodesOf(NamesOf(c), rotations)
    ensures node in ProgramNodes(components, rotations)
    decreases |components|
  {
    hide NodesOf, NamesOf;
    if components[0] != c {
      ComponentIncluded(components[1..], rotations, c, node);
    }
  }

  // The node behind an identifier of the program is of the suffix's kind.
  lemma {:induction false} ProducerIs(components: seq<string>, rotations: seq<nat>, node: Node, c: string, s: Suffix)
    requires node in ProgramNodes(components, rotations) && node.resultId == NamesOf(c)(s)
    ensures s.Product? ==> node.MultiplyCiphertexts?
    ensures s.Masked? ==> node.AddF1MMask?
    ensures !s.Page? ==> !node.ReturnResult?
    ensures Computed(s)
  {
    hide NamesOf;
    var d := ProgramEmits(components, rotations, node);
    var t, reduced :| EmittedNode(node, NamesOf(d), rotations, t, reduced);
    NamesDisjoint(c, s, d, t);
  }

  // ----- order, read off a run -----

  // A run defines one new identifier a node, and finds what it reads defined.
  lemma {:induction false} RunOrders(env: Env, st: State, nodes: seq<Node>, k: nat) returns (mid: State)
    requires Run(env, st, nodes).Success? && k < |nodes|
    ensures Step(env, mid, nodes[k]).Success?
    ensures forall id :: id in mid.ciphertexts <==>
      id in st.ciphertexts || exists j | 0 <= j < k :: nodes[j].resultId == id
    decreases k
  {
    hide Evaluate, PrintableIdentifier;
    if k == 0 {
      return st;
    }
    var next := Step(env, st, nodes[0]).value;
    mid := RunOrders(env, next, nodes[1..], k - 1);
    forall id ensures id in mid.ciphertexts <==>
      id in st.ciphertexts || exists j | 0 <= j < k :: nodes[j].resultId == id
    {
      assert id in next.ciphertexts <==> id in st.ciphertexts || nodes[0].resultId == id;
      if j :| 0 <= j < k - 1 && nodes[1..][j].resultId == id {
        assert nodes[j + 1].resultId == id;
      }
      if j :| 0 <= j < k && nodes[j].resultId == id && j > 0 {
        assert nodes[1..][j - 1].resultId == id;
      }
    }
  }

  // The tables of a run of the emitted program, whatever the lanes.
  function AnyEnv(rotations: seq<nat>): Env {
    Env(1, 1, map r | r in rotations :: r as int := r as int, set r | r in rotations :: r as int,
        map[SEGMENT_STARTS := Packed([0], [0])])
  }

  function AnyStart(inputs: seq<CiphertextInput>): State {
    var ids := set x | x in inputs :: x.inputId;
    State(map id | id in ids :: Ciphertext(Packed([0], [0]), 2), ids, [], NO_OPERATIONS)
  }

  ghost predicate RotationsFit(rotations: seq<nat>) {
    AscendingRotations(rotations, 0) && forall r | r in rotations :: InInt32(r)
  }

  lemma {:induction false} InputMember(components: seq<string>, length: nat, x: CiphertextInput)
    ensures x in InputsFor(components, length) <==> exists c :: c in components && x in ComponentInputs(c, length)
    decreases |components|
  {
    hide ComponentInputs;
    if components != [] {
      InputMember(components[1..], length, x);
      assert components == [components[0]] + components[1..];
    }
  }

  // Inputs are the uncomputed names of the components.
  lemma {:induction false} InputIdIs(components: seq<string>, length: nat, id: string)
    ensures IsInput(InputsFor(components, length), id)
       <==> exists c, s :: c in components && !Computed(s) && id == NamesOf(c)(s)
  {
    hide NamesOf;
    var inputs := InputsFor(components, length);
    if i :| 0 <= i < |inputs| && inputs[i].inputId == id {
      InputMember(components, length, inputs[i]);
      var c :| c in components && inputs[i] in ComponentInputs(c, length);
      assert !Computed(Values) && !Computed(Query) && !Computed(F1MMask);
    }
    if c, s :| c in components && !Computed(s) && id == NamesOf(c)(s) {
      var x := ComponentInputs(c, length)[if s.Values? then 0 else if s.Query? then 1 else 2];
      InputMember(components, length, x);
      var i :| 0 <= i < |inputs| && inputs[i] == x;
      assert inputs[i].inputId == id;
    }
  }

  lemma {:induction false} RoleIsOfName(components: seq<string>, length: nat, c: string)
    requires c in components
    ensures var inputs := InputsFor(components, length);
      && InputWith(inputs, NamesOf(c)(Values), VALUE_ROLE) && InputWith(inputs, NamesOf(c)(Query), QUERY_ROLE)
      && InputWith(inputs, NamesOf(c)(F1MMask), F1M_ROLE)
  {
    hide NamesOf;
    var inputs, own := InputsFor(components, length), ComponentInputs(c, length);
    InputMember(components, length, own[0]);
    InputMember(components, length, own[1]);
    InputMember(components, length, own[2]);
    var i :| 0 <= i < |inputs| && inputs[i] == own[0];
    var j :| 0 <= j < |inputs| && inputs[j] == own[1];
    var k :| 0 <= k < |inputs| && inputs[k] == own[2];
  }

  lemma {:induction false} StartKeys(inputs: seq<CiphertextInput>, id: string)
    ensures id in AnyStart(inputs).ciphertexts <==> IsInput(inputs, id)
    ensures IsInput(inputs, id) ==> TwoElements(AnyStart(inputs), id)
  {
    if i :| 0 <= i < |inputs| && inputs[i].inputId == id {
      assert inputs[i] in inputs;
    }
  }

  lemma {:induction false} StartReady(components: seq<string>, rotations: seq<nat>, slotCount: nat, c: string)
    requires c in components && GoodName(c, 1 + Total(rotations))
    ensures ReadyFor(AnyEnv(rotations), AnyStart(InputsFor(components, slotCount)), c, rotations)
  {
    hide InputsFor, NamesOf, Total, GoodName, AnyStart, IsInput, AnyEnv;
    var inputs := InputsFor(components, slotCount);
    forall s | !Computed(s) ensures TwoElements(AnyStart(inputs), NamesOf(c)(s)) {
      InputIdIs(components, slotCount, NamesOf(c)(s));
      StartKeys(inputs, NamesOf(c)(s));
    }
    forall s | Computed(s) ensures NamesOf(c)(s) !in AnyStart(inputs).ciphertexts {
      ComputedIsNoInput(components, slotCount, c, s);
      StartKeys(inputs, NamesOf(c)(s));
    }
  }

  lemma {:induction false} ComputedIsNoInput(components: seq<string>, slotCount: nat, c: string, s: Suffix)
    requires Computed(s)
    ensures !IsInput(InputsFor(components, slotCount), NamesOf(c)(s))
  {
    hide InputsFor, NamesOf, IsInput;
    InputIdIs(components, slotCount, NamesOf(c)(s));
    if d, t :| d in components && !Computed(t) && NamesOf(c)(s) == NamesOf(d)(t) {
      NamesDisjoint(c, s, d, t);
    }
  }

  lemma {:induction false} EmittedRuns(components: seq<string>, rotations: seq<nat>, slotCount: nat)
    requires NoRepeat(components) && RotationsFit(rotations)
    requires forall c | c in components :: GoodName(c, 1 + Total(rotations))
    ensures Run(AnyEnv(rotations), AnyStart(InputsFor(components, slotCount)), ProgramNodes(components, rotations)).Success?
    ensures ReturnIds(ProgramNodes(components, rotations)) == ResultIds(components)
  {
    hide InputsFor, NamesOf, Total, NodesOf, AscendingRotations, PageComputed, ReadyFor, ProgramNodes, GoodName, Run,
      ComponentCounts, Keeps;
    var env, st := AnyEnv(rotations), AnyStart(InputsFor(components, slotCount));
    var nodes := ProgramNodes(components, rotations);
    forall c | c in components ensures ReadyFor(env, st, c, rotations) {
      StartReady(components, rotations, slotCount, c);
    }
    assert Equipped(env, rotations);
    var end := RunProgram(env, st, components, rotations);
    ReachesIsRun(env, st, nodes, end);
    RunReturns(env, st, nodes);
    assert st.returned + ReturnIds(nodes) == ReturnIds(nodes);
    assert st.returned + ResultIds(components) == ResultIds(components);
  }

  // What is defined before a node and is no input was computed by an earlier node.
  ghost predicate DefinedBefore(program: Program, k: nat, id: string) {
    IsInput(program.inputs, id) || exists j | 0 <= j < k < |program.nodes| :: program.nodes[j].resultId == id
  }

  // What a node reads as a ciphertext.
  function ReadIds(node: Node): set<string> {
    match node
    case MultiplyCiphertexts(_, left, right) => {left, right}
    case Relinearize(_, source) => {source}
    case Rotate(_, source, _, _) => {source}
    case MultiplyPlaintextMask(_, source, _) => {source}
    case AddCiphertexts(_, left, right) => {left, right}
    case AddF1MMask(_, source, mask, _) => {source, mask}
    case ReturnResult(_, source) => {source}
  }

  lemma {:induction false} EmittedOrder(
    components: seq<string>, rotations: seq<nat>, slotCount: nat, starts: seq<int>, k: nat)
    requires NoRepeat(components) && RotationsFit(rotations)
    requires forall c | c in components :: GoodName(c, 1 + Total(rotations))
    requires k < |ProgramNodes(components, rotations)|
    ensures var program := EmittedProgram(components, rotations, slotCount, starts);
      && PrintableIdentifier(program.nodes[k].resultId) && !DefinedBefore(program, k, program.nodes[k].resultId)
      && forall id | id in ReadIds(program.nodes[k]) :: DefinedBefore(program, k, id)
  {
    hide InputsFor, Run, ProgramNodes, GoodName, Total, PrintableIdentifier, IsInput;
    var inputs, nodes := InputsFor(components, slotCount), ProgramNodes(components, rotations);
    EmittedRuns(components, rotations, slotCount);
    var mid := RunOrders(AnyEnv(rotations), AnyStart(inputs), nodes, k);
    forall id ensures id in AnyStart(inputs).ciphertexts <==> IsInput(inputs, id) {
      StartKeys(inputs, id);
    }
  }

  // An identifier of a component that is computed and not returned is available.
  lemma {:induction false} NameAvailable(
    components: seq<string>, rotations: seq<nat>, slotCount: nat, starts: seq<int>, k: nat, c: string, s: Suffix)
    returns (j: nat)
    requires k < |ProgramNodes(components, rotations)| && Computed(s) && !s.Page?
    requires DefinedBefore(EmittedProgram(components, rotations, slotCount, starts), k, NamesOf(c)(s))
    ensures j < k && Computes(ProgramNodes(components, rotations), j, NamesOf(c)(s))
    ensures s.Product? ==> ProgramNodes(components, rotations)[j].MultiplyCiphertexts?
    ensures s.Masked? ==> ProgramNodes(components, rotations)[j].AddF1MMask?
  {
    hide InputsFor, ProgramNodes, NamesOf, IsInput;
    var nodes := ProgramNodes(components, rotations);
    ComputedIsNoInput(components, slotCount, c, s);
    j :| 0 <= j < k && nodes[j].resultId == NamesOf(c)(s);
    ProducerIs(components, rotations, nodes[j], c, s);
  }

  lemma {:induction false} EmittedUses(
    components: seq<string>, rotations: seq<nat>, slotCount: nat, starts: seq<int>, k: nat)
    requires k < |ProgramNodes(components, rotations)|
    requires var program := EmittedProgram(components, rotations, slotCount, starts);
      forall id | id in ReadIds(program.nodes[k]) :: DefinedBefore(program, k, id)
    ensures var program := EmittedProgram(components, rotations, slotCount, starts);
      UsesOk(program, None, k, program.nodes[k])
  {
    hide InputsFor, ProgramNodes, NamesOf, IsInput, InputWith, DefinedBefore, ResultIds, NodesOf;
    var program := EmittedProgram(components, rotations, slotCount, starts);
    var node := program.nodes[k];
    var c := ProgramEmits(components, rotations, node);
    var s, reduced :| EmittedNode(node, NamesOf(c), rotations, s, reduced);
    RoleIsOfName(components, slotCount, c);
    match node {
      case MultiplyCiphertexts(_, left, right) =>
      case Relinearize(_, source) =>
        var j := NameAvailable(components, rotations, slotCount, starts, k, c, Product);
      case Rotate(_, source, logical, index) =>
        var j := NameAvailable(components, rotations, slotCount, starts, k, c, reduced);
        EntryListed(rotations, s.rotation);
      case MultiplyPlaintextMask(_, source, maskId) =>
        var j := NameAvailable(components, rotations, slotCount, starts, k, c, reduced);
        assert program.masks[0].maskName == SEGMENT_STARTS;
      case AddCiphertexts(_, left, right) =>
        var j := NameAvailable(components, rotations, slotCount, starts, k, c, reduced);
        var r :| r in rotations && right == NamesOf(c)(Rotated(r));
        var i := NameAvailable(components, rotations, slotCount, starts, k, c, Rotated(r));
      case AddF1MMask(_, source, mask, _) =>
        var j := NameAvailable(components, rotations, slotCount, starts, k, c, Selected);
      case ReturnResult(_, source) =>
        var j := NameAvailable(components, rotations, slotCount, starts, k, c, Masked);
    }
  }

  lemma {:induction false} EntryListed(rotations: seq<nat>, r: int)
    requires r in rotations
    ensures CatalogEntry(r, r) in LadderCatalog(rotations)
  {
    var i :| 0 <= i < |rotations| && rotations[i] == r;
    assert LadderCatalog(rotations)[i] == CatalogEntry(r, r);
  }

  lemma {:induction false} NoNameIsSelection(c: string, s: Suffix)
    ensures NamesOf(c)(s) != SEGMENT_STARTS
  {
    var id := NamesOf(c)(s);
    if s.Rotated? {
      NumberIsDigits(s, 8);
      LastIsDigit(c, s, s.rotation);
    } else if s.Sum? {
      NumberIsDigits(s, 5);
      LastIsDigit(c, s, s.width);
    } else {
      TextShape(s);
      assert id[|id| - 1] == Text(s)[|Text(s)| - 1] && id[|id| - 2] == Text(s)[|Text(s)| - 2];
    }
  }

  lemma {:induction false} LastIsDigit(c: string, s: Suffix, n: nat)
    requires (s.Rotated? && s.rotation == n) || (s.Sum? && s.width == n)
    ensures var id := NamesOf(c)(s); IsDigit(id[|id| - 1])
  {
    NumberedNames(c, n);
  }

  lemma {:induction false} EmittedNodesOk(
    components: seq<string>, rotations: seq<nat>, slotCount: nat, starts: seq<int>, k: nat)
    requires NoRepeat(components) && RotationsFit(rotations)
    requires forall c | c in components :: GoodName(c, 1 + Total(rotations))
    requires k < |ProgramNodes(components, rotations)|
    ensures NodeOk(EmittedProgram(components, rotations, slotCount, starts), None, k)
  {
    hide InputsFor, ProgramNodes, NamesOf, IsInput, UsesOk, DeclaredIds, ResultIds, GoodName, Total, AsciiIdentifier,
      PrintableIdentifier;
    var program := EmittedProgram(components, rotations, slotCount, starts);
    var node := program.nodes[k];
    EmittedOrder(components, rotations, slotCount, starts, k);
    EmittedUses(components, rotations, slotCount, starts, k);
    ShortPrints(node.resultId);
    NodeIsNoSelection(components, rotations, node);
    DeclaredIdsAre(program, node.resultId);
  }

  lemma {:induction false} NodeIsNoSelection(components: seq<string>, rotations: seq<nat>, node: Node)
    requires node in ProgramNodes(components, rotations)
    ensures node.resultId != SEGMENT_STARTS
  {
    hide ProgramNodes, NamesOf, NodesOf;
    var c := ProgramEmits(components, rotations, node);
    var s, reduced :| EmittedNode(node, NamesOf(c), rotations, s, reduced);
    NoNameIsSelection(c, s);
  }

  // ----- consumers, returns and mask uses -----

  function ReturnedSource(node: Node, id: string): nat { if node.ReturnResult? && node.ciphertextId == id then 1 else 0 }

  function AddedMask(node: Node, id: string): nat { if node.AddF1MMask? && node.maskCiphertextId == id then 1 else 0 }

  lemma {:induction false} LastCounts(nodes: seq<Node>, id: string)
    requires nodes != []
    ensures var n := |nodes| - 1;
      && Consumers(nodes, id) == Consumers(nodes[..n], id) + Readings(nodes[n], id)
      && ReturnedSources(nodes)[id] == ReturnedSources(nodes[..n])[id] + ReturnedSource(nodes[n], id)
      && MaskUses(nodes)[id] == MaskUses(nodes[..n])[id] + AddedMask(nodes[n], id)
  {
    hide Readings;
  }

  lemma {:induction false} NoCounts(id: string)
    ensures Consumers([], id) == [] && ReturnedSources([])[id] == 0 == MaskUses([])[id]
  {
  }

  lemma {:induction false} CountsAppend(a: seq<Node>, b: seq<Node>, id: string)
    ensures Consumers(a + b, id) == Consumers(a, id) + Consumers(b, id)
    ensures ReturnedSources(a + b)[id] == ReturnedSources(a)[id] + ReturnedSources(b)[id]
    ensures MaskUses(a + b)[id] == MaskUses(a)[id] + MaskUses(b)[id]
    decreases |b|
  {
    hide Readings, Consumers, ReturnedSources, MaskUses, ReturnedSource, AddedMask;
    if b == [] {
      assert a + b == a;
      NoCounts(id);
    } else {
      var init := b[..|b| - 1];
      assert (a + b)[..|a + b| - 1] == a + init;
      LastCounts(a + b, id);
      LastCounts(b, id);
      CountsAppend(a, init, id);
    }
  }

  // Nodes that neither read, return nor add the id count nothing.
  predicate Ignores(node: Node, id: string) {
    id !in ReadIds(node) && (node.MultiplyPlaintextMask? ==> node.maskId != id)
  }

  lemma {:induction false} IgnoresCountNothing(node: Node, id: string)
    requires Ignores(node, id)
    ensures Readings(node, id) == [] && ReturnedSource(node, id) == 0 == AddedMask(node, id)
  {
  }

  lemma {:induction false} CountsNothing(nodes: seq<Node>, id: string)
    requires forall node | node in nodes :: Ignores(node, id)
    ensures Consumers(nodes, id) == [] && ReturnedSources(nodes)[id] == 0 == MaskUses(nodes)[id]
  {
    hide Readings, Consumers, ReturnedSources, MaskUses, ReturnedSource, AddedMask, Ignores;
    if nodes == [] {
      NoCounts(id);
    } else {
      var last := nodes[|nodes| - 1];
      assert last in nodes;
      CountsNothing(nodes[..|nodes| - 1], id);
      LastCounts(nodes, id);
      IgnoresCountNothing(last, id);
    }
  }

  lemma {:induction false} CountsOne(node: Node, id: string)
    ensures Consumers([node], id) == Readings(node, id)
    ensures ReturnedSources([node])[id] == ReturnedSource(node, id) && MaskUses([node])[id] == AddedMask(node, id)
  {
    hide Readings, Consumers, ReturnedSources, MaskUses, ReturnedSource, AddedMask;
    LastCounts([node], id);
    NoCounts(id);
    assert [node][..0] == [];
  }

  // The nodes of other components do not count an identifier of this one.
  lemma {:induction false} OthersCountNothing(d: string, rotations: seq<nat>, c: string, s: Suffix)
    requires c != d
    ensures var nodes, id := NodesOf(NamesOf(d), rotations), NamesOf(c)(s);
      Consumers(nodes, id) == [] && ReturnedSources(nodes)[id] == 0 == MaskUses(nodes)[id]
  {
    hide NodesOf, NamesOf, Consumers, ReturnedSources, MaskUses;
    var nodes, id := NodesOf(NamesOf(d), rotations), NamesOf(c)(s);
    forall node | node in nodes ensures Ignores(node, id) {
      ComponentEmits(NamesOf(d), rotations, node);
      forall t ensures NamesOf(d)(t) != id {
        if NamesOf(d)(t) == id {
          NamesDisjoint(d, t, c, s);
        }
      }
      NoNameIsSelection(c, s);
    }
    CountsNothing(nodes, id);
  }

  // So the program counts it as its own component does.
  lemma {:induction false} OwnCounts(components: seq<string>, rotations: seq<nat>, c: string, s: Suffix)
    requires NoRepeat(components)
    ensures var all, own, id := ProgramNodes(components, rotations), NodesOf(NamesOf(c), rotations), NamesOf(c)(s);
      if c in components then
        && Consumers(all, id) == Consumers(own, id) && ReturnedSources(all)[id] == ReturnedSources(own)[id]
        && MaskUses(all)[id] == MaskUses(own)[id]
      else Consumers(all, id) == [] && ReturnedSources(all)[id] == 0 == MaskUses(all)[id]
    decreases |components|
  {
    hide NodesOf, NamesOf;
    if components != [] {
      hide Consumers, ReturnedSources, MaskUses;
      var d, rest := components[0], components[1..];
      RestDistinct(components);
      assert c in components <==> c == d || c in rest by { assert components == [d] + rest; }
      CountsAppend(NodesOf(NamesOf(d), rotations), ProgramNodes(rest, rotations), NamesOf(c)(s));
      OwnCounts(rest, rotations, c, s);
      if c != d {
        OthersCountNothing(d, rotations, c, s);
      }
    }
  }

  // The ladder reads partial sums and rotations only.
  lemma {:induction false} LadderCountsNothing(c: string, rotations: seq<nat>, s: Suffix)
    requires !Partial(s) && !s.Rotated?
    ensures var nodes, id := LadderNodes(NamesOf(c), Relin, 1, rotations), NamesOf(c)(s);
      Consumers(nodes, id) == [] && ReturnedSources(nodes)[id] == 0 == MaskUses(nodes)[id]
  {
    hide LadderNodes, NamesOf, Consumers, ReturnedSources, MaskUses;
    var nodes, id := LadderNodes(NamesOf(c), Relin, 1, rotations), NamesOf(c)(s);
    forall node | node in nodes ensures Ignores(node, id) {
      LadderEmits(NamesOf(c), Relin, 1, rotations, rotations, node);
      forall t | t != s ensures NamesOf(c)(t) != id {
        if NamesOf(c)(t) == id {
          NamesDisjoint(c, t, c, s);
        }
      }
    }
    CountsNothing(nodes, id);
  }

  lemma {:induction false} ThreeParts(c: string, rotations: seq<nat>, s: Suffix)
    requires !Partial(s) && !s.Rotated?
    ensures var name, id := NamesOf(c), NamesOf(c)(s);
      var nodes, a, b := NodesOf(name, rotations), Prologue(name), Epilogue(name, LastReduced(Relin, 1, rotations));
      && Consumers(nodes, id)
         == Readings(a[0], id) + Readings(a[1], id) + Readings(b[0], id) + Readings(b[1], id) + Readings(b[2], id)
      && ReturnedSources(nodes)[id] == ReturnedSource(a[0], id) + ReturnedSource(a[1], id) + ReturnedSource(b[0], id)
                                       + ReturnedSource(b[1], id) + ReturnedSource(b[2], id)
      && MaskUses(nodes)[id]
         == AddedMask(a[0], id) + AddedMask(a[1], id) + AddedMask(b[0], id) + AddedMask(b[1], id) + AddedMask(b[2], id)
  {
    hide LadderNodes, NamesOf, Consumers, ReturnedSources, MaskUses, LastReduced, Readings, ReturnedSource, AddedMask, Partial;
    var name, id, last := NamesOf(c), NamesOf(c)(s), LastReduced(Relin, 1, rotations);
    var a, ladder, b := Prologue(name), LadderNodes(name, Relin, 1, rotations), Epilogue(name, last);
    CountsAppend(a + ladder, b, id);
    CountsAppend(a, ladder, id);
    LadderCountsNothing(c, rotations, s);
    assert a == [a[0]] + [a[1]] && b == [b[0]] + [b[1]] + [b[2]];
    CountsAppend([a[0]], [a[1]], id);
    CountsAppend([b[0]] + [b[1]], [b[2]], id);
    CountsAppend([b[0]], [b[1]], id);
    CountsOne(a[0], id);
    CountsOne(a[1], id);
    CountsOne(b[0], id);
    CountsOne(b[1], id);
    CountsOne(b[2], id);
  }

  // Different suffixes give different names, none of them the selection's.
  lemma {:induction false} OwnNamesDiffer(c: string, s: Suffix)
    ensures forall t | t != s :: NamesOf(c)(t) != NamesOf(c)(s)
    ensures NamesOf(c)(s) != SEGMENT_STARTS
  {
    hide NamesOf;
    NoNameIsSelection(c, s);
    forall t | t != s ensures NamesOf(c)(t) != NamesOf(c)(s) {
      if NamesOf(c)(t) == NamesOf(c)(s) {
        NamesDisjoint(c, t, c, s);
      }
    }
  }

  lemma {:induction false} PartDependencies(name: Suffix -> string, last: Suffix)
    ensures var a, b := Prologue(name), Epilogue(name, last);
      && Dependencies(a[0]) == [name(Values), name(Query)] && Dependencies(a[1]) == [name(Product)]
      && Dependencies(b[0]) == [name(last), SEGMENT_STARTS] && Dependencies(b[1]) == [name(Selected), name(F1MMask)]
      && Dependencies(b[2]) == []
  {
  }

  // Inside a component: one product of value and query, one relinearisation of it,
  // one addition of the F1-M mask.
  lemma {:induction false} ComponentConsumes(c: string, rotations: seq<nat>, s: Suffix)
    requires s.Values? || s.Query? || s.F1MMask? || s.Product?
    ensures var nodes, name := NodesOf(NamesOf(c), rotations), NamesOf(c);
      Consumers(nodes, name(s)) == [
        if s.Product? then Prologue(name)[1]
        else if s.F1MMask? then Epilogue(name, LastReduced(Relin, 1, rotations))[1]
        else Prologue(name)[0]]
  {
    hide LadderNodes, NodesOf, NamesOf, Consumers, ReturnedSources, MaskUses, LastReduced, ReturnedSource, AddedMask,
      Dependencies, Prologue, Epilogue;
    LastIsPartial(rotations);
    PartDependencies(NamesOf(c), LastReduced(Relin, 1, rotations));
    OwnNamesDiffer(c, s);
    ThreeParts(c, rotations, s);
  }

  // One return of the blinded result and one use of the F1-M mask.
  lemma {:induction false} ComponentSchedules(c: string, rotations: seq<nat>)
    ensures var nodes, name := NodesOf(NamesOf(c), rotations), NamesOf(c);
      MaskUses(nodes)[name(F1MMask)] == 1 && ReturnedSources(nodes)[name(Masked)] == 1
  {
    hide LadderNodes, NodesOf, NamesOf, Consumers, ReturnedSources, MaskUses, LastReduced, Readings;
    OwnNamesDiffer(c, F1MMask);
    OwnNamesDiffer(c, Masked);
    ThreeParts(c, rotations, F1MMask);
    ThreeParts(c, rotations, Masked);
  }

  lemma {:induction false} EmittedSchedule(
    components: seq<string>, rotations: seq<nat>, slotCount: nat, starts: seq<int>)
    requires NoRepeat(components)
    ensures MasksScheduled(EmittedProgram(components, rotations, slotCount, starts))
  {
    hide InputsFor, ProgramNodes, NodesOf, NamesOf, ReturnedSources, MaskUses, Consumers, ResultIds;
    var program := EmittedProgram(components, rotations, slotCount, starts);
    forall k | 0 <= k < |program.nodes| && program.nodes[k].AddF1MMask?
      ensures ReturnedSources(program.nodes)[program.nodes[k].resultId] == 1
    {
      var c := ProgramEmits(components, rotations, program.nodes[k]);
      var s, reduced :| EmittedNode(program.nodes[k], NamesOf(c), rotations, s, reduced);
      OwnCounts(components, rotations, c, Masked);
      ComponentSchedules(c, rotations);
    }
    forall i | 0 <= i < |program.inputs| && program.inputs[i].role == F1M_ROLE
      ensures MaskUses(program.nodes)[program.inputs[i].inputId] == 1
    {
      InputMember(components, slotCount, program.inputs[i]);
      var c :| c in components && program.inputs[i] in ComponentInputs(c, slotCount);
      OwnCounts(components, rotations, c, F1MMask);
      ComponentSchedules(c, rotations);
    }
  }

  lemma {:induction false} EmittedConsumers(
    components: seq<string>, rotations: seq<nat>, slotCount: nat, starts: seq<int>)
    requires NoRepeat(components)
    ensures ConsumersOk(EmittedProgram(components, rotations, slotCount, starts))
  {
    hide InputsFor, ProgramNodes, NodesOf, NamesOf, ReturnedSources, MaskUses, Consumers, ResultIds;
    var program := EmittedProgram(components, rotations, slotCount, starts);
    forall i | 0 <= i < |program.inputs|
      ensures ConsumedAs(program.inputs[i], Consumers(program.nodes, program.inputs[i].inputId))
    {
      InputMember(components, slotCount, program.inputs[i]);
      var c :| c in components && program.inputs[i] in ComponentInputs(c, slotCount);
      var s := if program.inputs[i].role == F1M_ROLE then F1MMask
        else if program.inputs[i].role == VALUE_ROLE then Values else Query;
      OwnCounts(components, rotations, c, s);
      ComponentConsumes(c, rotations, s);
    }
    forall k | 0 <= k < |program.nodes| && program.nodes[k].MultiplyCiphertexts?
      ensures OneRelinearize(Consumers(program.nodes, program.nodes[k].resultId))
    {
      var c := ProgramEmits(components, rotations, program.nodes[k]);
      var s, reduced :| EmittedNode(program.nodes[k], NamesOf(c), rotations, s, reduced);
      OwnCounts(components, rotations, c, Product);
      ComponentConsumes(c, rotations, Product);
    }
  }

  // ----- liveness -----

  lemma {:induction false} LiveReads(nodes: seq<Node>, live: set<string>, node: Node, id: string, producer: Node)
    requires LiveClosed(nodes, live) && node in nodes && !node.ReturnResult? && node.resultId in live
    requires id in Dependencies(node) && producer in nodes && !producer.ReturnResult? && producer.resultId == id
    ensures id in live
  {
    hide Dependencies;
    var k :| 0 <= k < |nodes| && nodes[k] == node;
    var j :| 0 <= j < |nodes| && nodes[j] == producer;
    assert Computes(nodes, j, id);
  }

  // From its last sum the whole ladder is live, down to what it starts from.
  lemma {:induction false} LadderLive(
    nodes: seq<Node>, live: set<string>, name: Suffix -> string, reduced: Suffix, span: nat, rotations: seq<nat>,
    producer: Node)
    requires LiveClosed(nodes, live) && (forall x | x in LadderNodes(name, reduced, span, rotations) :: x in nodes)
    requires producer in nodes && !producer.ReturnResult? && producer.resultId == name(reduced)
    requires name(LastReduced(reduced, span, rotations)) in live
    ensures name(reduced) in live && forall x | x in LadderNodes(name, reduced, span, rotations) :: x.resultId in live
    decreases |rotations|
  {
    hide LiveClosed, LastReduced;
    if rotations == [] {
      NoneIsLast(reduced, span);
    } else {
      var r, rest := rotations[0], rotations[1..];
      var rotate := Rotate(name(Rotated(r)), name(reduced), r, r);
      var add := AddCiphertexts(name(Sum(span + r)), name(reduced), name(Rotated(r)));
      var tail := LadderNodes(name, Sum(span + r), span + r, rest);
      assert LadderNodes(name, reduced, span, rotations) == [rotate, add] + tail;
      LastUnfolds(reduced, span, rotations);
      LadderLive(nodes, live, name, Sum(span + r), span + r, rest, add);
      LiveReads(nodes, live, add, name(Rotated(r)), rotate);
      LiveReads(nodes, live, add, name(reduced), producer);
    }
  }

  lemma {:induction false} NoneIsLast(reduced: Suffix, span: nat)
    ensures LastReduced(reduced, span, []) == reduced
  {
  }

  lemma {:induction false} LastUnfolds(reduced: Suffix, span: nat, rotations: seq<nat>)
    requires rotations != []
    ensures LastReduced(reduced, span, rotations)
         == LastReduced(Sum(span + rotations[0]), span + rotations[0], rotations[1..])
  {
    assert Total(rotations) == rotations[0] + Total(rotations[1..]);
    assert rotations[1..] == [] ==> Total(rotations[1..]) == 0;
  }

  lemma {:induction false} LastProducer(
    name: Suffix -> string, reduced: Suffix, span: nat, rotations: seq<nat>, producer: Node) returns (last: Node)
    requires producer.resultId == name(reduced) && !producer.ReturnResult?
    ensures last.resultId == name(LastReduced(reduced, span, rotations)) && !last.ReturnResult?
    ensures last == producer || last in LadderNodes(name, reduced, span, rotations)
    decreases |rotations|
  {
    if rotations == [] {
      return producer;
    }
    var r := rotations[0];
    last := LastProducer(
      name, Sum(span + r), span + r, rotations[1..], AddCiphertexts(name(Sum(span + r)), name(reduced), name(Rotated(r))));
  }

  lemma {:induction false} ComponentLive(
    nodes: seq<Node>, live: set<string>, name: Suffix -> string, rotations: seq<nat>)
    requires LiveClosed(nodes, live) && forall x | x in NodesOf(name, rotations) :: x in nodes
    ensures forall x | x in NodesOf(name, rotations) && !x.ReturnResult? :: x.resultId in live
  {
    hide LiveClosed, LadderNodes, LastReduced;
    var a, ladder := Prologue(name), LadderNodes(name, Relin, 1, rotations);
    var b := Epilogue(name, LastReduced(Relin, 1, rotations));
    assert forall x :: x in NodesOf(name, rotations) <==> x in a || x in ladder || x in b;
    assert a[0] in a && a[1] in a && b[0] in b && b[1] in b && b[2] in b;
    ReturnLive(nodes, live, b[2]);
    LiveReads(nodes, live, b[1], name(Selected), b[0]);
    var last := LastProducer(name, Relin, 1, rotations, a[1]);
    LiveReads(nodes, live, b[0], last.resultId, last);
    LadderLive(nodes, live, name, Relin, 1, rotations, a[1]);
    LiveReads(nodes, live, a[1], name(Product), a[0]);
  }

  lemma {:induction false} ReturnLive(nodes: seq<Node>, live: set<string>, node: Node)
    requires LiveClosed(nodes, live) && node in nodes && node.ReturnResult?
    ensures node.ciphertextId in live
  {
  }

  lemma {:induction false} EmittedNothingDead(
    components: seq<string>, rotations: seq<nat>, slotCount: nat, starts: seq<int>)
    requires components != []
    ensures NothingDead(EmittedProgram(components, rotations, slotCount, starts))
  {
    hide InputsFor, ProgramNodes, NodesOf, NamesOf, LiveClosed, DeclaredIds, ResultIds, EmittedBy, IsInput;
    var program := EmittedProgram(components, rotations, slotCount, starts);
    var nodes := program.nodes;
    forall live: set<string>, k | LiveClosed(nodes, live) && 0 <= k < |nodes| && !nodes[k].ReturnResult?
      ensures nodes[k].resultId in live
    {
      var c := ProgramEmits(components, rotations, nodes[k]);
      forall x | x in NodesOf(NamesOf(c), rotations) ensures x in nodes {
        ComponentIncluded(components, rotations, c, x);
      }
      ComponentLive(nodes, live, NamesOf(c), rotations);
    }
    forall id | id in DeclaredIds(program.inputs, program.masks)
      ensures ReadSomewhere(nodes, id)
    {
      DeclaredIdsAre(program, id);
      if IsInput(program.inputs, id) {
        InputIdIs(components, slotCount, id);
        var c, s :| c in components && !Computed(s) && id == NamesOf(c)(s);
        OperandRead(components, rotations, c, s);
      } else {
        SelectionRead(components, rotations);
      }
    }
  }

  ghost predicate ReadSomewhere(nodes: seq<Node>, id: string) {
    exists k :: 0 <= k < |nodes| && id in Dependencies(nodes[k])
  }

  lemma {:induction false} OperandRead(components: seq<string>, rotations: seq<nat>, c: string, s: Suffix)
    requires c in components && !Computed(s)
    ensures ReadSomewhere(ProgramNodes(components, rotations), NamesOf(c)(s))
  {
    hide NamesOf, ProgramNodes, LadderNodes, LastReduced;
    var name := NamesOf(c);
    var node := if s.F1MMask? then Epilogue(name, LastReduced(Relin, 1, rotations))[1] else Prologue(name)[0];
    ComponentIncluded(components, rotations, c, node);
    var k :| 0 <= k < |ProgramNodes(components, rotations)| && ProgramNodes(components, rotations)[k] == node;
    assert NamesOf(c)(s) in Dependencies(node);
  }

  lemma {:induction false} SelectionRead(components: seq<string>, rotations: seq<nat>)
    requires components != []
    ensures ReadSomewhere(ProgramNodes(components, rotations), SEGMENT_STARTS)
  {
    hide NamesOf, ProgramNodes, LadderNodes, LastReduced;
    var name := NamesOf(components[0]);
    var node := Epilogue(name, LastReduced(Relin, 1, rotations))[0];
    ComponentIncluded(components, rotations, components[0], node);
    var k :| 0 <= k < |ProgramNodes(components, rotations)| && ProgramNodes(components, rotations)[k] == node;
    assert SEGMENT_STARTS in Dependencies(node);
  }

  // ----- operands -----

  lemma {:induction false} EmittedIdsApart(components: seq<string>, length: nat)
    requires NoRepeat(components)
    ensures NoRepeat(DeclaredIds(InputsFor(components, length), []))
    decreases |components|
  {
    hide NamesOf, InputsFor;
    var ids := DeclaredIds(InputsFor(components, length), []);
    if components == [] {
      NoInputs(length);
    } else {
      var c, rest := components[0], components[1..];
      var restIds := DeclaredIds(InputsFor(rest, length), []);
      var own := [NamesOf(c)(Values), NamesOf(c)(Query), NamesOf(c)(F1MMask)];
      RestDistinct(components);
      EmittedIdsApart(rest, length);
      OwnNamesDiffer(c, Values);
      OwnNamesDiffer(c, Query);
      FirstInputs(components, length);
      forall x | x in own ensures x !in restIds {
        OwnNotInRest(rest, length, c, if x == own[0] then Values else if x == own[1] then Query else F1MMask);
      }
      NoRepeatAppend(own, restIds);
    }
  }

  lemma {:induction false} NoInputs(length: nat)
    ensures DeclaredIds(InputsFor([], length), []) == []
  {
  }

  lemma {:induction false} FirstInputs(components: seq<string>, length: nat)
    requires components != []
    ensures DeclaredIds(InputsFor(components, length), [])
      == [NamesOf(components[0])(Values), NamesOf(components[0])(Query), NamesOf(components[0])(F1MMask)]
         + DeclaredIds(InputsFor(components[1..], length), [])
  {
    hide NamesOf;
  }

  lemma {:induction false} OwnNotInRest(rest: seq<string>, length: nat, c: string, s: Suffix)
    requires c !in rest && !Computed(s)
    ensures NamesOf(c)(s) !in DeclaredIds(InputsFor(rest, length), [])
  {
    hide NamesOf, InputsFor;
    var ids, id := DeclaredIds(InputsFor(rest, length), []), NamesOf(c)(s);
    if id in ids {
      var i :| 0 <= i < |ids| && ids[i] == id;
      assert InputsFor(rest, length)[i].inputId == id;
      InputIdIs(rest, length, id);
      var d, t :| d in rest && !Computed(t) && id == NamesOf(d)(t);
      NamesDisjoint(c, s, d, t);
    }
  }

  lemma {:induction false} EmittedOperands(
    components: seq<string>, rotations: seq<nat>, slotCount: nat, starts: seq<int>)
    requires NoRepeat(components) && 0 < slotCount == |starts| && forall v | v in starts :: v == 0 || v == 1
    requires forall c | c in components :: GoodName(c, 1 + Total(rotations))
    ensures OperandsOk(EmittedProgram(components, rotations, slotCount, starts))
  {
    hide NamesOf, InputsFor, GoodName, Total, ProgramNodes, ResultIds, AsciiIdentifier;
    var program := EmittedProgram(components, rotations, slotCount, starts);
    forall i | 0 <= i < |program.inputs| ensures InputOk(program.inputs[i], slotCount) {
      InputMember(components, slotCount, program.inputs[i]);
      var c :| c in components && program.inputs[i] in ComponentInputs(c, slotCount);
      NamesAscii(c, 1 + Total(rotations));
    }
    SelectionAscii();
    EmittedIdsApart(components, slotCount);
    var inputIds := DeclaredIds(program.inputs, []);
    assert DeclaredIds(program.inputs, program.masks) == inputIds + [SEGMENT_STARTS];
    forall x | x in inputIds ensures x !in [SEGMENT_STARTS] {
      var i :| 0 <= i < |inputIds| && inputIds[i] == x;
      assert program.inputs[i].inputId == x;
      InputIdIs(components, slotCount, x);
      var c, s :| c in components && !Computed(s) && x == NamesOf(c)(s);
      NoNameIsSelection(c, s);
    }
    NoRepeatAppend(inputIds, [SEGMENT_STARTS]);
  }

  lemma {:induction false} NamesAscii(c: string, total: nat)
    requires GoodName(c, total)
    ensures AsciiIdentifier(NamesOf(c)(Values)) && AsciiIdentifier(NamesOf(c)(Query)) && AsciiIdentifier(NamesOf(c)(F1MMask))
  {
    hide NamesOf, AsciiIdentifier, PrintableIdentifier, GoodName;
    GoodNamePrints(c, total);
    ShortPrints(NamesOf(c)(Values));
    ShortPrints(NamesOf(c)(Query));
    ShortPrints(NamesOf(c)(F1MMask));
  }

  lemma {:induction false} SelectionAscii()
    ensures AsciiIdentifier(SEGMENT_STARTS)
  {
  }

  lemma {:induction false} LadderCatalogOk(rotations: seq<nat>, last: nat)
    requires AscendingRotations(rotations, last)
    ensures forall i, j | 0 <= i < j < |rotations| :: rotations[i] < rotations[j]
    ensures forall i | 0 <= i < |rotations| :: last < rotations[i]
    decreases |rotations|
  {
    if rotations != [] {
      LadderCatalogOk(rotations[1..], rotations[0]);
      assert forall i | 0 < i < |rotations| :: rotations[i] == rotations[1..][i - 1];
    }
  }

  // For any components and ascending rotations, the emitted program is accepted.
  lemma {:induction false} EmittedIsAccepted(
    components: seq<string>, rotations: seq<nat>, slotCount: nat, starts: seq<int>)
    requires components != [] && NoRepeat(components) && RotationsFit(rotations)
    requires forall c | c in components :: GoodName(c, 1 + Total(rotations))
    requires 0 < slotCount == |starts| && forall v | v in starts :: v == 0 || v == 1
    ensures Admitted(EmittedProgram(components, rotations, slotCount, starts), None)
  {
    hide NamesOf, InputsFor, GoodName, Total, ProgramNodes, ResultIds, NodeOk, OperandsOk, MasksScheduled, ConsumersOk,
      NothingDead;
    var program := EmittedProgram(components, rotations, slotCount, starts);
    EmittedOperands(components, rotations, slotCount, starts);
    LadderCatalogOk(rotations, 0);
    forall k | 0 <= k < |program.nodes| ensures NodeOk(program, None, k) {
      EmittedNodesOk(components, rotations, slotCount, starts, k);
    }
    EmittedRuns(components, rotations, slotCount);
    EmittedSchedule(components, rotations, slotCount, starts);
    EmittedConsumers(components, rotations, slotCount, starts);
    EmittedNothingDead(components, rotations, slotCount, starts);
  }
}
