// The static validator itself: its tables, its loops and its worklist, decided
// against the rules of a program.
module Validator {
  import opened Outcomes
  import opened Sequences
  import opened CloudProgram
  import opened RotationKeys
  import opened RowConfinement
  import opened ProgramRules

  const COMPUTED_ROLE := "computed"

  // Ids declared so far, lengths and roles of the ciphertexts among them, lengths
  // of the masks, and the computation behind each result.
  datatype Tables = Tables(
    declared: set<string>, lengths: map<string, int>, roles: map<string, string>, maskLengths: map<string, int>,
    nodeOf: map<string, Node>)

  // ----- catalog and operands -----

  method ValidatePublicCatalog(catalog: seq<CatalogEntry>) returns (r: Option<map<int, int>>)
    ensures r.Some? <==> PublicCatalogOk(catalog)
    ensures r.Some? ==> forall l, x :: (l in r.value && r.value[l] == x) <==> CatalogEntry(l, x) in catalog
  {
    var rotations: map<int, int> := map[];
    for i := 0 to |catalog|
      invariant PublicCatalogOk(catalog[..i])
      invariant forall l :: l in rotations <==> exists j :: 0 <= j < i && catalog[j].logicalShift == l
      invariant forall j | 0 <= j < i :: rotations[catalog[j].logicalShift] == catalog[j].openfheIndex
    {
      var e := catalog[i];
      if e.logicalShift == 0 || e.openfheIndex == 0 || e.logicalShift in rotations {
        return None;
      }
      rotations := rotations[e.logicalShift := e.openfheIndex];
    }
    assert catalog[..|catalog|] == catalog;
    forall l, x ensures (l in rotations && rotations[l] == x) <==> CatalogEntry(l, x) in catalog {
      if l in rotations {
        var j :| 0 <= j < |catalog| && catalog[j].logicalShift == l;
        assert catalog[j] == CatalogEntry(l, rotations[l]);
      }
    }
    return Some(rotations);
  }

  ghost predicate TracksDeclared(program: Program, k: nat, declared: set<string>)
    requires k <= |program.nodes|
  {
    forall id :: id in declared <==>
      id in DeclaredIds(program.inputs, program.masks) || exists j | 0 <= j < k :: program.nodes[j].resultId == id
  }

  ghost predicate TracksCiphertexts(program: Program, k: nat, t: Tables)
    requires k <= |program.nodes|
  {
    && (forall id :: id in t.lengths <==> Available(program, k, id))
    && (forall id | id in t.lengths :: t.lengths[id] == program.slotCount)
    && t.roles.Keys == t.lengths.Keys
    && (forall i | 0 <= i < |program.inputs| ::
         program.inputs[i].inputId in t.roles && t.roles[program.inputs[i].inputId] == program.inputs[i].role)
    && (forall j | 0 <= j < k && !program.nodes[j].ReturnResult? ::
         program.nodes[j].resultId in t.roles && t.roles[program.nodes[j].resultId] == COMPUTED_ROLE)
  }

  ghost predicate TracksMasks(program: Program, t: Tables) {
    && (forall id :: id in t.maskLengths <==> IsMask(program.masks, id))
    && (forall id | id in t.maskLengths :: t.maskLengths[id] == program.slotCount)
  }

  ghost predicate TracksNodes(program: Program, k: nat, nodeOf: map<string, Node>)
    requires k <= |program.nodes|
  {
    && (forall id :: id in nodeOf <==> exists j | 0 <= j < k :: Computes(program.nodes, j, id))
    && (forall j | 0 <= j < k && !program.nodes[j].ReturnResult? ::
         program.nodes[j].resultId in nodeOf && nodeOf[program.nodes[j].resultId] == program.nodes[j])
  }

  // The tables when the first k nodes have been accepted.
  ghost predicate Tracks(program: Program, k: nat, t: Tables)
    requires k <= |program.nodes|
  {
    && TracksDeclared(program, k, t.declared) && TracksCiphertexts(program, k, t)
    && TracksMasks(program, t) && TracksNodes(program, k, t.nodeOf)
  }

  // The tables after the first inputs and masks.
  ghost predicate Declares(inputs: seq<CiphertextInput>, masks: seq<PublicMask>, slotCount: int, t: Tables) {
    && (forall id :: id in t.declared <==> id in DeclaredIds(inputs, masks))
    && (forall id :: id in t.lengths <==> IsInput(inputs, id))
    && (forall id | id in t.lengths :: t.lengths[id] == slotCount)
    && t.roles.Keys == t.lengths.Keys
    && (forall i | 0 <= i < |inputs| :: inputs[i].inputId in t.roles && t.roles[inputs[i].inputId] == inputs[i].role)
    && (forall id :: id in t.maskLengths <==> IsMask(masks, id))
    && (forall id | id in t.maskLengths :: t.maskLengths[id] == slotCount)
    && t.nodeOf == map[]
  }

  lemma {:induction false} OneMoreOperandId(
    inputs: seq<CiphertextInput>, masks: seq<PublicMask>, longerInputs: seq<CiphertextInput>,
    longerMasks: seq<PublicMask>, id: string)
    requires
      || (longerMasks == masks == [] && |longerInputs| == |inputs| + 1 && longerInputs[..|inputs|] == inputs
          && longerInputs[|inputs|].inputId == id)
      || (longerInputs == inputs && |longerMasks| == |masks| + 1 && longerMasks[..|masks|] == masks
          && longerMasks[|masks|].maskName == id)
    ensures DeclaredIds(longerInputs, longerMasks) == DeclaredIds(inputs, masks) + [id]
    ensures NoRepeat(DeclaredIds(longerInputs, longerMasks)) <==>
      NoRepeat(DeclaredIds(inputs, masks)) && id !in DeclaredIds(inputs, masks)
  {
    var ids, longer := DeclaredIds(inputs, masks), DeclaredIds(longerInputs, longerMasks);
    assert longer == ids + [id];
    RepeatsOnce(ids, id);
  }

  lemma {:induction false} RepeatsOnce(ids: seq<string>, id: string)
    ensures NoRepeat(ids + [id]) <==> NoRepeat(ids) && id !in ids
  {
    var longer := ids + [id];
    if NoRepeat(longer) {
      forall i, j | 0 <= i < j < |ids| ensures ids[i] != ids[j] {
        assert longer[i] != longer[j];
      }
      forall i | 0 <= i < |ids| ensures ids[i] != id {
        assert longer[i] != longer[|ids|];
      }
    }
  }

  method DeclareInputs(inputs: seq<CiphertextInput>, slotCount: int) returns (r: Option<Tables>)
    ensures slotCount > 0 ==> (r.Some? <==>
      && (forall i | 0 <= i < |inputs| :: InputOk(inputs[i], slotCount)) && NoRepeat(DeclaredIds(inputs, [])))
    ensures r.Some? ==> Declares(inputs, [], slotCount, r.value)
  {
    hide AsciiIdentifier, DeclaredIds, NoRepeat, Declares;
    var t := Tables({}, map[], map[], map[], map[]);
    NoOperands(slotCount);
    for k := 0 to |inputs|
      invariant forall i | 0 <= i < k :: InputOk(inputs[i], slotCount)
      invariant NoRepeat(DeclaredIds(inputs[..k], [])) && Declares(inputs[..k], [], slotCount, t)
    {
      var input := inputs[k];
      OneMoreOperandId(inputs[..k], [], inputs[..k + 1], [], input.inputId);
      assert input.inputId in t.declared <==> input.inputId in DeclaredIds(inputs[..k], []) by {
        DeclaredAreOperands(inputs[..k], [], slotCount, t, input.inputId);
      }
      if !AsciiIdentifier(input.inputId) || input.inputId in t.declared
         || input.role !in {VALUE_ROLE, QUERY_ROLE, F1M_ROLE} || input.length <= 0 || input.length != slotCount {
        RefusedPrefix(inputs, k, slotCount);
        return None;
      }
      DeclaresMore(inputs[..k], t, input);
      assert inputs[..k] + [input] == inputs[..k + 1];
      t := t.(declared := t.declared + {input.inputId}, lengths := t.lengths[input.inputId := input.length],
              roles := t.roles[input.inputId := input.role]);
    }
    assert inputs[..|inputs|] == inputs;
    return Some(t);
  }

  lemma {:induction false} DeclaredAreOperands(
    inputs: seq<CiphertextInput>, masks: seq<PublicMask>, slotCount: int, t: Tables, id: string)
    requires Declares(inputs, masks, slotCount, t)
    ensures id in t.declared <==> id in DeclaredIds(inputs, masks)
  {
  }

  lemma {:induction false} DeclaresMore(inputs: seq<CiphertextInput>, t: Tables, input: CiphertextInput)
    requires Declares(inputs, [], input.length, t) && input.inputId !in DeclaredIds(inputs, [])
    ensures Declares(inputs + [input], [], input.length,
      t.(declared := t.declared + {input.inputId}, lengths := t.lengths[input.inputId := input.length],
         roles := t.roles[input.inputId := input.role]))
  {
    hide DeclaredIds;
    var longer := inputs + [input];
    OneMoreOperandId(inputs, [], longer, [], input.inputId);
    forall id ensures IsInput(longer, id) <==> IsInput(inputs, id) || id == input.inputId {
      assert longer[|inputs|] == input;
      if i :| 0 <= i < |inputs| && inputs[i].inputId == id {
        assert longer[i] == inputs[i];
      }
    }
    forall i | 0 <= i < |inputs| ensures inputs[i].inputId != input.inputId {
      InputIdIsOperand(inputs, [], i);
    }
  }

  lemma {:induction false} InputIdIsOperand(inputs: seq<CiphertextInput>, masks: seq<PublicMask>, i: nat)
    requires i < |inputs|
    ensures inputs[i].inputId in DeclaredIds(inputs, masks)
  {
    assert DeclaredIds(inputs, masks)[i] == inputs[i].inputId;
  }

  lemma {:induction false} NoOperands(slotCount: int)
    ensures DeclaredIds([], []) == [] && NoRepeat<string>([])
    ensures Declares([], [], slotCount, Tables({}, map[], map[], map[], map[]))
  {
  }

  lemma {:induction false} RefusedPrefix(inputs: seq<CiphertextInput>, k: nat, slotCount: int)
    requires k < |inputs|
    ensures NoRepeat(DeclaredIds(inputs, [])) ==> NoRepeat(DeclaredIds(inputs[..k + 1], []))
  {
    var ids, all := DeclaredIds(inputs[..k + 1], []), DeclaredIds(inputs, []);
    assert forall i | 0 <= i < |ids| :: ids[i] == all[i];
  }

  method DeclareMasks(inputs: seq<CiphertextInput>, masks: seq<PublicMask>, slotCount: int, declared: Tables)
    returns (r: Option<Tables>)
    requires slotCount > 0 && NoRepeat(DeclaredIds(inputs, [])) && Declares(inputs, [], slotCount, declared)
    ensures r.Some? <==>
      && (forall i | 0 <= i < |masks| :: PublicMaskOk(masks[i], slotCount)) && NoRepeat(DeclaredIds(inputs, masks))
    ensures r.Some? ==> Declares(inputs, masks, slotCount, r.value)
  {
    hide AsciiIdentifier, DeclaredIds, NoRepeat, Declares;
    var t := declared;
    for k := 0 to |masks|
      invariant forall i | 0 <= i < k :: PublicMaskOk(masks[i], slotCount)
      invariant NoRepeat(DeclaredIds(inputs, masks[..k])) && Declares(inputs, masks[..k], slotCount, t)
    {
      var mask := masks[k];
      OneMoreOperandId(inputs, masks[..k], inputs, masks[..k + 1], mask.maskName);
      assert mask.maskName in t.declared <==> mask.maskName in DeclaredIds(inputs, masks[..k]) by {
        DeclaredAreOperands(inputs, masks[..k], slotCount, t, mask.maskName);
      }
      if !AsciiIdentifier(mask.maskName) || mask.maskName in t.declared || mask.role != SELECTION_ROLE
         || mask.length <= 0 || mask.length != slotCount || |mask.values| != mask.length
         || exists v | v in mask.values :: v != 0 && v != 1 {
        RefusedMask(inputs, masks, k);
        return None;
      }
      DeclaresMask(inputs, masks[..k], t, mask);
      assert masks[..k] + [mask] == masks[..k + 1];
      t := t.(declared := t.declared + {mask.maskName}, maskLengths := t.maskLengths[mask.maskName := mask.length]);
    }
    assert masks[..|masks|] == masks;
    return Some(t);
  }

  lemma {:induction false} DeclaresMask(
    inputs: seq<CiphertextInput>, masks: seq<PublicMask>, t: Tables, mask: PublicMask)
    requires Declares(inputs, masks, mask.length, t) && mask.maskName !in DeclaredIds(inputs, masks)
    ensures Declares(inputs, masks + [mask], mask.length,
      t.(declared := t.declared + {mask.maskName}, maskLengths := t.maskLengths[mask.maskName := mask.length]))
  {
    hide DeclaredIds, IsInput;
    var longer := masks + [mask];
    OneMoreOperandId(inputs, masks, inputs, longer, mask.maskName);
    forall id ensures IsMask(longer, id) <==> IsMask(masks, id) || id == mask.maskName {
      assert longer[|masks|] == mask;
      if i :| 0 <= i < |masks| && masks[i].maskName == id {
        assert longer[i] == masks[i];
      }
    }
  }

  lemma {:induction false} RefusedMask(inputs: seq<CiphertextInput>, masks: seq<PublicMask>, k: nat)
    requires k < |masks|
    ensures NoRepeat(DeclaredIds(inputs, masks)) ==> NoRepeat(DeclaredIds(inputs, masks[..k + 1]))
  {
    var ids, all := DeclaredIds(inputs, masks[..k + 1]), DeclaredIds(inputs, masks);
    assert forall i | 0 <= i < |ids| :: ids[i] == all[i];
  }

  // ----- the nodes -----

  lemma {:induction false} TracksNone(program: Program, t: Tables)
    requires Declares(program.inputs, program.masks, program.slotCount, t)
    ensures Tracks(program, 0, t) && t.nodeOf == map[]
  {
    hide DeclaredIds, IsInput, IsMask;
  }

  // An available ciphertext has a role exactly when an input of that role has its id.
  lemma {:induction false} RoleIs(program: Program, k: nat, t: Tables, id: string, role: string)
    requires k <= |program.nodes| && Tracks(program, k, t) && role in {VALUE_ROLE, QUERY_ROLE, F1M_ROLE}
    ensures InputWith(program.inputs, id, role) <==> id in t.roles && t.roles[id] == role
  {
    hide DeclaredIds, IsMask;
    if id in t.roles && t.roles[id] == role {
      assert Available(program, k, id);
    }
  }

  predicate Refers(t: Tables, id: string) { AsciiIdentifier(id) && id in t.lengths }

  // The reads of one node, checked against the tables.
  method CheckUses(
    program: Program, required: Option<set<string>>, rotations: map<int, int>, k: nat, t: Tables)
    returns (ok: bool)
    requires k < |program.nodes| && Tracks(program, k, t)
    requires forall l, x :: (l in rotations && rotations[l] == x) <==> CatalogEntry(l, x) in program.catalog
    requires PublicCatalogOk(program.catalog)
    requires forall id | id in t.lengths || id in t.maskLengths :: AsciiIdentifier(id)
    ensures ok <==> UsesOk(program, required, k, program.nodes[k])
  {
    hide AsciiIdentifier, DeclaredIds, Available, InputWith, IsMask;
    match program.nodes[k]
    case MultiplyCiphertexts(_, left, right) =>
      forall id, role | role in {VALUE_ROLE, QUERY_ROLE}
        ensures InputWith(program.inputs, id, role) <==> id in t.roles && t.roles[id] == role
      {
        RoleIs(program, k, t, id, role);
      }
      return Refers(t, left) && Refers(t, right) && t.lengths[left] == t.lengths[right]
        && {t.roles[left], t.roles[right]} == {QUERY_ROLE, VALUE_ROLE};
    case Relinearize(_, source) =>
      return Refers(t, source) && source in t.nodeOf && t.nodeOf[source].MultiplyCiphertexts?;
    case Rotate(_, source, logical, index) =>
      return Refers(t, source) && logical != 0 && index != 0 && logical in rotations && rotations[logical] == index;
    case MultiplyPlaintextMask(_, source, maskId) =>
      return Refers(t, source) && AsciiIdentifier(maskId) && maskId in t.maskLengths
        && t.maskLengths[maskId] == t.lengths[source];
    case AddCiphertexts(_, left, right) =>
      return Refers(t, left) && Refers(t, right) && t.lengths[left] == t.lengths[right];
    case AddF1MMask(_, source, mask, role) =>
      RoleIs(program, k, t, mask, F1M_ROLE);
      return Refers(t, source) && Refers(t, mask) && t.roles[mask] == F1M_ROLE && role == OPAQUE_ZERO_SUM
        && t.lengths[source] == t.lengths[mask];
    case ReturnResult(id, source) =>
      if !Refers(t, source) || source !in t.nodeOf {
        return false;
      }
      return Returnable(t.nodeOf[source], MaskRequired(required, id));
  }

  // The tables when the node has been accepted; a return defines no ciphertext.
  function WithNode(t: Tables, node: Node, length: int): Tables {
    var declared := t.(declared := t.declared + {node.resultId});
    if node.ReturnResult? then declared
    else
      declared.(lengths := t.lengths[node.resultId := length], roles := t.roles[node.resultId := COMPUTED_ROLE],
                nodeOf := t.nodeOf[node.resultId := node])
  }

  lemma {:induction false} TracksMore(program: Program, k: nat, t: Tables)
    requires k < |program.nodes| && Tracks(program, k, t) && NewId(program, k, program.nodes[k].resultId)
    ensures Tracks(program, k + 1, WithNode(t, program.nodes[k], program.slotCount))
  {
    hide DeclaredIds, AsciiIdentifier, IsMask, Available, Computes;
    var node, next := program.nodes[k], WithNode(t, program.nodes[k], program.slotCount);
    CiphertextsMore(program, k, t);
    NodesMore(program, k, t.nodeOf);
    forall id ensures id in next.declared <==>
      id in DeclaredIds(program.inputs, program.masks) || exists j | 0 <= j < k + 1 :: program.nodes[j].resultId == id
    {
      OneMoreNode(program, k, id);
    }
  }

  lemma {:induction false} CiphertextsMore(program: Program, k: nat, t: Tables)
    requires k < |program.nodes| && TracksCiphertexts(program, k, t) && NewId(program, k, program.nodes[k].resultId)
    ensures TracksCiphertexts(program, k + 1, WithNode(t, program.nodes[k], program.slotCount))
  {
    hide DeclaredIds, AsciiIdentifier, IsInput, Available;
    var node, next := program.nodes[k], WithNode(t, program.nodes[k], program.slotCount);
    forall i | 0 <= i < |program.inputs| ensures program.inputs[i].inputId != node.resultId {
      InputIdIsOperand(program.inputs, program.masks, i);
    }
    forall id ensures id in next.lengths <==> Available(program, k + 1, id) {
      MoreAvailable(program, k, id);
    }
  }

  lemma {:induction false} MoreAvailable(program: Program, k: nat, id: string)
    requires k < |program.nodes|
    ensures Available(program, k + 1, id) <==> Available(program, k, id) || Computes(program.nodes, k, id)
  {
    hide IsInput, Computes;
    OneMoreNode(program, k, id);
  }

  lemma {:induction false} NodesMore(program: Program, k: nat, nodeOf: map<string, Node>)
    requires k < |program.nodes| && TracksNodes(program, k, nodeOf) && NewId(program, k, program.nodes[k].resultId)
    ensures TracksNodes(program, k + 1,
      if program.nodes[k].ReturnResult? then nodeOf else nodeOf[program.nodes[k].resultId := program.nodes[k]])
  {
    hide DeclaredIds, AsciiIdentifier;
    var node := program.nodes[k];
    var next := if node.ReturnResult? then nodeOf else nodeOf[node.resultId := node];
    forall id ensures id in next <==> exists j | 0 <= j < k + 1 :: Computes(program.nodes, j, id) {
      OneMoreNode(program, k, id);
    }
  }

  lemma {:induction false} OneMoreNode(program: Program, k: nat, id: string)
    requires k < |program.nodes|
    ensures (exists j | 0 <= j < k + 1 :: Computes(program.nodes, j, id))
       <==> (exists j | 0 <= j < k :: Computes(program.nodes, j, id)) || Computes(program.nodes, k, id)
    ensures (exists j | 0 <= j < k + 1 :: program.nodes[j].resultId == id)
       <==> (exists j | 0 <= j < k :: program.nodes[j].resultId == id) || program.nodes[k].resultId == id
  {
  }

  lemma {:induction false} TablesAscii(program: Program, required: Option<set<string>>, k: nat, t: Tables)
    requires OperandsOk(program) && k <= |program.nodes| && Tracks(program, k, t)
    requires forall j | 0 <= j < k :: NodeOk(program, required, j)
    ensures forall id | id in t.lengths || id in t.maskLengths :: AsciiIdentifier(id)
  {
    hide DeclaredIds, AsciiIdentifier, UsesOk;
    forall id | id in t.lengths ensures AsciiIdentifier(id) {
      if i :| 0 <= i < |program.inputs| && program.inputs[i].inputId == id {
        assert InputOk(program.inputs[i], program.slotCount);
      } else {
        var j :| 0 <= j < k && Computes(program.nodes, j, id);
        assert NodeOk(program, required, j);
      }
    }
    forall id | id in t.maskLengths ensures AsciiIdentifier(id) {
      var i :| 0 <= i < |program.masks| && program.masks[i].maskName == id;
      assert PublicMaskOk(program.masks[i], program.slotCount);
    }
  }

  // How often each blinded result has been returned so far.
  ghost predicate CountsReturns(sources: multiset<string>, nodeOf: map<string, Node>, counted: multiset<string>) {
    && (forall id :: counted[id] == if id in nodeOf && nodeOf[id].AddF1MMask? then sources[id] else 0)
    && forall id | sources[id] > 0 :: id in nodeOf
  }

  lemma {:induction false} CountsReturn(
    sources: multiset<string>, nodeOf: map<string, Node>, counted: multiset<string>, id: string)
    requires CountsReturns(sources, nodeOf, counted) && id in nodeOf
    ensures CountsReturns(
      sources + multiset{id}, nodeOf, if nodeOf[id].AddF1MMask? then counted + multiset{id} else counted)
  {
  }

  lemma {:induction false} CountsComputation(
    sources: multiset<string>, nodeOf: map<string, Node>, counted: multiset<string>, node: Node)
    requires CountsReturns(sources, nodeOf, counted) && node.resultId !in nodeOf
    ensures CountsReturns(sources, nodeOf[node.resultId := node], counted)
  {
  }

  lemma {:induction false} CountsMore(
    program: Program, required: Option<set<string>>, k: nat, t: Tables, counted: multiset<string>)
    requires k < |program.nodes| && Tracks(program, k, t) && NodeOk(program, required, k)
    requires CountsReturns(ReturnedSources(program.nodes[..k]), t.nodeOf, counted)
    ensures var node := program.nodes[k];
      CountsReturns(ReturnedSources(program.nodes[..k + 1]), WithNode(t, node, program.slotCount).nodeOf,
        if node.ReturnResult? && node.ciphertextId in t.nodeOf && t.nodeOf[node.ciphertextId].AddF1MMask?
        then counted + multiset{node.ciphertextId} else counted)
  {
    hide Tracks, NodeOk, ReturnedSources, CountsReturns;
    var node, sources := program.nodes[k], ReturnedSources(program.nodes[..k]);
    NewIsUntracked(program, required, k, t);
    assert program.nodes[..k + 1][..k] == program.nodes[..k] && program.nodes[..k + 1][k] == node;
    OneMoreReturn(program.nodes[..k + 1]);
    if node.ReturnResult? {
      CountsReturn(sources, t.nodeOf, counted, node.ciphertextId);
    } else {
      CountsComputation(sources, t.nodeOf, counted, node);
      assert sources + multiset{} == sources;
    }
  }

  lemma {:induction false} OneMoreReturn(nodes: seq<Node>)
    requires nodes != []
    ensures var last := nodes[|nodes| - 1];
      ReturnedSources(nodes)
      == ReturnedSources(nodes[..|nodes| - 1]) + if last.ReturnResult? then multiset{last.ciphertextId} else multiset{}
  {
  }

  // A new id is no result yet; what a node returns is one.
  lemma {:induction false} NewIsUntracked(program: Program, required: Option<set<string>>, k: nat, t: Tables)
    requires k < |program.nodes| && Tracks(program, k, t) && NodeOk(program, required, k)
    ensures program.nodes[k].resultId !in t.nodeOf
    ensures program.nodes[k].ReturnResult? ==> program.nodes[k].ciphertextId in t.nodeOf
  {
    hide DeclaredIds, IsMask, AsciiIdentifier, IsInput, InputWith, Available;
  }

  // The loop over the nodes.
  method ValidateNodes(
    program: Program, required: Option<set<string>>, rotations: map<int, int>, start: Tables)
    returns (r: Option<Tables>, returned: seq<string>, f1mReturns: multiset<string>)
    requires OperandsOk(program) && PublicCatalogOk(program.catalog) && Tracks(program, 0, start) && start.nodeOf == map[]
    requires forall l, x :: (l in rotations && rotations[l] == x) <==> CatalogEntry(l, x) in program.catalog
    ensures r.Some? <==> forall k | 0 <= k < |program.nodes| :: NodeOk(program, required, k)
    ensures r.Some? ==> Tracks(program, |program.nodes|, r.value) && returned == ReturnIds(program.nodes)
    ensures r.Some? ==> CountsReturns(ReturnedSources(program.nodes), r.value.nodeOf, f1mReturns)
  {
    hide OperandsOk, PublicCatalogOk, Tracks, AsciiIdentifier, UsesOk, WithNode, CountsReturns, NewId, ReturnIds,
      ReturnedSources;
    var t := start;
    returned, f1mReturns := [], multiset{};
    NothingReturned(program, t);
    for k := 0 to |program.nodes|
      invariant forall j | 0 <= j < k :: NodeOk(program, required, j)
      invariant Tracks(program, k, t) && returned == ReturnIds(program.nodes[..k])
      invariant CountsReturns(ReturnedSources(program.nodes[..k]), t.nodeOf, f1mReturns)
    {
      var node := program.nodes[k];
      TablesAscii(program, required, k, t);
      var ok := CheckUses(program, required, rotations, k, t);
      DeclaredIsTaken(program, k, t, node.resultId);
      if !ok || !AsciiIdentifier(node.resultId) || node.resultId in t.declared {
        assert !NodeOk(program, required, k);
        return None, returned, f1mReturns;
      }
      TracksMore(program, k, t);
      CountsMore(program, required, k, t, f1mReturns);
      ReturnIdsLast(program.nodes, k);
      if node.ReturnResult? {
        returned := returned + [node.resultId];
        if node.ciphertextId in t.nodeOf && t.nodeOf[node.ciphertextId].AddF1MMask? {
          f1mReturns := f1mReturns + multiset{node.ciphertextId};
        }
      }
      t := WithNode(t, node, program.slotCount);
    }
    assert program.nodes[..|program.nodes|] == program.nodes;
    return Some(t), returned, f1mReturns;
  }

  lemma {:induction false} NothingReturned(program: Program, t: Tables)
    requires t.nodeOf == map[]
    ensures ReturnIds(program.nodes[..0]) == [] && CountsReturns(ReturnedSources(program.nodes[..0]), t.nodeOf, multiset{})
  {
  }

  lemma {:induction false} DeclaredIsTaken(program: Program, k: nat, t: Tables, id: string)
    requires k <= |program.nodes| && Tracks(program, k, t)
    ensures NewId(program, k, id) <==> AsciiIdentifier(id) && id !in t.declared
  {
    hide DeclaredIds, AsciiIdentifier, IsInput, IsMask;
  }

  // ----- the checks of the whole program -----

  method CheckMaskSchedule(program: Program, nodeOf: map<string, Node>, f1mReturns: multiset<string>)
    returns (ok: bool)
    requires TracksNodes(program, |program.nodes|, nodeOf)
    requires CountsReturns(ReturnedSources(program.nodes), nodeOf, f1mReturns)
    ensures ok <==> MasksScheduled(program)
  {
    hide ReturnedSources, MaskUses, TracksNodes, CountsReturns;
    var nodes := program.nodes;
    for k := 0 to |nodes|
      invariant forall j | 0 <= j < k && nodes[j].AddF1MMask? :: ReturnedSources(nodes)[nodes[j].resultId] == 1
    {
      if nodes[k].AddF1MMask? {
        BlindedIsCounted(program, nodeOf, f1mReturns, k);
        if f1mReturns[nodes[k].resultId] != 1 {
          return false;
        }
      }
    }
    var uses := CountMaskUses(nodes);
    for i := 0 to |program.inputs|
      invariant forall j | 0 <= j < i && program.inputs[j].role == F1M_ROLE ::
        MaskUses(nodes)[program.inputs[j].inputId] == 1
    {
      if program.inputs[i].role == F1M_ROLE && uses[program.inputs[i].inputId] != 1 {
        return false;
      }
    }
    return true;
  }

  lemma {:induction false} BlindedIsCounted(
    program: Program, nodeOf: map<string, Node>, f1mReturns: multiset<string>, k: nat)
    requires TracksNodes(program, |program.nodes|, nodeOf) && k < |program.nodes| && program.nodes[k].AddF1MMask?
    requires CountsReturns(ReturnedSources(program.nodes), nodeOf, f1mReturns)
    ensures f1mReturns[program.nodes[k].resultId] == ReturnedSources(program.nodes)[program.nodes[k].resultId]
  {
    hide ReturnedSources;
  }

  method CountMaskUses(nodes: seq<Node>) returns (uses: multiset<string>)
    ensures uses == MaskUses(nodes)
  {
    uses := multiset{};
    for k := 0 to |nodes|
      invariant uses == MaskUses(nodes[..k])
    {
      assert nodes[..k + 1][..k] == nodes[..k];
      if nodes[k].AddF1MMask? {
        uses := uses + multiset{nodes[k].maskCiphertextId};
      }
    }
    assert nodes[..|nodes|] == nodes;
  }

  function ConsumersIn(consumers: map<string, seq<Node>>, id: string): seq<Node> {
    if id in consumers then consumers[id] else []
  }

  method GatherConsumers(nodes: seq<Node>) returns (consumers: map<string, seq<Node>>)
    ensures forall id :: ConsumersIn(consumers, id) == Consumers(nodes, id)
  {
    hide Consumers, ConsumersIn;
    consumers := map[];
    NoConsumers(nodes);
    for k := 0 to |nodes|
      invariant forall id :: ConsumersIn(consumers, id) == Consumers(nodes[..k], id)
    {
      MoreConsumers(nodes, k);
      consumers := WithConsumer(consumers, nodes[k]);
    }
    assert nodes[..|nodes|] == nodes;
  }

  // The node appended once to the consumers of each id it reads.
  function WithConsumer(consumers: map<string, seq<Node>>, node: Node): (longer: map<string, seq<Node>>)
    ensures forall id :: ConsumersIn(longer, id) == ConsumersIn(consumers, id) + Readings(node, id)
  {
    hide Dependencies;
    var ids := Dependencies(node);
    var first := if |ids| > 0 then consumers[ids[0] := ConsumersIn(consumers, ids[0]) + [node]] else consumers;
    if |ids| > 1 then first[ids[1] := ConsumersIn(first, ids[1]) + [node]] else first
  }

  lemma {:induction false} NoConsumers(nodes: seq<Node>)
    ensures forall id :: ConsumersIn(map[], id) == Consumers(nodes[..0], id)
  {
  }

  lemma {:induction false} MoreConsumers(nodes: seq<Node>, k: nat)
    requires k < |nodes|
    ensures forall id :: Consumers(nodes[..k + 1], id) == Consumers(nodes[..k], id) + Readings(nodes[k], id)
  {
    assert nodes[..k + 1][..k] == nodes[..k];
  }

  method CheckConsumers(program: Program) returns (ok: bool)
    ensures ok <==> ConsumersOk(program)
  {
    hide Consumers, ConsumersIn, ConsumedAs;
    var nodes := program.nodes;
    var consumers := GatherConsumers(nodes);
    for i := 0 to |program.inputs|
      invariant forall j | 0 <= j < i ::
        ConsumedAs(program.inputs[j], Consumers(nodes, program.inputs[j].inputId))
    {
      if !ConsumedAs(program.inputs[i], ConsumersIn(consumers, program.inputs[i].inputId)) {
        return false;
      }
    }
    for k := 0 to |nodes|
      invariant forall j | 0 <= j < k && nodes[j].MultiplyCiphertexts? ::
        OneRelinearize(Consumers(nodes, nodes[j].resultId))
    {
      if nodes[k].MultiplyCiphertexts? && !OneRelinearize(ConsumersIn(consumers, nodes[k].resultId)) {
        return false;
      }
    }
    return true;
  }

  // ----- liveness -----

  // Every id of the set is still to be followed, or what it reads is in the set.
  ghost predicate Followed(nodeOf: map<string, Node>, live: set<string>, work: seq<string>) {
    forall id, source | id in live && id !in work && id in nodeOf && source in Dependencies(nodeOf[id])
      && source in nodeOf :: source in live
  }

  ghost predicate Minimal(nodes: seq<Node>, live: set<string>) {
    forall closed: set<string> | LiveClosed(nodes, closed) :: live <= closed
  }

  lemma {:induction false} StaysMinimal(
    program: Program, nodeOf: map<string, Node>, live: set<string>, id: string, more: seq<string>)
    requires TracksNodes(program, |program.nodes|, nodeOf) && Minimal(program.nodes, live) && id in live
    requires forall x | x in more :: id in nodeOf && x in Dependencies(nodeOf[id]) && x in nodeOf
    ensures Minimal(program.nodes, live + Members(more))
  {
    hide Dependencies;
    forall closed: set<string>, x | LiveClosed(program.nodes, closed) && x in more ensures x in closed {
      var j :| 0 <= j < |program.nodes| && Computes(program.nodes, j, id);
      assert IsComputed(program.nodes, x);
    }
  }

  // What holds between two steps of the worklist.
  ghost predicate Following(nodes: seq<Node>, nodeOf: map<string, Node>, live: set<string>, work: seq<string>) {
    && Minimal(nodes, live) && (forall id | id in work :: id in live) && Followed(nodeOf, live, work)
    && forall k | 0 <= k < |nodes| && nodes[k].ReturnResult? :: nodes[k].ciphertextId in live
  }

  function Members(s: seq<string>): set<string> { set x | x in s }

  lemma {:induction false} FollowOne(
    program: Program, nodeOf: map<string, Node>, live: set<string>, work: seq<string>, more: seq<string>)
    requires work != [] && Following(program.nodes, nodeOf, live, work)
    requires TracksNodes(program, |program.nodes|, nodeOf)
    requires forall x :: x in more <==>
      var id := work[|work| - 1];
      id in nodeOf && x in Dependencies(nodeOf[id]) && x in nodeOf && x !in live
    ensures Following(program.nodes, nodeOf, live + Members(more), work[..|work| - 1] + more)
  {
    hide Dependencies, Minimal, TracksNodes, Followed;
    var id, rest := work[|work| - 1], work[..|work| - 1];
    assert work == rest + [id];
    AfterFollowing(nodeOf, live, id, rest, more);
    StaysMinimal(program, nodeOf, live, id, more);
  }

  // The ids the returned results depend on, followed one at a time.
  method LiveIds(program: Program, nodeOf: map<string, Node>) returns (live: set<string>)
    requires TracksNodes(program, |program.nodes|, nodeOf)
    ensures LiveClosed(program.nodes, live) && Minimal(program.nodes, live)
  {
    hide Dependencies, Minimal, TracksNodes, Followed, LiveClosed, Members;
    var work: seq<string>;
    live, work := ReturnedIds(program.nodes);
    AllToFollow(nodeOf, live, work);
    while work != []
      invariant Following(program.nodes, nodeOf, live, work)
      decreases |nodeOf.Keys - live|, |work|
    {
      hide Following;
      var more := Unfollowed(nodeOf, live, work[|work| - 1]);
      FollowOne(program, nodeOf, live, work, more);
      Shrinks(nodeOf.Keys, live, more);
      live := live + Members(more);
      work := work[..|work| - 1] + more;
    }
    FollowedIsClosed(program, nodeOf, live);
  }

  // The results the id reads that are not in the set yet, each once.
  method Unfollowed(nodeOf: map<string, Node>, live: set<string>, id: string) returns (more: seq<string>)
    ensures forall x :: x in more <==>
      id in nodeOf && x in Dependencies(nodeOf[id]) && x in nodeOf && x !in live
  {
    hide Dependencies;
    more := [];
    var ids := if id in nodeOf then Dependencies(nodeOf[id]) else [];
    for i := 0 to |ids|
      invariant forall x :: x in more <==> x in ids[..i] && x in nodeOf && x !in live
    {
      assert ids[..i + 1] == ids[..i] + [ids[i]];
      if ids[i] in nodeOf && ids[i] !in live && ids[i] !in more {
        more := more + [ids[i]];
      }
    }
  }

  lemma {:induction false} AllToFollow(nodeOf: map<string, Node>, live: set<string>, work: seq<string>)
    requires forall id | id in live :: id in work
    ensures Followed(nodeOf, live, work)
  {
  }

  lemma {:induction false} AfterFollowing(
    nodeOf: map<string, Node>, live: set<string>, id: string, rest: seq<string>, more: seq<string>)
    requires Followed(nodeOf, live, rest + [id])
    requires forall x :: x in more <==>
      id in nodeOf && x in Dependencies(nodeOf[id]) && x in nodeOf && x !in live
    ensures Followed(nodeOf, live + Members(more), rest + more)
  {
    hide Dependencies;
  }

  lemma {:induction false} Shrinks(all: set<string>, live: set<string>, more: seq<string>)
    requires forall x | x in more :: x in all && x !in live
    ensures more == [] ==> live + Members(more) == live
    ensures more != [] ==> |all - (live + Members(more))| < |all - live|
  {
    if more != [] {
      var before, after := all - live, all - (live + Members(more));
      assert more[0] in before && more[0] !in after;
      assert |before| == |after| + |before - after| by { assert before == after + (before - after); }
      assert before - after != {};
    }
  }

  lemma {:induction false} FollowedIsClosed(program: Program, nodeOf: map<string, Node>, live: set<string>)
    requires TracksNodes(program, |program.nodes|, nodeOf) && Followed(nodeOf, live, [])
    requires forall k | 0 <= k < |program.nodes| && program.nodes[k].ReturnResult? ::
      program.nodes[k].ciphertextId in live
    ensures LiveClosed(program.nodes, live)
  {
    hide Dependencies;
    forall k, id | 0 <= k < |program.nodes| && !program.nodes[k].ReturnResult? && program.nodes[k].resultId in live
      && id in Dependencies(program.nodes[k]) && IsComputed(program.nodes, id)
      ensures id in live
    {
      assert nodeOf[program.nodes[k].resultId] == program.nodes[k];
    }
  }

  // The sources of the returns, each once.
  method ReturnedIds(nodes: seq<Node>) returns (live: set<string>, work: seq<string>)
    ensures Minimal(nodes, live) && forall id :: id in work <==> id in live
    ensures forall k | 0 <= k < |nodes| && nodes[k].ReturnResult? :: nodes[k].ciphertextId in live
  {
    live, work := {}, [];
    for k := 0 to |nodes|
      invariant Minimal(nodes, live) && forall id :: id in work <==> id in live
      invariant forall j | 0 <= j < k && nodes[j].ReturnResult? :: nodes[j].ciphertextId in live
    {
      if nodes[k].ReturnResult? && nodes[k].ciphertextId !in live {
        live := live + {nodes[k].ciphertextId};
        work := work + [nodes[k].ciphertextId];
      }
    }
  }

  method CheckNothingDead(program: Program, nodeOf: map<string, Node>) returns (ok: bool)
    requires TracksNodes(program, |program.nodes|, nodeOf)
    ensures ok <==> NothingDead(program)
  {
    hide Dependencies, DeclaredIds;
    var live := LiveIds(program, nodeOf);
    if !(nodeOf.Keys <= live) {
      DeadIsUnneeded(program, nodeOf, live);
      return false;
    }
    var operands := DeclaredIds(program.inputs, program.masks);
    var used: set<string> := {};
    for k := 0 to |program.nodes|
      invariant forall id :: id in used <==>
        id in operands && exists j :: 0 <= j < k && id in Dependencies(program.nodes[j])
    {
      used := used + set id | id in Dependencies(program.nodes[k]) && id in operands;
    }
    AllContribute(program, nodeOf, live);
    return (set id | id in operands) == used;
  }

  lemma {:induction false} DeadIsUnneeded(program: Program, nodeOf: map<string, Node>, live: set<string>)
    requires TracksNodes(program, |program.nodes|, nodeOf) && LiveClosed(program.nodes, live)
    requires !(nodeOf.Keys <= live)
    ensures !NothingDead(program)
  {
    hide Dependencies, DeclaredIds, LiveClosed;
    var id :| id in nodeOf && id !in live;
    var j :| 0 <= j < |program.nodes| && Computes(program.nodes, j, id);
    assert !Contributes(program.nodes, program.nodes[j].resultId);
  }

  lemma {:induction false} AllContribute(program: Program, nodeOf: map<string, Node>, live: set<string>)
    requires TracksNodes(program, |program.nodes|, nodeOf) && Minimal(program.nodes, live) && nodeOf.Keys <= live
    ensures forall k | 0 <= k < |program.nodes| && !program.nodes[k].ReturnResult? ::
      Contributes(program.nodes, program.nodes[k].resultId)
  {
    hide LiveClosed;
  }

  // ----- the validator -----

  // Admitted or refused, as the rules say. `required` is None for the strict
  // contract, and the compiler's set of results to be blinded otherwise.
  method ValidateCloudProgram(program: Program, required: Option<set<string>>) returns (ok: bool)
    ensures ok <==> Admitted(program, required)
  {
    hide NodeOk, MasksScheduled, ConsumersOk, NothingDead, PublicCatalogOk, InputOk, PublicMaskOk, AsciiIdentifier,
      DeclaredIds, Declares, NoRepeat, TracksNodes, TracksCiphertexts, TracksDeclared, TracksMasks, CountsReturns;
    if program.format != PROGRAM_FORMAT || program.slotCount <= 0 {
      return false;
    }
    var rotations := ValidatePublicCatalog(program.catalog);
    if rotations.None? {
      return false;
    }
    var inputs := DeclareInputs(program.inputs, program.slotCount);
    if inputs.None? {
      FewerOperands(program);
      return false;
    }
    var operands := DeclareMasks(program.inputs, program.masks, program.slotCount, inputs.value);
    if operands.None? {
      return false;
    }
    TracksNone(program, operands.value);
    var tables, returned, f1mReturns := ValidateNodes(program, required, rotations.value, operands.value);
    if tables.None? || program.resultIds != returned {
      return false;
    }
    if required.Some? && exists id | id in required.value :: !AsciiIdentifier(id) || id !in program.resultIds {
      return false;
    }
    var scheduled := CheckMaskSchedule(program, tables.value.nodeOf, f1mReturns);
    var consumed := CheckConsumers(program);
    var alive := CheckNothingDead(program, tables.value.nodeOf);
    return scheduled && consumed && alive;
  }

  lemma {:induction false} FewerOperands(program: Program)
    ensures NoRepeat(DeclaredIds(program.inputs, program.masks)) ==> NoRepeat(DeclaredIds(program.inputs, []))
  {
    var ids, all := DeclaredIds(program.inputs, []), DeclaredIds(program.inputs, program.masks);
    assert forall i | 0 <= i < |ids| :: ids[i] == all[i];
  }
}
