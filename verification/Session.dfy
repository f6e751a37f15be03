// One producer session as a function of its request: the checks, the tables the
// run starts from, the run, and the results it hands back.
module Session {
  import opened Modular
  import opened Lanes
  import opened Outcomes
  import opened Sequences
  import opened CloudProgram
  import opened Request
  import opened RotationKeys
  import opened RowConfinement
  import opened ReplayPackage
  import opened Naming
  import opened Emitter

  datatype DeclaredInput = DeclaredInput(id: string, length: nat, role: string)

  datatype QueryRequest = QueryRequest(
    slotCount: nat, inputs: seq<RawInput>, declared: seq<DeclaredInput>, catalog: seq<CatalogEntry>,
    plan: KeyGenerationPlan, masks: seq<RawMask>, nodes: seq<Node>, resultIds: seq<string>)

  datatype SessionFault =
    | SlotCount | PrivateInputs | DeclaredInputs | Catalog | KeyPlan | Masks
    | InputIdentity | Execution(fault: Fault) | BadResultIds | ReturnOrder | UndefinedResult | EscapedRow

  ghost predicate DeclaredOk(declared: seq<DeclaredInput>, raw: seq<RawInput>, slotCount: nat) {
    |declared| == |raw| && forall i | 0 <= i < |raw| ::
      declared[i] == DeclaredInput(raw[i].id, slotCount, raw[i].role)
  }

  predicate ResultIdsOk(ids: seq<string>) {
    ids != [] && forall i | 0 <= i < |ids| :: PrintableIdentifier(ids[i])
  }

  // ----- the request checks, first failure first -----

  ghost function RequestFault(request: QueryRequest, n: nat): Option<SessionFault>
    requires 0 < n
  {
    if request.slotCount == 0 || request.slotCount > n then Some(SlotCount)
    else if !AcceptableInputs(request.inputs, request.slotCount) then Some(PrivateInputs)
    else if !DeclaredOk(request.declared, request.inputs, request.slotCount) then Some(DeclaredInputs)
    else if !CatalogOk(request.catalog, request.slotCount) then Some(Catalog)
    else if !KeyPlanOk(request.plan, request.catalog, n) then Some(KeyPlan)
    else if !AcceptableMasks(request.masks, request.slotCount) then Some(Masks)
    else None
  }

  // ----- the tables the run starts from -----

  function CatalogTable(catalog: seq<CatalogEntry>): map<int, int> {
    if catalog == [] then map[]
    else
      var last := catalog[|catalog| - 1];
      CatalogTable(catalog[..|catalog| - 1])[last.logicalShift := last.openfheIndex]
  }

  function PackedMasks(masks: seq<RawMask>, n: nat): map<string, Packed> {
    if masks == [] then map[]
    else
      var last := masks[|masks| - 1];
      PackedMasks(masks[..|masks| - 1], n)[last.id := Pack(PaddedMask(last.values, 2 * n), n)]
  }

  function EncryptedTable(inputs: seq<RawInput>, n: nat, p: Positive): map<string, Ciphertext> {
    if inputs == [] then map[]
    else
      var last := inputs[|inputs| - 1];
      EncryptedTable(inputs[..|inputs| - 1], n, p)[last.id := Encrypt(Padded(last.values, 2 * n, p), n, p)]
  }

  function KeysOf(plan: KeyGenerationPlan): set<int> { set x | x in plan.required }

  function SessionEnv(request: QueryRequest, n: nat, p: Positive): Env {
    Env(n, p, CatalogTable(request.catalog), KeysOf(request.plan), PackedMasks(request.masks, n))
  }

  function SessionStart(request: QueryRequest, n: nat, p: Positive): State {
    var table := EncryptedTable(request.inputs, n, p);
    State(table, table.Keys, [], NO_OPERATIONS)
  }

  lemma {:induction false} CatalogTableHolds(catalog: seq<CatalogEntry>)
    requires forall i, j | 0 <= i < j < |catalog| :: catalog[i].logicalShift != catalog[j].logicalShift
    ensures forall l :: l in CatalogTable(catalog) <==> exists i :: 0 <= i < |catalog| && catalog[i].logicalShift == l
    ensures forall i | 0 <= i < |catalog| :: CatalogTable(catalog)[catalog[i].logicalShift] == catalog[i].openfheIndex
  {
    if catalog != [] {
      var n := |catalog| - 1;
      CatalogTableHolds(catalog[..n]);
      assert catalog == catalog[..n] + [catalog[n]];
      forall i | 0 <= i < n
        ensures catalog[i].logicalShift in CatalogTable(catalog)
        ensures CatalogTable(catalog)[catalog[i].logicalShift] == catalog[i].openfheIndex
      {
        assert catalog[..n][i] == catalog[i];
      }
    }
  }

  lemma {:induction false} PackedMasksHold(masks: seq<RawMask>, n: nat)
    requires forall i, j | 0 <= i < j < |masks| :: masks[i].id != masks[j].id
    ensures MaskTable(PackedMasks(masks, n), masks, n)
  {
    hide Pack, PaddedMask;
    if masks != [] {
      var k := |masks| - 1;
      PackedMasksHold(masks[..k], n);
      assert masks[..k + 1] == masks;
      ExtendMaskTable(PackedMasks(masks[..k], n), masks, k, n);
    }
  }

  lemma {:induction false} EncryptedTableHolds(inputs: seq<RawInput>, n: nat, p: Positive)
    requires forall i, j | 0 <= i < j < |inputs| :: inputs[i].id != inputs[j].id
    ensures forall id :: id in EncryptedTable(inputs, n, p) <==> exists i :: 0 <= i < |inputs| && inputs[i].id == id
    ensures forall i | 0 <= i < |inputs| ::
      EncryptedTable(inputs, n, p)[inputs[i].id] == Encrypt(Padded(inputs[i].values, 2 * n, p), n, p)
  {
    hide Encrypt, Padded;
    if inputs != [] {
      var k := |inputs| - 1;
      EncryptedTableHolds(inputs[..k], n, p);
      assert inputs == inputs[..k] + [inputs[k]];
      forall i | 0 <= i < k
        ensures inputs[i].id in EncryptedTable(inputs, n, p)
        ensures EncryptedTable(inputs, n, p)[inputs[i].id] == Encrypt(Padded(inputs[i].values, 2 * n, p), n, p)
      {
        assert inputs[..k][i] == inputs[i];
      }
    }
  }

  // ----- the session -----

  function ResultLanes(cts: map<string, Ciphertext>, ids: seq<string>, slotCount: nat): (s: seq<Decrypted>)
    ensures |s| == |ids|
  {
    seq(|ids|, k requires 0 <= k < |ids| =>
      Decrypted(ids[k], if ids[k] in cts then KeptLanes(cts[ids[k]], slotCount) else []))
  }

  ghost predicate AllConfined(cts: map<string, Ciphertext>, ids: seq<string>, slotCount: nat) {
    forall k | 0 <= k < |ids| :: ids[k] in cts ==> Confined(cts[ids[k]], slotCount)
  }

  ghost function SessionResult(request: QueryRequest, n: nat, p: Positive): Result<seq<Decrypted>, SessionFault>
    requires 0 < n
  {
    var fault := RequestFault(request, n);
    if fault.Some? then Failure(fault.value)
    else
      match Execute(SessionEnv(request, n, p), SessionStart(request, n, p), request.nodes)
      case Failure(e) => Failure(Execution(e))
      case Success(end) =>
        if !ResultIdsOk(request.resultIds) then Failure(BadResultIds)
        else if end.returned != request.resultIds then Failure(ReturnOrder)
        else if !AllConfined(end.ciphertexts, request.resultIds, request.slotCount) then Failure(EscapedRow)
        else Success(ResultLanes(end.ciphertexts, request.resultIds, request.slotCount))
  }

  // ----- what an accepted request fixes before the run -----

  // The table holds the inputs, each encrypted from its raw form.
  ghost predicate InputsTraced(env: Env, table: map<string, Ciphertext>, inputs: seq<RawInput>) {
    && (forall id | id in table :: exists i :: 0 <= i < |inputs| && ParsedFrom(env, id, table[id], inputs[i]))
    && forall i | 0 <= i < |inputs| :: inputs[i].id in table
  }

  ghost predicate MasksTraced(env: Env, masks: seq<RawMask>) {
    forall id | id in env.masks :: exists i :: 0 <= i < |masks| && MaskParsedFrom(env, id, env.masks[id], masks[i])
  }

  // The checked environment and the encrypted inputs, each traced to its raw form.
  ghost predicate RequestPrepared(request: QueryRequest, env: Env, st: State) {
    && 0 < request.slotCount <= env.rowSize
    && AcceptableInputs(request.inputs, request.slotCount)
    && AcceptableMasks(request.masks, request.slotCount)
    && CheckedEnv(env, request.catalog, request.plan, request.slotCount)
    && st.returned == [] && st.counts == NO_OPERATIONS && st.identifiers == st.ciphertexts.Keys
    && InputsTraced(env, st.ciphertexts, request.inputs) && MasksTraced(env, request.masks)
  }

  lemma {:induction false} TracesInputs(inputs: seq<RawInput>, slotCount: nat, env: Env)
    requires AcceptableInputs(inputs, slotCount)
    ensures InputsTraced(env, EncryptedTable(inputs, env.rowSize, env.modulus), inputs)
  {
    hide Encrypt, Padded, AcceptableInputs;
    var n, p := env.rowSize, env.modulus;
    forall i, j | 0 <= i < j < |inputs| ensures inputs[i].id != inputs[j].id {
      AcceptedIdsDistinct(inputs, slotCount, i, j);
    }
    EncryptedTableHolds(inputs, n, p);
    forall id | id in EncryptedTable(inputs, n, p)
      ensures exists i :: 0 <= i < |inputs| && ParsedFrom(env, id, EncryptedTable(inputs, n, p)[id], inputs[i])
    {
      var i :| 0 <= i < |inputs| && inputs[i].id == id;
      assert ParsedFrom(env, id, EncryptedTable(inputs, n, p)[id], inputs[i]);
    }
  }

  lemma {:induction false} TracesMasks(masks: seq<RawMask>, slotCount: nat, env: Env)
    requires AcceptableMasks(masks, slotCount) && env.masks == PackedMasks(masks, env.rowSize)
    ensures MasksTraced(env, masks)
  {
    hide Pack, PaddedMask, AcceptableMask;
    forall i, j | 0 <= i < j < |masks| ensures masks[i].id != masks[j].id {
      MaskIdsDistinct(masks, |masks|, i, j);
    }
    PackedMasksHold(masks, env.rowSize);
    forall id | id in env.masks
      ensures exists i :: 0 <= i < |masks| && MaskParsedFrom(env, id, env.masks[id], masks[i])
    {
      var i :| 0 <= i < |masks| && masks[i].id == id;
      assert MaskParsedFrom(env, id, env.masks[id], masks[i]);
    }
  }

  lemma {:induction false} EnvIsChecked(request: QueryRequest, n: nat, p: Positive)
    requires 1 < n && RequestFault(request, n).None?
    ensures CheckedEnv(SessionEnv(request, n, p), request.catalog, request.plan, request.slotCount)
  {
    hide AcceptableInputs, AcceptableMasks, CatalogEntryOk, KeyPlanOk, PackedMasks;
    CatalogTableHolds(request.catalog);
  }

  lemma {:induction false} SessionStartsPrepared(request: QueryRequest, n: nat, p: Positive)
    requires 1 < n && RequestFault(request, n).None?
    ensures RequestPrepared(request, SessionEnv(request, n, p), SessionStart(request, n, p))
  {
    hide AcceptableInputs, AcceptableMasks, CatalogOk, KeyPlanOk, EncryptedTable, PackedMasks, CatalogTable, CheckedEnv,
      InputsTraced, MasksTraced;
    EnvIsChecked(request, n, p);
    TracesInputs(request.inputs, request.slotCount, SessionEnv(request, n, p));
    TracesMasks(request.masks, request.slotCount, SessionEnv(request, n, p));
  }

  // What a prepared run can and cannot do.
  lemma {:induction false} PreparedRun(request: QueryRequest, env: Env, st: State)
    requires RequestPrepared(request, env, st)
    ensures Execute(env, st, request.nodes) != Failure(MissingRotationKey)
    ensures Execute(env, st, request.nodes).Success? ==>
      var end := Execute(env, st, request.nodes).value;
      && AllCanonical(env, end.ciphertexts)
      && end.returned == ReturnIds(request.nodes) && NoRepeat(end.returned)
      && (forall id | id in end.returned :: id in end.ciphertexts)
      && (request.slotCount == env.rowSize || ReturnsBlindedSelections(request.nodes, st.ciphertexts.Keys) ==>
           forall id | id in end.returned :: Confined(end.ciphertexts[id], request.slotCount))
  {
    hide Confined, Canonical, ReturnsBlindedSelections, CheckedEnv, AcceptableInputs, AcceptableMasks;
    NoMissingKey(env, st, request.nodes, request.catalog, request.plan, request.slotCount);
    ParsedRequestStartsConfined(env, st, request.inputs, request.masks, request.slotCount);
    if Execute(env, st, request.nodes).Success? {
      var end := Execute(env, st, request.nodes).value;
      hide Run;
      RunReturns(env, st, request.nodes);
      ReturnedDistinct(env, st, request.nodes);
      ReturnedDefined(env, st, request.nodes);
      RunKeepsCanonical(env, st, request.nodes);
      if request.slotCount == env.rowSize {
        forall id | id in end.returned ensures Confined(end.ciphertexts[id], request.slotCount) {
          FullRowNeverEscapes(env, st, request.nodes, id);
        }
      } else if ReturnsBlindedSelections(request.nodes, st.ciphertexts.Keys) {
        forall id | id in end.returned ensures Confined(end.ciphertexts[id], request.slotCount) {
          BlindedSelectionsNeverEscape(env, st, request.nodes, request.slotCount, id);
        }
      }
    }
  }

  lemma {:induction false} ReturnedDefined(env: Env, st: State, nodes: seq<Node>)
    requires Run(env, st, nodes).Success? && forall id | id in st.returned :: id in st.ciphertexts
    ensures forall id | id in Run(env, st, nodes).value.returned :: id in Run(env, st, nodes).value.ciphertexts
    decreases |nodes|
  {
    if nodes != [] {
      hide Evaluate;
      ReturnedDefined(env, Step(env, st, nodes[0]).value, nodes[1..]);
    }
  }

  lemma {:induction false} InputIdsAreTable(request: QueryRequest, env: Env, st: State)
    requires RequestPrepared(request, env, st)
    ensures (set input | input in request.inputs :: input.id) == st.ciphertexts.Keys
  {
    hide AcceptableInputs, AcceptableMasks, CheckedEnv;
    forall id | id in st.ciphertexts ensures exists input :: input in request.inputs && input.id == id {
      var i :| 0 <= i < |request.inputs| && ParsedFrom(env, id, st.ciphertexts[id], request.inputs[i]);
      assert request.inputs[i] in request.inputs;
    }
  }

  // What no session does, and when it succeeds. A missing rotation key, a repeated
  // input and an undefined result are impossible for any request; an escape is
  // impossible when the row is full or only blinded selections return.
  lemma {:induction false} SessionOutcome(request: QueryRequest, n: nat, p: Positive)
    requires 1 < n
    ensures var r, run := SessionResult(request, n, p),
                          Execute(SessionEnv(request, n, p), SessionStart(request, n, p), request.nodes);
      && r != Failure(Execution(MissingRotationKey)) && r != Failure(InputIdentity) && r != Failure(UndefinedResult)
      && (r == Failure(EscapedRow) ==>
           && request.slotCount < n
           && !ReturnsBlindedSelections(request.nodes, set input | input in request.inputs :: input.id))
      && (r.Success? <==>
           && RequestFault(request, n).None? && run.Success?
           && ResultIdsOk(request.resultIds) && run.value.returned == request.resultIds
           && forall id | id in request.resultIds ::
                id in run.value.ciphertexts && Confined(run.value.ciphertexts[id], request.slotCount))
      && (r.Success? ==> NoRepeat(request.resultIds))
  {
    hide Confined, Execute, ReturnsBlindedSelections, RequestPrepared, SessionEnv, SessionStart, RequestFault, NoRepeat;
    FaultKinds(request, n);
    if RequestFault(request, n).None? {
      var env, st := SessionEnv(request, n, p), SessionStart(request, n, p);
      SessionStartsPrepared(request, n, p);
      PreparedRun(request, env, st);
      InputIdsAreTable(request, env, st);
      PreparedShape(request, env, st, n, p);
    }
  }

  lemma {:induction false} PreparedShape(request: QueryRequest, env: Env, st: State, n: nat, p: Positive)
    requires RequestPrepared(request, env, st) && env == SessionEnv(request, n, p)
    ensures env.rowSize == n && env.modulus == p && 0 < request.slotCount <= n
  {
  }

  lemma {:induction false} FaultKinds(request: QueryRequest, n: nat)
    requires 0 < n
    ensures RequestFault(request, n).Some? ==>
      RequestFault(request, n).value in {SlotCount, PrivateInputs, DeclaredInputs, Catalog, KeyPlan, Masks}
  {
  }

  ghost predicate RequestChecks(request: QueryRequest, n: nat)
    requires 0 < n
  {
    && 0 < request.slotCount <= n
    && AcceptableInputs(request.inputs, request.slotCount)
    && DeclaredOk(request.declared, request.inputs, request.slotCount)
    && CatalogOk(request.catalog, request.slotCount)
    && KeyPlanOk(request.plan, request.catalog, n)
    && AcceptableMasks(request.masks, request.slotCount)
  }

  // Which of the request checks each cause stands for: it is given exactly when
  // that check fails and those before it pass, whatever the later ones do.
  lemma {:induction false} CauseOfRefusal(request: QueryRequest, n: nat, p: Positive)
    requires 0 < n
    ensures var r := SessionResult(request, n, p);
      var slots := 0 < request.slotCount <= n;
      var inputs := slots && AcceptableInputs(request.inputs, request.slotCount);
      var declared := inputs && |request.declared| == |request.inputs| && forall i | 0 <= i < |request.inputs| ::
        request.declared[i] == DeclaredInput(request.inputs[i].id, request.slotCount, request.inputs[i].role);
      var catalog := declared && CatalogOk(request.catalog, request.slotCount);
      var plan := catalog && KeyPlanOk(request.plan, request.catalog, n);
      var masks := plan && AcceptableMasks(request.masks, request.slotCount);
      && (r == Failure(SlotCount) <==> !slots)
      && (r == Failure(PrivateInputs) <==> slots && !inputs)
      && (r == Failure(DeclaredInputs) <==> inputs && !declared)
      && (r == Failure(Catalog) <==> declared && !catalog)
      && (r == Failure(KeyPlan) <==> catalog && !plan)
      && (r == Failure(Masks) <==> plan && !masks)
  {
    hide AcceptableInputs, AcceptableMasks, CatalogOk, KeyPlanOk, SessionEnv, SessionStart, Execute, ResultIdsOk,
      AllConfined, ResultLanes;
  }

  // Which part of an accepted request's run each later cause stands for.
  lemma {:induction false} CauseOfFailedRun(request: QueryRequest, n: nat, p: Positive)
    requires 1 < n
    ensures var r, run := SessionResult(request, n, p),
                          Execute(SessionEnv(request, n, p), SessionStart(request, n, p), request.nodes);
      var ran := RequestChecks(request, n) && run.Success?;
      var named := ran && request.resultIds != [] && forall id | id in request.resultIds :: PrintableIdentifier(id);
      var ordered := named && run.value.returned == request.resultIds;
      && (forall fault :: r == Failure(Execution(fault)) <==> RequestChecks(request, n) && run == Failure(fault))
      && (r == Failure(BadResultIds) <==> ran && !named)
      && (r == Failure(ReturnOrder) <==> named && !ordered)
      && (r == Failure(EscapedRow) <==>
           ordered && exists id | id in request.resultIds ::
             id in run.value.ciphertexts && !Confined(run.value.ciphertexts[id], request.slotCount))
  {
    hide AcceptableInputs, AcceptableMasks, DeclaredOk, CatalogOk, KeyPlanOk, SessionEnv, SessionStart, Execute,
      ResultLanes, Confined, PrintableIdentifier, ReturnsBlindedSelections;
    FaultKinds(request, n);
    ResultIdsArePrintable(request.resultIds);
    if RequestChecks(request, n) {
      var run := Execute(SessionEnv(request, n, p), SessionStart(request, n, p), request.nodes);
      if run.Success? {
        assert AllConfined(run.value.ciphertexts, request.resultIds, request.slotCount)
          <==> !exists id | id in request.resultIds ::
                 id in run.value.ciphertexts && !Confined(run.value.ciphertexts[id], request.slotCount);
      }
    }
  }

  lemma {:induction false} ResultIdsArePrintable(ids: seq<string>)
    ensures ResultIdsOk(ids) <==> ids != [] && forall id | id in ids :: PrintableIdentifier(id)
  {
    hide PrintableIdentifier;
    assert forall i | 0 <= i < |ids| :: ids[i] in ids;
  }

  // ----- the emitted program returns blinded selections -----

  lemma {:induction false} LadderReturnsNothing(name: Suffix -> string, reduced: Suffix, span: nat, rotations: seq<nat>)
    ensures forall node | node in LadderNodes(name, reduced, span, rotations) :: !node.ReturnResult?
    decreases |rotations|
  {
    if rotations != [] {
      var r := rotations[0];
      LadderReturnsNothing(name, Sum(span + r), span + r, rotations[1..]);
    }
  }

  lemma {:induction false} ComponentReturnsBlinded(name: Suffix -> string, rotations: seq<nat>, k: nat)
    requires k < |NodesOf(name, rotations)| && NodesOf(name, rotations)[k].ReturnResult?
    ensures var nodes := NodesOf(name, rotations);
      k == |nodes| - 1 && k >= 2
      && BlindedSelection(nodes, k - 2, k - 1, nodes[k].ciphertextId, {name(F1MMask)})
  {
    var ladder := LadderNodes(name, Relin, 1, rotations);
    LadderReturnsNothing(name, Relin, 1, rotations);
    var nodes := NodesOf(name, rotations);
    assert |nodes| == 2 + |ladder| + 3;
    assert nodes[..2] == Prologue(name) && nodes[2..2 + |ladder|] == ladder;
    forall j | 2 <= j < 2 + |ladder| ensures !nodes[j].ReturnResult? {
      assert nodes[j] == ladder[j - 2] && ladder[j - 2] in ladder;
    }
  }

  // Whatever the components and the ladder, the emitted program returns only
  // blinded selections, so with F1-M inputs present it can never trip the escape check.
  lemma {:induction false} EmittedReturnsBlinded(components: seq<string>, rotations: seq<nat>, inputs: set<string>)
    requires forall c | c in components :: NamesOf(c)(F1MMask) in inputs
    ensures ReturnsBlindedSelections(ProgramNodes(components, rotations), inputs)
    decreases |components|
  {
    hide NodesOf, Text;
    if components != [] {
      var first := NodesOf(NamesOf(components[0]), rotations);
      var rest := ProgramNodes(components[1..], rotations);
      EmittedReturnsBlinded(components[1..], rotations, inputs);
      var nodes := first + rest;
      forall k | 0 <= k < |nodes| && nodes[k].ReturnResult?
        ensures exists i, j :: 0 <= i < j < k && BlindedSelection(nodes, i, j, nodes[k].ciphertextId, inputs)
      {
        if k < |first| {
          ComponentReturnsBlinded(NamesOf(components[0]), rotations, k);
          assert BlindedSelection(nodes, k - 2, k - 1, nodes[k].ciphertextId, inputs);
        } else {
          var l := k - |first|;
          assert rest[l] == nodes[k];
          var i, j :| 0 <= i < j < l && BlindedSelection(rest, i, j, rest[l].ciphertextId, inputs);
          assert BlindedSelection(nodes, |first| + i, |first| + j, nodes[k].ciphertextId, inputs);
        }
      }
    }
  }

  // A request whose program is emitted, with its F1-M inputs present, never trips
  // the escape check, however few lanes it declares.
  lemma {:induction false} EmittedNeverEscapes(
    request: QueryRequest, components: seq<string>, rotations: seq<nat>, n: nat, p: Positive)
    requires 1 < n && request.nodes == ProgramNodes(components, rotations)
    requires forall c | c in components :: exists input :: input in request.inputs && input.id == NamesOf(c)(F1MMask)
    ensures SessionResult(request, n, p) != Failure(EscapedRow)
  {
    hide SessionResult, ReturnsBlindedSelections, Text;
    var ids := set input | input in request.inputs :: input.id;
    forall c | c in components ensures NamesOf(c)(F1MMask) in ids {
      var input :| input in request.inputs && input.id == NamesOf(c)(F1MMask);
    }
    EmittedReturnsBlinded(components, rotations, ids);
    SessionOutcome(request, n, p);
  }
}
