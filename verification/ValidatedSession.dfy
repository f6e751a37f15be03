// Sessions of requests whose program the static validator accepts: they end in a
// result or in the escape check, and when the latter is possible.
module ValidatedSession {
  import opened Modular
  import opened Lanes
  import opened Outcomes
  import opened Sequences
  import opened CloudProgram
  import opened Request
  import opened RotationKeys
  import opened RowConfinement
  import opened Session
  import opened Escape
  import opened ProgramRules

  // The program a request carries, with its declared operands.
  function RequestProgram(request: QueryRequest): Program {
    Program(
      PROGRAM_FORMAT, request.slotCount,
      seq(|request.declared|, i requires 0 <= i < |request.declared| =>
        CiphertextInput(request.declared[i].id, request.declared[i].role, request.declared[i].length)),
      seq(|request.masks|, i requires 0 <= i < |request.masks| =>
        PublicMask(request.masks[i].id, request.masks[i].role, request.masks[i].length, request.masks[i].values)),
      request.nodes, request.resultIds, request.catalog)
  }

  // The session's tables support the program it carries.
  lemma {:induction false} SessionSupports(
    request: QueryRequest, required: Option<set<string>>, n: nat, p: Positive)
    requires 1 < n <= 0x7fff_ffff && RequestFault(request, n).None?
    requires Admitted(RequestProgram(request), required)
    ensures Supports(SessionEnv(request, n, p), SessionStart(request, n, p), RequestProgram(request))
  {
    hide Admitted, AcceptableInput, AcceptableMask, KeyPlanOk, CatalogEntryOk, Encrypt, Padded, Pack, PaddedMask,
      EncryptedTable, PackedMasks, CatalogTable;
    var env, st, program := SessionEnv(request, n, p), SessionStart(request, n, p), RequestProgram(request);
    SessionStartsPrepared(request, n, p);
    InputTable(request, env, st);
    TwoElementTable(request, env, st);
    forall i | 0 <= i < |program.masks| ensures program.masks[i].maskName in env.masks {
      MaskPresent(request, n, i);
    }
    forall e | e in program.catalog
      ensures e.logicalShift in env.rotations && env.rotations[e.logicalShift] == e.openfheIndex
    {
      var i :| 0 <= i < |request.catalog| && request.catalog[i] == e;
    }
    forall k | 0 <= k < |program.nodes| && program.nodes[k].Rotate?
      ensures program.nodes[k].openfheIndex in env.keys && InInt32(program.nodes[k].openfheIndex)
    {
      RotatesByCatalog(program, required, k);
      var node := program.nodes[k];
      CatalogHasKeys(env, request.catalog, request.plan, request.slotCount, node.logicalShift);
    }
  }

  lemma {:induction false} RotatesByCatalog(program: Program, required: Option<set<string>>, k: nat)
    requires Admitted(program, required) && k < |program.nodes| && program.nodes[k].Rotate?
    ensures CatalogEntry(program.nodes[k].logicalShift, program.nodes[k].openfheIndex) in program.catalog
  {
    hide NewId, Available;
    assert NodeOk(program, required, k);
  }

  lemma {:induction false} InputTable(request: QueryRequest, env: Env, st: State)
    requires RequestPrepared(request, env, st) && DeclaredOk(request.declared, request.inputs, request.slotCount)
    ensures forall id :: id in st.ciphertexts <==> IsInput(RequestProgram(request).inputs, id)
  {
    hide CheckedEnv, AcceptableInputs, AcceptableMasks;
    var inputs := RequestProgram(request).inputs;
    assert |inputs| == |request.inputs|;
    assert forall i | 0 <= i < |inputs| :: inputs[i].inputId == request.inputs[i].id;
    forall id | id in st.ciphertexts ensures IsInput(inputs, id) {
      var i :| 0 <= i < |request.inputs| && ParsedFrom(env, id, st.ciphertexts[id], request.inputs[i]);
      assert inputs[i].inputId == id;
    }
  }

  lemma {:induction false} TwoElementTable(request: QueryRequest, env: Env, st: State)
    requires RequestPrepared(request, env, st)
    ensures forall id | id in st.ciphertexts :: st.ciphertexts[id].elements == 2
  {
    hide CheckedEnv, AcceptableInputs, AcceptableMasks;
  }

  lemma {:induction false} MaskPresent(request: QueryRequest, n: nat, i: nat)
    requires AcceptableMasks(request.masks, request.slotCount) && i < |request.masks|
    ensures request.masks[i].id in PackedMasks(request.masks, n)
  {
    hide AcceptableMask;
    forall a, b | 0 <= a < b < |request.masks| ensures request.masks[a].id != request.masks[b].id {
      MaskIdsDistinct(request.masks, |request.masks|, a, b);
    }
    PackedMasksHold(request.masks, n);
  }

  // A request that parses and whose program the validator accepts fails only for
  // an identifier too long for the interpreter, or for an escape.
  lemma {:induction false} ValidatedSessionOutcome(
    request: QueryRequest, required: Option<set<string>>, n: nat, p: Positive)
    requires 1 < n <= 0x7fff_ffff && RequestFault(request, n).None?
    requires Admitted(RequestProgram(request), required)
    ensures var r := SessionResult(request, n, p);
      if ShortIds(request.nodes) then r.Success? || r == Failure(EscapedRow)
      else r == Failure(Execution(SsaIdentity))
  {
    hide Admitted, Supports, Execute, RequestFault, SessionEnv, SessionStart, AllConfined;
    var env, st, program := SessionEnv(request, n, p), SessionStart(request, n, p), RequestProgram(request);
    SessionSupports(request, required, n, p);
    SomeInput(request, n);
    AcceptedReturns(program, required);
    AcceptedProgramRuns(env, st, program, required);
    if ShortIds(request.nodes) {
      ResultIdsFit(program, required);
      assert st.returned == [] by { StartsWithNothing(request, n, p); }
    }
  }

  lemma {:induction false} StartsWithNothing(request: QueryRequest, n: nat, p: Positive)
    ensures SessionStart(request, n, p).returned == []
  {
  }

  lemma {:induction false} SomeInput(request: QueryRequest, n: nat)
    requires 0 < n && RequestFault(request, n).None?
    ensures RequestProgram(request).inputs != []
  {
  }

  lemma {:induction false} ResultIdsFit(program: Program, required: Option<set<string>>)
    requires Admitted(program, required) && program.nodes != [] && ShortIds(program.nodes)
    ensures ResultIdsOk(program.resultIds)
  {
    AcceptedReturns(program, required);
    hide ConsumersOk, MasksScheduled, NothingDead, OperandsOk, AsciiIdentifier, UsesOk, PrintableIdentifier;
    forall i | 0 <= i < |program.resultIds| ensures PrintableIdentifier(program.resultIds[i]) {
      ReturnIdHasNode(program.nodes, program.resultIds[i]);
      var k :| 0 <= k < |program.nodes| && program.nodes[k].resultId == program.resultIds[i];
      assert NodeOk(program, required, k);
      ShortPrints(program.nodes[k].resultId);
    }
  }

  // ----- a validated program that escapes -----

  // A one in the lane that spills, multiplied by itself, rotated by the first
  // catalog entry, blinded with zeros and returned.
  function BlindedRotationNodes(e: CatalogEntry): seq<Node> {
    [MultiplyCiphertexts("a", "v", "q"), Relinearize("b", "a"), Rotate("c", "b", e.logicalShift, e.openfheIndex),
     AddF1MMask("d", "c", "m", OPAQUE_ZERO_SUM), ReturnResult("e", "d")]
  }

  function BlindedRotation(slotCount: nat, catalog: seq<CatalogEntry>, plan: KeyGenerationPlan): QueryRequest
    requires catalog != [] && CatalogEntryOk(catalog[0], slotCount)
  {
    var unit := UnitValues(SpilledLane(catalog[0].openfheIndex, slotCount), slotCount);
    QueryRequest(
      slotCount,
      [RawInput("m", F1M_ROLE, Some("encrypted-zero-dummy"), seq(slotCount, _ => 0)),
       RawInput("q", QUERY_ROLE, None, unit), RawInput("v", VALUE_ROLE, None, unit)],
      [DeclaredInput("m", slotCount, F1M_ROLE), DeclaredInput("q", slotCount, QUERY_ROLE),
       DeclaredInput("v", slotCount, VALUE_ROLE)],
      catalog, plan, [], BlindedRotationNodes(catalog[0]), ["e"])
  }

  lemma {:induction false} BlindedRotationParses(
    slotCount: nat, catalog: seq<CatalogEntry>, plan: KeyGenerationPlan, n: nat)
    requires 0 < slotCount <= n && CatalogOk(catalog, slotCount) && KeyPlanOk(plan, catalog, n) && catalog != []
    ensures CatalogEntryOk(catalog[0], slotCount)
    ensures RequestFault(BlindedRotation(slotCount, catalog, plan), n).None?
  {
    hide KeyPlanOk, SpilledLane;
    assert CatalogEntryOk(catalog[0], slotCount);
    var inputs := BlindedRotation(slotCount, catalog, plan).inputs;
    assert AcceptableInput(inputs[0], slotCount) && AcceptableInput(inputs[1], slotCount)
      && AcceptableInput(inputs[2], slotCount);
    assert Precedes("m", "q") && Precedes("q", "v");
  }

  // The program's operands and nodes, as the rules see them.
  lemma {:induction false} BlindedRotationOperands(
    slotCount: nat, catalog: seq<CatalogEntry>, plan: KeyGenerationPlan)
    requires 0 < slotCount && CatalogOk(catalog, slotCount) && catalog != []
    ensures CatalogEntryOk(catalog[0], slotCount)
    ensures var program := RequestProgram(BlindedRotation(slotCount, catalog, plan));
      && DeclaredIds(program.inputs, program.masks) == ["m", "q", "v"]
      && OperandsOk(program) && PublicCatalogOk(program.catalog)
      && InputWith(program.inputs, "m", F1M_ROLE) && InputWith(program.inputs, "q", QUERY_ROLE)
      && InputWith(program.inputs, "v", VALUE_ROLE)
  {
    hide SpilledLane, UnitValues;
    assert CatalogEntryOk(catalog[0], slotCount);
    var program := RequestProgram(BlindedRotation(slotCount, catalog, plan));
    assert DeclaredIds(program.inputs, program.masks) == ["m", "q", "v"];
    forall i | 0 <= i < |catalog| ensures catalog[i].logicalShift != 0 && catalog[i].openfheIndex != 0 {
      assert CatalogEntryOk(catalog[i], slotCount);
    }
    assert program.inputs[0].inputId == "m" && program.inputs[1].inputId == "q" && program.inputs[2].inputId == "v";
  }

  lemma {:induction false} BlindedRotationIds(program: Program, e: CatalogEntry)
    requires program.nodes == BlindedRotationNodes(e)
    requires DeclaredIds(program.inputs, program.masks) == ["m", "q", "v"]
    ensures forall k | 0 <= k < |program.nodes| :: NewId(program, k, program.nodes[k].resultId)
  {
    hide DeclaredIds;
    forall c: char | '!' <= c <= '~' ensures AsciiIdentifier([c]) {
    }
    assert AsciiIdentifier(['a']) && AsciiIdentifier(['b']) && AsciiIdentifier(['c']) && AsciiIdentifier(['d'])
      && AsciiIdentifier(['e']);
    forall k | 0 <= k < |program.nodes|
      ensures NewId(program, k, program.nodes[k].resultId)
    {
      hide AsciiIdentifier;
      assert program.nodes[k].resultId == [['a', 'b', 'c', 'd', 'e'][k]];
    }
  }

  lemma {:induction false} BlindedRotationUses(program: Program, e: CatalogEntry)
    requires program.nodes == BlindedRotationNodes(e) && e in program.catalog
    requires InputWith(program.inputs, "m", F1M_ROLE) && InputWith(program.inputs, "q", QUERY_ROLE)
    requires InputWith(program.inputs, "v", VALUE_ROLE)
    ensures forall k | 0 <= k < |program.nodes| :: UsesOk(program, None, k, program.nodes[k])
  {
    hide InputWith, IsInput;
    var nodes := program.nodes;
    assert Computes(nodes, 0, "a") && Computes(nodes, 1, "b") && Computes(nodes, 2, "c") && Computes(nodes, 3, "d");
  }

  lemma {:induction false} BlindedRotationSchedule(program: Program, e: CatalogEntry, slotCount: nat)
    requires program.nodes == BlindedRotationNodes(e)
    requires program.inputs == [CiphertextInput("m", F1M_ROLE, slotCount), CiphertextInput("q", QUERY_ROLE, slotCount),
                                CiphertextInput("v", VALUE_ROLE, slotCount)]
    ensures MasksScheduled(program) && ReturnIds(program.nodes) == ["e"]
  {
    hide ReturnIds, ReturnedSources, MaskUses;
    FiveCounts(program.nodes);
    assert ReturnedSources(program.nodes)["d"] == 1;
    assert MaskUses(program.nodes)["m"] == 1;
  }

  lemma {:induction false} FiveCounts(nodes: seq<Node>)
    requires |nodes| == 5 && nodes[3].AddF1MMask? && nodes[4].ReturnResult?
    requires forall k | 0 <= k < 5 :: (k == 3 || !nodes[k].AddF1MMask?) && (k == 4 || !nodes[k].ReturnResult?)
    ensures ReturnedSources(nodes) == multiset{nodes[4].ciphertextId}
    ensures MaskUses(nodes) == multiset{nodes[3].maskCiphertextId}
    ensures ReturnIds(nodes) == [nodes[4].resultId]
  {
    hide ReturnIds, ReturnedSources, MaskUses;
    assert nodes[..5] == nodes;
    PrefixCounts(nodes, 0);
    PrefixCounts(nodes, 1);
    PrefixCounts(nodes, 2);
    PrefixCounts(nodes, 3);
    PrefixCounts(nodes, 4);
  }

  lemma {:induction false} PrefixCounts(nodes: seq<Node>, k: nat)
    requires k < |nodes|
    ensures k == 0 ==> ReturnedSources(nodes[..k]) == multiset{} == MaskUses(nodes[..k]) && ReturnIds(nodes[..k]) == []
    ensures ReturnedSources(nodes[..k + 1])
         == ReturnedSources(nodes[..k]) + if nodes[k].ReturnResult? then multiset{nodes[k].ciphertextId} else multiset{}
    ensures MaskUses(nodes[..k + 1])
         == MaskUses(nodes[..k]) + if nodes[k].AddF1MMask? then multiset{nodes[k].maskCiphertextId} else multiset{}
    ensures ReturnIds(nodes[..k + 1])
         == ReturnIds(nodes[..k]) + if nodes[k].ReturnResult? then [nodes[k].resultId] else []
  {
    assert nodes[..k + 1][..k] == nodes[..k];
    ReturnIdsLast(nodes, k);
  }

  lemma {:induction false} FiveReadings(nodes: seq<Node>, id: string)
    requires |nodes| == 5
    ensures Consumers(nodes, id)
         == Readings(nodes[0], id) + Readings(nodes[1], id) + Readings(nodes[2], id) + Readings(nodes[3], id)
            + Readings(nodes[4], id)
  {
    hide Readings, Consumers;
    assert nodes[..5] == nodes;
    PrefixReadings(nodes, 0, id);
    PrefixReadings(nodes, 1, id);
    PrefixReadings(nodes, 2, id);
    PrefixReadings(nodes, 3, id);
    PrefixReadings(nodes, 4, id);
  }

  lemma {:induction false} PrefixReadings(nodes: seq<Node>, k: nat, id: string)
    requires k < |nodes|
    ensures k == 0 ==> Consumers(nodes[..k], id) == []
    ensures Consumers(nodes[..k + 1], id) == Consumers(nodes[..k], id) + Readings(nodes[k], id)
  {
    assert nodes[..k + 1][..k] == nodes[..k];
  }

  lemma {:induction false} BlindedRotationConsumers(program: Program, e: CatalogEntry, slotCount: nat)
    requires program.nodes == BlindedRotationNodes(e)
    requires program.inputs == [CiphertextInput("m", F1M_ROLE, slotCount), CiphertextInput("q", QUERY_ROLE, slotCount),
                                CiphertextInput("v", VALUE_ROLE, slotCount)]
    ensures ConsumersOk(program)
  {
    hide Consumers, Readings, Dependencies;
    OneReading(e, "m", 3);
    OneReading(e, "q", 0);
    OneReading(e, "v", 0);
    OneReading(e, "a", 1);
    ReadByOne(program.nodes, "m", 3);
    ReadByOne(program.nodes, "q", 0);
    ReadByOne(program.nodes, "v", 0);
    ReadByOne(program.nodes, "a", 1);
  }

  lemma {:induction false} OneReading(e: CatalogEntry, id: string, reader: nat)
    requires (id == "m" && reader == 3) || ((id == "q" || id == "v") && reader == 0) || (id == "a" && reader == 1)
    ensures var nodes := BlindedRotationNodes(e);
      forall k | 0 <= k < 5 :: Readings(nodes[k], id) == if k == reader then [nodes[k]] else []
  {
    hide Dependencies;
    var nodes := BlindedRotationNodes(e);
    FiveDependencies(e);
    forall k | 0 <= k < 5 ensures Readings(nodes[k], id) == if k == reader then [nodes[k]] else [] {
    }
  }

  lemma {:induction false} FiveDependencies(e: CatalogEntry)
    ensures var nodes := BlindedRotationNodes(e);
      && Dependencies(nodes[0]) == ["v", "q"] && Dependencies(nodes[1]) == ["a"] && Dependencies(nodes[2]) == ["b"]
      && Dependencies(nodes[3]) == ["c", "m"] && Dependencies(nodes[4]) == []
  {
  }

  lemma {:induction false} ReadByOne(nodes: seq<Node>, id: string, k: nat)
    requires |nodes| == 5 && k < 5 && Readings(nodes[k], id) == [nodes[k]]
    requires forall j | 0 <= j < 5 && j != k :: Readings(nodes[j], id) == []
    ensures Consumers(nodes, id) == [nodes[k]]
  {
    hide Readings, Consumers;
    FiveReadings(nodes, id);
  }

  lemma {:induction false} BlindedRotationLive(program: Program, e: CatalogEntry)
    requires program.nodes == BlindedRotationNodes(e)
    requires DeclaredIds(program.inputs, program.masks) == ["m", "q", "v"]
    ensures NothingDead(program)
  {
    hide DeclaredIds;
    var nodes := program.nodes;
    assert Computes(nodes, 0, "a") && Computes(nodes, 1, "b") && Computes(nodes, 2, "c") && Computes(nodes, 3, "d");
    forall live: set<string> | LiveClosed(nodes, live) ensures {"a", "b", "c", "d"} <= live {
      assert nodes[4].ciphertextId in live;
      assert "c" in Dependencies(nodes[3]) && "b" in Dependencies(nodes[2]) && "a" in Dependencies(nodes[1]);
      assert nodes[3].resultId in live;
      assert nodes[2].resultId in live;
      assert nodes[1].resultId in live;
    }
    assert "m" in Dependencies(nodes[3]) && "q" in Dependencies(nodes[0]) && "v" in Dependencies(nodes[0]);
  }

  // The strict validator accepts it.
  lemma {:induction false} BlindedRotationAccepted(
    slotCount: nat, catalog: seq<CatalogEntry>, plan: KeyGenerationPlan)
    requires 0 < slotCount && CatalogOk(catalog, slotCount) && catalog != []
    ensures CatalogEntryOk(catalog[0], slotCount)
    ensures Admitted(RequestProgram(BlindedRotation(slotCount, catalog, plan)), None)
  {
    hide OperandsOk, PublicCatalogOk, DeclaredIds, InputWith, NewId, UsesOk, MasksScheduled, ConsumersOk, NothingDead,
      ReturnIds, SpilledLane, UnitValues, CatalogOk, BlindedRotationNodes;
    BlindedRotationOperands(slotCount, catalog, plan);
    var program := RequestProgram(BlindedRotation(slotCount, catalog, plan));
    BlindedRotationIds(program, catalog[0]);
    BlindedRotationUses(program, catalog[0]);
    BlindedRotationSchedule(program, catalog[0], slotCount);
    BlindedRotationConsumers(program, catalog[0], slotCount);
    BlindedRotationLive(program, catalog[0]);
  }

  // ----- what it computes -----

  lemma {:induction false} ThreeInputs(a: RawInput, b: RawInput, c: RawInput, n: nat, p: Positive)
    requires NoRepeat([a.id, b.id, c.id])
    ensures var table := EncryptedTable([a, b, c], n, p);
      && table.Keys == {a.id, b.id, c.id} && table[a.id] == Encrypt(Padded(a.values, 2 * n, p), n, p)
      && table[b.id] == Encrypt(Padded(b.values, 2 * n, p), n, p)
      && table[c.id] == Encrypt(Padded(c.values, 2 * n, p), n, p)
  {
    hide Encrypt, Padded;
    var inputs := [a, b, c];
    forall i, j | 0 <= i < j < 3 ensures inputs[i].id != inputs[j].id {
      assert [a.id, b.id, c.id][i] != [a.id, b.id, c.id][j];
    }
    EncryptedTableHolds(inputs, n, p);
    forall id ensures id in EncryptedTable(inputs, n, p) <==> id in {a.id, b.id, c.id} {
      assert inputs[0].id == a.id && inputs[1].id == b.id && inputs[2].id == c.id;
    }
  }

  // The result of the run, from the three encrypted inputs.
  function BlindedRotationResult(m: Ciphertext, q: Ciphertext, v: Ciphertext, k: int, n: nat, p: Positive): Ciphertext {
    EvalAdd(EvalRotate(Relinearized(EvalMultNoRelin(v, q, n, p)), k, n), m, n, p)
  }

  lemma {:induction false} BlindedRotationRun(env: Env, st: State, e: CatalogEntry)
    requires st.ciphertexts.Keys == {"m", "q", "v"} && Run(env, st, BlindedRotationNodes(e)).Success?
    ensures var end := Run(env, st, BlindedRotationNodes(e)).value;
      && "e" in end.ciphertexts
      && end.ciphertexts["e"] == BlindedRotationResult(
           st.ciphertexts["m"], st.ciphertexts["q"], st.ciphertexts["v"], e.openfheIndex, env.rowSize, env.modulus)
  {
    hide EvalAdd, EvalRotate, EvalMultNoRelin, PrintableIdentifier, InInt32, Run;
    var nodes := BlindedRotationNodes(e);
    assert nodes[1..][0] == nodes[1] && nodes[1..][1..][0] == nodes[2] && nodes[1..][1..][1..][0] == nodes[3]
      && nodes[1..][1..][1..][1..][0] == nodes[4] && nodes[1..][1..][1..][1..][1..] == [];
    var st1 := RunPeels(env, st, nodes);
    var st2 := RunPeels(env, st1, nodes[1..]);
    var st3 := RunPeels(env, st2, nodes[1..][1..]);
    var st4 := RunPeels(env, st3, nodes[1..][1..][1..]);
    var st5 := RunPeels(env, st4, nodes[1..][1..][1..][1..]);
    assert st1.ciphertexts["a"] == EvalMultNoRelin(st.ciphertexts["v"], st.ciphertexts["q"], env.rowSize, env.modulus);
    assert st2.ciphertexts["b"] == Relinearized(st1.ciphertexts["a"]);
    assert st3.ciphertexts["c"] == EvalRotate(st2.ciphertexts["b"], e.openfheIndex, env.rowSize);
    assert st4.ciphertexts["d"] == EvalAdd(st3.ciphertexts["c"], st.ciphertexts["m"], env.rowSize, env.modulus);
    assert Run(env, st, nodes) == Success(st5);
  }

  lemma {:induction false} RunPeels(env: Env, st: State, nodes: seq<Node>) returns (next: State)
    requires nodes != [] && Run(env, st, nodes).Success?
    ensures Step(env, st, nodes[0]) == Success(next) && Run(env, st, nodes) == Run(env, next, nodes[1..])
    ensures nodes[1..] == [] ==> Run(env, next, nodes[1..]) == Success(next)
  {
    hide Step;
    next := Step(env, st, nodes[0]).value;
  }

  // The lane that spilled holds the square of the one.
  lemma {:induction false} BlindedRotationSpills(k: int, slotCount: nat, n: nat, p: Positive, m: Ciphertext)
    requires k != 0 && Abs(k) < slotCount < n && p >= 2
    requires m == Encrypt(Padded(seq(slotCount, _ => 0), 2 * n, p), n, p)
    ensures var unit := Encrypt(Padded(UnitValues(SpilledLane(k, slotCount), slotCount), 2 * n, p), n, p);
      !Confined(BlindedRotationResult(m, unit, unit, k, n, p), slotCount)
  {
    hide MulRows, RotateRow, UnitValues, Padded;
    var j := SpilledLane(k, slotCount);
    var unit := Encrypt(Padded(UnitValues(j, slotCount), 2 * n, p), n, p);
    var target := (j - k) % n;
    SpillsBeyond(k, slotCount, n);
    UnitLane(j, slotCount, n, p);
    var product := MulRows(unit.lanes.first, unit.lanes.first, n, p);
    assert product[j] == 1 by {
      hide *;
      UnitSquared(unit.lanes.first, j, n, p);
    }
    RotatedLane(product, j, k, n);
    ZeroLane(target, slotCount, n, p);
    OneOnZero(m.lanes.first, RotateRow(product, k, n), target, n, p);
  }

  lemma {:induction false} UnitLane(j: nat, slotCount: nat, n: nat, p: Positive)
    requires j < slotCount < n && p >= 2
    ensures Encrypt(Padded(UnitValues(j, slotCount), 2 * n, p), n, p).lanes.first[j] == 1
  {
    ModSmall(1, p);
  }

  lemma {:induction false} UnitSquared(row: seq<int>, j: nat, n: nat, p: Positive)
    requires j < n == |row| && row[j] == 1 && p >= 2
    ensures MulRows(row, row, n, p)[j] == 1
  {
    ModSmall(1, p);
  }

  lemma {:induction false} RotatedLane(row: seq<int>, j: nat, k: int, n: nat)
    requires j < n == |row|
    ensures RotateRow(row, k, n)[(j - k) % n] == row[j]
  {
    var target := (j - k) % n;
    assert (target + k) % n == j by {
      ModAdd(j - k, k, n);
      ModSmall(j, n);
    }
    assert At(row, (target + k) % n) == row[j];
  }

  lemma {:induction false} ZeroLane(i: nat, slotCount: nat, n: nat, p: Positive)
    requires i < n
    ensures Encrypt(Padded(seq(slotCount, _ => 0), 2 * n, p), n, p).lanes.first[i] == 0
  {
    ModSmall(0, p);
  }

  lemma {:induction false} OneOnZero(zeros: seq<int>, row: seq<int>, i: nat, n: nat, p: Positive)
    requires i < n == |zeros| == |row| && zeros[i] == 0 && row[i] == 1 && p >= 2
    ensures AddRows(row, zeros, n, p)[i] == 1 == AddRows(zeros, row, n, p)[i]
  {
    ModSmall(1, p);
  }

  lemma {:induction false} BlindedRotationEscapes(
    slotCount: nat, catalog: seq<CatalogEntry>, plan: KeyGenerationPlan, n: nat, p: Positive)
    requires 0 < slotCount < n <= 0x7fff_ffff && p >= 2
    requires CatalogOk(catalog, slotCount) && KeyPlanOk(plan, catalog, n) && catalog != []
    ensures CatalogEntryOk(catalog[0], slotCount)
    ensures SessionResult(BlindedRotation(slotCount, catalog, plan), n, p) == Failure(EscapedRow)
  {
    hide RequestFault, CatalogOk, KeyPlanOk, UnitValues, SpilledLane, Confined, Run, Padded, Encrypt, EvalRotate,
      CatalogTable, PackedMasks, EncryptedTable, Admitted, Supports, RequestProgram, BlindedRotationNodes,
      BlindedRotationResult;
    BlindedRotationParses(slotCount, catalog, plan, n);
    BlindedRotationAccepted(slotCount, catalog, plan);
    var request := BlindedRotation(slotCount, catalog, plan);
    var env, st := SessionEnv(request, n, p), SessionStart(request, n, p);
    ShortBlindedRotation(request.nodes, catalog[0]);
    ValidatedSessionOutcome(request, None, n, p);
    ThreeInputs(request.inputs[0], request.inputs[1], request.inputs[2], n, p);
    BlindedRotationRun(env, st, catalog[0]);
    BlindedRotationSpills(
      catalog[0].openfheIndex, slotCount, n, p, Encrypt(Padded(seq(slotCount, _ => 0), 2 * n, p), n, p));
    assert request.resultIds[0] == "e";
  }

  lemma {:induction false} ShortBlindedRotation(nodes: seq<Node>, e: CatalogEntry)
    requires nodes == BlindedRotationNodes(e)
    ensures ShortIds(nodes)
  {
  }

  // Some request whose program the strict validator accepts escapes.
  ghost predicate CanEscapeValidated(
    slotCount: nat, catalog: seq<CatalogEntry>, plan: KeyGenerationPlan, n: nat, p: Positive)
    requires 0 < n
  {
    exists request: QueryRequest ::
      && request.slotCount == slotCount && request.catalog == catalog && request.plan == plan
      && Admitted(RequestProgram(request), None) && SessionResult(request, n, p) == Failure(EscapedRow)
  }

  // Static validation and blinding of every result do not narrow when an escape is possible.
  lemma {:induction false} ValidatedEscapeIsPossibleIff(
    slotCount: nat, catalog: seq<CatalogEntry>, plan: KeyGenerationPlan, n: nat, p: Positive)
    requires 1 < n <= 0x7fff_ffff && 0 < slotCount <= n
    requires CatalogOk(catalog, slotCount) && KeyPlanOk(plan, catalog, n)
    ensures CanEscapeValidated(slotCount, catalog, plan, n, p) <==> p >= 2 && slotCount < n && catalog != []
  {
    hide SessionResult, CatalogOk, KeyPlanOk, Admitted, RequestProgram;
    if CanEscapeValidated(slotCount, catalog, plan, n, p) {
      var request: QueryRequest :|
        && request.slotCount == slotCount && request.catalog == catalog && request.plan == plan
        && Admitted(RequestProgram(request), None) && SessionResult(request, n, p) == Failure(EscapedRow);
      EscapeNeedsRotation(request, n, p);
    }
    if p >= 2 && slotCount < n && catalog != [] {
      BlindedRotationAccepted(slotCount, catalog, plan);
      BlindedRotationEscapes(slotCount, catalog, plan, n, p);
    }
  }

  // The strict rules blind every result.
  lemma {:induction false} StrictReturnsAreBlinded(program: Program, k: nat)
    requires Admitted(program, None) && k < |program.nodes| && program.nodes[k].ReturnResult?
    ensures exists j | 0 <= j < k ::
      program.nodes[j].AddF1MMask? && program.nodes[j].resultId == program.nodes[k].ciphertextId
  {
    hide NewId;
    assert NodeOk(program, None, k);
    var j :| 0 <= j < k && Computes(program.nodes, j, program.nodes[k].ciphertextId)
      && Returnable(program.nodes[j], true);
  }
}
