// The producer session as the runner executes it, step by step.
module Producer {
  import opened Modular
  import opened Lanes
  import opened Outcomes
  import opened CloudProgram
  import opened Request
  import opened RotationKeys
  import opened RowConfinement
  import opened Session

  method ValidateProgramInputs(declared: seq<DeclaredInput>, parsed: seq<PrivateInput>, slotCount: nat)
    returns (ok: bool)
    ensures ok <==> |declared| == |parsed| && forall i | 0 <= i < |parsed| ::
      declared[i] == DeclaredInput(parsed[i].id, slotCount, parsed[i].role)
  {
    if |declared| != |parsed| {
      return false;
    }
    for k := 0 to |declared|
      invariant forall i | 0 <= i < k :: declared[i] == DeclaredInput(parsed[i].id, slotCount, parsed[i].role)
    {
      if declared[k].length != slotCount || declared[k].id != parsed[k].id || declared[k].role != parsed[k].role {
        return false;
      }
    }
    return true;
  }

  // The checks and tables before the run. No parsed inputs repeat an
  // identifier, so encrypting them never fails.
  method Prepare(request: QueryRequest, n: nat, p: Positive)
    returns (r: Result<(Env, map<string, Ciphertext>), SessionFault>)
    requires 1 < n <= 0x7fff_ffff
    ensures r == match RequestFault(request, n)
                 case Some(fault) => Failure(fault)
                 case None => Success((SessionEnv(request, n, p), SessionStart(request, n, p).ciphertexts))
  {
    hide AcceptableInput, AcceptableMask, CatalogEntryOk, IndicesOk, KeyPlanOk, Padded, PaddedMask, Pack, Encrypt,
      MaskTable;
    if request.slotCount == 0 || request.slotCount > n {
      return Failure(SlotCount);
    }
    var inputs := ParsePrivateInputs(request.inputs, request.slotCount, n, p);
    if inputs.None? {
      return Failure(PrivateInputs);
    }
    var declared := ValidateProgramInputs(request.declared, inputs.value, request.slotCount);
    if !declared {
      return Failure(DeclaredInputs);
    }
    var rotations := ParseRotationCatalog(request.catalog, request.slotCount);
    if rotations.None? {
      return Failure(Catalog);
    }
    var required := ParseKeyGenerationPlan(request.plan, request.catalog, n);
    if required.None? {
      return Failure(KeyPlan);
    }
    var masks := ParsePlaintextMasks(request.masks, request.slotCount, n);
    if masks.None? {
      return Failure(Masks);
    }
    forall i, j | 0 <= i < j < |inputs.value| ensures inputs.value[i].id != inputs.value[j].id {
      AcceptedIdsDistinct(request.inputs, request.slotCount, i, j);
    }
    var table := EncryptInputs(inputs.value, n, p);
    if table.None? {
      return Failure(InputIdentity);
    }
    var keys := set x | x in required.value;
    assert keys == KeysOf(request.plan);
    CatalogTableIs(request.catalog, rotations.value);
    MaskTableIs(request.masks, request.slotCount, masks.value, n);
    EncryptedTableIs(request.inputs, request.slotCount, inputs.value, table.value, n, p);
    return Success((Env(n, p, rotations.value, keys, masks.value), table.value));
  }

  lemma {:induction false} CatalogTableIs(catalog: seq<CatalogEntry>, rotations: map<int, int>)
    requires forall i, j | 0 <= i < j < |catalog| :: catalog[i].logicalShift < catalog[j].logicalShift
    requires forall l :: l in rotations <==> exists i :: 0 <= i < |catalog| && catalog[i].logicalShift == l
    requires forall i | 0 <= i < |catalog| ::
      && catalog[i].logicalShift in rotations
      && rotations[catalog[i].logicalShift] == catalog[i].openfheIndex
    ensures rotations == CatalogTable(catalog)
  {
    CatalogTableHolds(catalog);
    forall l | l in rotations ensures l in CatalogTable(catalog) && rotations[l] == CatalogTable(catalog)[l] {
      var i :| 0 <= i < |catalog| && catalog[i].logicalShift == l;
    }
    forall l | l in CatalogTable(catalog) ensures l in rotations {
      var i :| 0 <= i < |catalog| && catalog[i].logicalShift == l;
    }
  }

  lemma {:induction false} MaskTableIs(raw: seq<RawMask>, slotCount: nat, masks: map<string, Packed>, n: nat)
    requires AcceptableMasks(raw, slotCount) && MaskTable(masks, raw, n)
    ensures masks == PackedMasks(raw, n)
  {
    hide Pack, PaddedMask, AcceptableMask, Precedes;
    forall i, j | 0 <= i < j < |raw| ensures raw[i].id != raw[j].id {
      MaskIdsDistinct(raw, |raw|, i, j);
    }
    PackedMasksHold(raw, n);
    forall id | id in masks ensures id in PackedMasks(raw, n) && masks[id] == PackedMasks(raw, n)[id] {
      var i :| 0 <= i < |raw| && raw[i].id == id;
    }
  }

  lemma {:induction false} EncryptedTableIs(
    raw: seq<RawInput>, slotCount: nat, inputs: seq<PrivateInput>, table: map<string, Ciphertext>, n: nat, p: Positive)
    requires AcceptableInputs(raw, slotCount)
    requires |inputs| == |raw| && forall i | 0 <= i < |raw| ::
      inputs[i].id == raw[i].id && inputs[i].values == Padded(raw[i].values, 2 * n, p)
    requires forall id :: id in table <==> exists i :: 0 <= i < |inputs| && inputs[i].id == id
    requires forall i | 0 <= i < |inputs| ::
      inputs[i].id in table && table[inputs[i].id] == Encrypt(inputs[i].values, n, p)
    ensures table == EncryptedTable(raw, n, p)
  {
    hide Encrypt, Padded, AcceptableInputs;
    forall i, j | 0 <= i < j < |raw| ensures raw[i].id != raw[j].id {
      AcceptedIdsDistinct(raw, slotCount, i, j);
    }
    EncryptedTableHolds(raw, n, p);
    forall id | id in table
      ensures id in EncryptedTable(raw, n, p) && table[id] == EncryptedTable(raw, n, p)[id]
    {
      var i :| 0 <= i < |inputs| && inputs[i].id == id;
      assert raw[i].id == id;
    }
    forall id | id in EncryptedTable(raw, n, p) ensures id in table {
      var i :| 0 <= i < |raw| && raw[i].id == id;
      assert inputs[i].id == id;
    }
  }

  // The session, exactly: every fault has the cause the specification gives it,
  // and a repeated input or an undefined result is never met.
  method RunProducer(request: QueryRequest, n: nat, p: Positive)
    returns (r: Result<seq<Decrypted>, SessionFault>)
    requires 1 < n <= 0x7fff_ffff
    ensures r == SessionResult(request, n, p)
  {
    hide RequestPrepared, Confined, Execute, AllCanonical, ReturnsBlindedSelections, KeptLanes, RequestFault,
      SessionEnv;
    var prepared := Prepare(request, n, p);
    if prepared.Failure? {
      return Failure(prepared.error);
    }
    var env, table := prepared.value.0, prepared.value.1;
    ghost var st := SessionStart(request, n, p);
    SessionStartsPrepared(request, n, p);
    PreparedRun(request, env, st);
    var runner := new Runner(table);
    var returned := runner.ExecuteProgram(env, request.nodes);
    if returned.Failure? {
      return Failure(Execution(returned.error));
    }
    if !ResultIdsOk(request.resultIds) {
      return Failure(BadResultIds);
    }
    if returned.value != request.resultIds {
      return Failure(ReturnOrder);
    }
    assert runner.ciphertexts == Execute(env, st, request.nodes).value.ciphertexts;
    CanonicalTable(env, runner.ciphertexts);
    PreparedShape(request, env, st, n, p);
    var decrypted, secondBatchRowZero := DecryptResults(runner.ciphertexts, returned.value, request.slotCount, n, p);
    if decrypted.None? {
      return Failure(UndefinedResult);
    }
    if !secondBatchRowZero {
      return Failure(EscapedRow);
    }
    assert decrypted.value == ResultLanes(runner.ciphertexts, request.resultIds, request.slotCount);
    return Success(decrypted.value);
  }

  lemma {:induction false} CanonicalTable(env: Env, cts: map<string, Ciphertext>)
    requires AllCanonical(env, cts)
    ensures forall id | id in cts :: Canonical(cts[id].lanes, env.rowSize, env.modulus)
  {
  }
}
