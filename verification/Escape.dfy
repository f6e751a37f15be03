// When the runner's escape check can fire at all, decided from the request.
module Escape {
  import opened Modular
  import opened Lanes
  import opened Outcomes
  import opened CloudProgram
  import opened Request
  import opened RotationKeys
  import opened RowConfinement
  import opened Session

  // ----- without rotations nothing leaves the declared lanes -----

  lemma {:induction false} StepWithoutRotations(env: Env, st: State, node: Node, slotCount: nat)
    requires env.rotations == map[] && StartsConfined(env, st, slotCount) && Step(env, st, node).Success?
    ensures StartsConfined(env, Step(env, st, node).value, slotCount)
  {
    hide Confined, MaskConfined;
    ConfinedSecondRows(st.ciphertexts, slotCount);
    assert Confines(st.ciphertexts.Keys, node);
    EvaluateConfines(env, st.ciphertexts, node, st.ciphertexts.Keys, slotCount);
  }

  lemma {:induction false} RunWithoutRotations(env: Env, st: State, nodes: seq<Node>, slotCount: nat)
    requires env.rotations == map[] && StartsConfined(env, st, slotCount) && Run(env, st, nodes).Success?
    ensures StartsConfined(env, Run(env, st, nodes).value, slotCount)
    decreases |nodes|
  {
    if nodes != [] {
      hide Step, StartsConfined;
      StepWithoutRotations(env, st, nodes[0], slotCount);
      RunWithoutRotations(env, Step(env, st, nodes[0]).value, nodes[1..], slotCount);
    }
  }

  // Modulo one every lane is zero.
  lemma {:induction false} TrivialModulus(env: Env, st: State, nodes: seq<Node>, slotCount: nat)
    requires env.modulus == 1 && AllCanonical(env, st.ciphertexts) && Run(env, st, nodes).Success?
    ensures forall id | id in Run(env, st, nodes).value.ciphertexts ::
      Confined(Run(env, st, nodes).value.ciphertexts[id], slotCount)
  {
    RunKeepsCanonical(env, st, nodes);
  }

  // A session escapes only with a nontrivial modulus, a row wider than the
  // declared lanes, and a rotation in the catalog.
  lemma {:induction false} EscapeNeedsRotation(request: QueryRequest, n: nat, p: Positive)
    requires 1 < n && SessionResult(request, n, p) == Failure(EscapedRow)
    ensures RequestFault(request, n).None? && p >= 2 && request.slotCount < n && request.catalog != []
  {
    hide Confined, Run, AcceptableInputs, AcceptableMasks, KeyPlanOk, CatalogOk, ReturnsBlindedSelections;
    var env, st := SessionEnv(request, n, p), SessionStart(request, n, p);
    FaultKinds(request, n);
    SessionOutcome(request, n, p);
    SessionStartsPrepared(request, n, p);
    ParsedRequestStartsConfined(env, st, request.inputs, request.masks, request.slotCount);
    if p == 1 {
      TrivialModulus(env, st, request.nodes, request.slotCount);
    } else if request.catalog == [] {
      RunWithoutRotations(env, st, request.nodes, request.slotCount);
    }
  }

  // ----- with a rotation a bare return escapes -----

  // A declared lane that a rotation by k carries beyond the declared lanes.
  function SpilledLane(k: int, slotCount: nat): nat
    requires k != 0 && Abs(k) < slotCount
  {
    if k > 0 then k - 1 else slotCount + k
  }

  lemma {:induction false} SpillsBeyond(k: int, slotCount: nat, n: nat)
    requires k != 0 && Abs(k) < slotCount < n
    ensures SpilledLane(k, slotCount) < slotCount
    ensures var target := (SpilledLane(k, slotCount) - k) % n;
      slotCount <= target < n && (target + k) % n == SpilledLane(k, slotCount)
  {
    var j := SpilledLane(k, slotCount);
    if k > 0 {
      ModUnique(j - k, -1, n - 1, n);
      ModUnique(n - 1 + k, 1, k - 1, n);
    } else {
      ModSmall(slotCount, n);
      ModSmall(j, n);
    }
  }

  function UnitValues(j: nat, slotCount: nat): (s: seq<int>)
    ensures |s| == slotCount
  {
    seq(slotCount, i => if i == j then 1 else 0)
  }

  // One input with a one in the lane that spills, rotated and returned.
  function BareRotation(slotCount: nat, catalog: seq<CatalogEntry>, plan: KeyGenerationPlan): QueryRequest
    requires catalog != [] && CatalogEntryOk(catalog[0], slotCount)
  {
    var e := catalog[0];
    QueryRequest(
      slotCount,
      [RawInput("x", "value", None, UnitValues(SpilledLane(e.openfheIndex, slotCount), slotCount))],
      [DeclaredInput("x", slotCount, "value")], catalog, plan, [],
      [Rotate("y", "x", e.logicalShift, e.openfheIndex), ReturnResult("z", "y")], ["z"])
  }

  lemma {:induction false} BareRotationAccepted(
    slotCount: nat, catalog: seq<CatalogEntry>, plan: KeyGenerationPlan, n: nat)
    requires 0 < slotCount <= n && CatalogOk(catalog, slotCount) && KeyPlanOk(plan, catalog, n) && catalog != []
    ensures CatalogEntryOk(catalog[0], slotCount)
    ensures RequestFault(BareRotation(slotCount, catalog, plan), n).None?
  {
    hide KeyPlanOk;
    var raw := BareRotation(slotCount, catalog, plan).inputs[0];
    assert AcceptableInput(raw, slotCount);
  }

  lemma {:induction false} BareRotationRuns(
    env: Env, st: State, slotCount: nat, catalog: seq<CatalogEntry>, plan: KeyGenerationPlan)
    requires CheckedEnv(env, catalog, plan, slotCount) && catalog != [] && env.rowSize <= 0x7fff_ffff
    requires st.ciphertexts.Keys == {"x"} == st.identifiers && st.returned == []
    ensures CatalogEntryOk(catalog[0], slotCount)
    ensures var run := Execute(env, st, BareRotation(slotCount, catalog, plan).nodes);
      && run.Success? && run.value.returned == ["z"] && "z" in run.value.ciphertexts
      && run.value.ciphertexts["z"] == EvalRotate(st.ciphertexts["x"], catalog[0].openfheIndex, env.rowSize)
  {
    hide EvalRotate, KeyPlanOk, SpilledLane, UnitValues;
    var e := catalog[0];
    assert CatalogEntryOk(e, slotCount);
    CatalogHasKeys(env, catalog, plan, slotCount, e.logicalShift);
    var nodes := BareRotation(slotCount, catalog, plan).nodes;
    assert nodes[1..] == [ReturnResult("z", "y")] && nodes[1..][1..] == [];
    var st1 := Step(env, st, nodes[0]).value;
    assert st1.ciphertexts["y"] == EvalRotate(st.ciphertexts["x"], e.openfheIndex, env.rowSize);
    var st2 := Step(env, st1, nodes[1]).value;
    assert Run(env, st2, []) == Success(st2);
    assert Run(env, st1, nodes[1..]) == Success(st2);
  }

  // The lane that spilled holds the one.
  lemma {:induction false} RotatedUnitEscapes(k: int, slotCount: nat, n: nat, p: Positive)
    requires k != 0 && Abs(k) < slotCount < n && p >= 2
    ensures !Confined(
      EvalRotate(Encrypt(Padded(UnitValues(SpilledLane(k, slotCount), slotCount), 2 * n, p), n, p), k, n), slotCount)
  {
    var j := SpilledLane(k, slotCount);
    var values := UnitValues(j, slotCount);
    var padded := Padded(values, 2 * n, p);
    var row := Encrypt(padded, n, p).lanes.first;
    var target := (j - k) % n;
    SpillsBeyond(k, slotCount, n);
    ModSmall(1, p);
    assert values[j] == 1 && padded[j] == 1 && row[j] == 1;
    assert RotateRow(row, k, n)[target] == At(row, (target + k) % n) == 1;
  }

  lemma {:induction false} BareRotationEscapes(
    slotCount: nat, catalog: seq<CatalogEntry>, plan: KeyGenerationPlan, n: nat, p: Positive)
    requires 0 < slotCount < n <= 0x7fff_ffff && p >= 2
    requires CatalogOk(catalog, slotCount) && KeyPlanOk(plan, catalog, n) && catalog != []
    ensures CatalogEntryOk(catalog[0], slotCount)
    ensures SessionResult(BareRotation(slotCount, catalog, plan), n, p) == Failure(EscapedRow)
  {
    hide RequestFault, CatalogOk, KeyPlanOk, UnitValues, SpilledLane, Confined, Execute, Padded, Encrypt, EvalRotate,
      CatalogTable, PackedMasks;
    BareRotationAccepted(slotCount, catalog, plan, n);
    var request := BareRotation(slotCount, catalog, plan);
    var env, st := SessionEnv(request, n, p), SessionStart(request, n, p);
    SessionStartsPrepared(request, n, p);
    OneInput(request.inputs[0], n, p);
    assert request.inputs == [request.inputs[0]];
    BareRotationRuns(env, st, slotCount, catalog, plan);
    RotatedUnitEscapes(catalog[0].openfheIndex, slotCount, n, p);
    assert request.resultIds[0] == "z";
  }

  lemma {:induction false} OneInput(raw: RawInput, n: nat, p: Positive)
    ensures EncryptedTable([raw], n, p) == map[raw.id := Encrypt(Padded(raw.values, 2 * n, p), n, p)]
  {
    assert [raw][..0] == [];
  }

  // For every accepted geometry, catalog and key plan: some accepted request runs
  // and escapes if and only if the declared lanes are fewer than the row and the
  // catalog has a rotation.
  ghost predicate CanEscape(slotCount: nat, catalog: seq<CatalogEntry>, plan: KeyGenerationPlan, n: nat, p: Positive)
    requires 0 < n
  {
    exists request: QueryRequest ::
      && request.slotCount == slotCount && request.catalog == catalog && request.plan == plan
      && SessionResult(request, n, p) == Failure(EscapedRow)
  }

  lemma {:induction false} EscapeIsPossibleIff(
    slotCount: nat, catalog: seq<CatalogEntry>, plan: KeyGenerationPlan, n: nat, p: Positive)
    requires 1 < n <= 0x7fff_ffff && 0 < slotCount <= n
    requires CatalogOk(catalog, slotCount) && KeyPlanOk(plan, catalog, n)
    ensures CanEscape(slotCount, catalog, plan, n, p) <==> p >= 2 && slotCount < n && catalog != []
  {
    hide SessionResult, CatalogOk, KeyPlanOk;
    if CanEscape(slotCount, catalog, plan, n, p) {
      var request: QueryRequest :|
        && request.slotCount == slotCount && request.catalog == catalog && request.plan == plan
        && SessionResult(request, n, p) == Failure(EscapedRow);
      EscapeNeedsRotation(request, n, p);
    }
    if p >= 2 && slotCount < n && catalog != [] {
      BareRotationEscapes(slotCount, catalog, plan, n, p);
    }
  }
}
