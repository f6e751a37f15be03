// The client's request: the public program in canonical order, the private
// vectors beside it, and the key plan the client takes.
module BuiltRequest {
  import opened Modular
  import opened Outcomes
  import opened Sequences
  import opened CloudProgram
  import opened Request
  import opened RotationKeys
  import opened ClientPlan
  import opened RowConfinement
  import opened Session
  import opened ProgramRules
  import opened ProgramCounts
  import opened Validator
  import opened ValidatedSession

  // ----- sorting -----

  function Inserted<T>(x: T, s: seq<T>, before: (T, T) -> bool): (r: seq<T>)
    ensures |r| == |s| + 1
    decreases |s|
  {
    if s == [] || before(x, s[0]) then [x] + s else [s[0]] + Inserted(x, s[1..], before)
  }

  function SortedBy<T>(s: seq<T>, before: (T, T) -> bool): (r: seq<T>)
    ensures |r| == |s|
    decreases |s|
  {
    if s == [] then [] else Inserted(s[0], SortedBy(s[1..], before), before)
  }

  ghost predicate InOrder<T(!new)>(s: seq<T>, before: (T, T) -> bool) {
    forall i | 0 < i < |s| :: before(s[i - 1], s[i])
  }

  // Different members are ordered one way or the other, and none repeats.
  ghost predicate Orderable<T(!new)>(s: seq<T>, before: (T, T) -> bool) {
    NoRepeat(s) && forall x, y | x in s && y in s && x != y :: before(x, y) || before(y, x)
  }

  lemma {:induction false} InsertedMembers<T>(x: T, s: seq<T>, before: (T, T) -> bool)
    ensures forall y :: y in Inserted(x, s, before) <==> y == x || y in s
    decreases |s|
  {
    if s != [] && !before(x, s[0]) {
      InsertedMembers(x, s[1..], before);
      assert s == [s[0]] + s[1..];
    }
  }

  lemma {:induction false} SortedMembers<T>(s: seq<T>, before: (T, T) -> bool)
    ensures forall y :: y in SortedBy(s, before) <==> y in s
    decreases |s|
  {
    if s != [] {
      SortedMembers(s[1..], before);
      InsertedMembers(s[0], SortedBy(s[1..], before), before);
      assert s == [s[0]] + s[1..];
    }
  }

  lemma {:induction false} InsertedInOrder<T(!new)>(x: T, s: seq<T>, before: (T, T) -> bool)
    requires InOrder(s, before) && forall y | y in s :: before(x, y) || before(y, x)
    ensures InOrder(Inserted(x, s, before), before)
    decreases |s|
  {
    if s != [] && !before(x, s[0]) {
      InsertedInOrder(x, s[1..], before);
      var rest := Inserted(x, s[1..], before);
      assert before(s[0], rest[0]) by {
        assert rest[0] == x || (|s| > 1 && rest[0] == s[1]);
      }
      forall i | 0 < i < |rest| + 1 ensures before(([s[0]] + rest)[i - 1], ([s[0]] + rest)[i]) {
        assert i > 1 ==> before(rest[i - 2], rest[i - 1]);
      }
    }
  }

  lemma {:induction false} SortedInOrder<T(!new)>(s: seq<T>, before: (T, T) -> bool)
    requires Orderable(s, before)
    ensures InOrder(SortedBy(s, before), before)
    decreases |s|
  {
    if s != [] {
      var rest := s[1..];
      forall i, j | 0 <= i < j < |rest| ensures rest[i] != rest[j] {
        assert s[i + 1] != s[j + 1];
      }
      forall y | y in rest ensures y in s && y != s[0] {
        var i :| 0 <= i < |rest| && rest[i] == y;
        assert s[i + 1] == y;
      }
      SortedInOrder(rest, before);
      SortedMembers(rest, before);
      InsertedInOrder(s[0], SortedBy(rest, before), before);
    }
  }

  lemma {:induction false} PrecedesTotal(a: string, b: string)
    ensures a != b ==> Precedes(a, b) || Precedes(b, a)
    decreases |a|
  {
    if a != "" && b != "" && a[0] == b[0] && a != b {
      assert a == [a[0]] + a[1..] && b == [b[0]] + b[1..];
      PrecedesTotal(a[1..], b[1..]);
    }
  }

  // ----- the canonical program -----

  predicate InputBefore(a: CiphertextInput, b: CiphertextInput) { Precedes(a.inputId, b.inputId) }

  predicate MaskBefore(a: PublicMask, b: PublicMask) { Precedes(a.maskName, b.maskName) }

  predicate EntryBefore(a: CatalogEntry, b: CatalogEntry) {
    a.logicalShift < b.logicalShift || (a.logicalShift == b.logicalShift && a.openfheIndex < b.openfheIndex)
  }

  // Inputs and masks by id, the catalog by logical shift; nodes and results as they are.
  function Canonicalized(program: Program): Program {
    program.(inputs := SortedBy(program.inputs, InputBefore), masks := SortedBy(program.masks, MaskBefore),
             catalog := SortedBy(program.catalog, EntryBefore))
  }

  ghost predicate InputsAscend(inputs: seq<CiphertextInput>) {
    forall i | 0 < i < |inputs| :: Precedes(inputs[i - 1].inputId, inputs[i].inputId)
  }

  ghost predicate MasksAscend(masks: seq<PublicMask>) {
    forall i | 0 < i < |masks| :: Precedes(masks[i - 1].maskName, masks[i].maskName)
  }

  ghost predicate EntriesAscend(catalog: seq<CatalogEntry>) {
    forall i, j | 0 <= i < j < |catalog| :: catalog[i].logicalShift < catalog[j].logicalShift
  }

  lemma {:induction false} InputIdsApart(program: Program, i: nat, j: nat)
    requires OperandsOk(program) && i < j < |program.inputs|
    ensures program.inputs[i].inputId != program.inputs[j].inputId
  {
    var ids := DeclaredIds(program.inputs, program.masks);
    assert ids[i] != ids[j];
  }

  lemma {:induction false} MaskIdsApart(program: Program, i: nat, j: nat)
    requires OperandsOk(program) && i < j < |program.masks|
    ensures program.masks[i].maskName != program.masks[j].maskName
  {
    var ids, n := DeclaredIds(program.inputs, program.masks), |program.inputs|;
    assert ids[n + i] != ids[n + j];
  }

  lemma {:induction false} CanonicalInputs(program: Program)
    requires OperandsOk(program)
    ensures InputsAscend(SortedBy(program.inputs, InputBefore))
  {
    hide OperandsOk, Precedes;
    var inputs := program.inputs;
    forall i, j | 0 <= i < j < |inputs| ensures inputs[i] != inputs[j] {
      InputIdsApart(program, i, j);
    }
    forall x, y | x in inputs && y in inputs && x != y ensures InputBefore(x, y) || InputBefore(y, x) {
      var i :| 0 <= i < |inputs| && inputs[i] == x;
      var j :| 0 <= j < |inputs| && inputs[j] == y;
      if i < j {
        InputIdsApart(program, i, j);
      } else {
        InputIdsApart(program, j, i);
      }
      PrecedesTotal(x.inputId, y.inputId);
    }
    SortedInOrder(inputs, InputBefore);
  }

  lemma {:induction false} CanonicalMasks(program: Program)
    requires OperandsOk(program)
    ensures MasksAscend(SortedBy(program.masks, MaskBefore))
  {
    hide OperandsOk, Precedes;
    var masks := program.masks;
    forall i, j | 0 <= i < j < |masks| ensures masks[i] != masks[j] {
      MaskIdsApart(program, i, j);
    }
    forall x, y | x in masks && y in masks && x != y ensures MaskBefore(x, y) || MaskBefore(y, x) {
      var i :| 0 <= i < |masks| && masks[i] == x;
      var j :| 0 <= j < |masks| && masks[j] == y;
      if i < j {
        MaskIdsApart(program, i, j);
      } else {
        MaskIdsApart(program, j, i);
      }
      PrecedesTotal(x.maskName, y.maskName);
    }
    SortedInOrder(masks, MaskBefore);
  }

  lemma {:induction false} CanonicalCatalog(catalog: seq<CatalogEntry>)
    requires PublicCatalogOk(catalog)
    ensures EntriesAscend(SortedBy(catalog, EntryBefore))
  {
    forall i, j | 0 <= i < j < |catalog| ensures catalog[i] != catalog[j] {
      assert catalog[i].logicalShift != catalog[j].logicalShift;
    }
    forall x, y | x in catalog && y in catalog && x != y ensures x.logicalShift != y.logicalShift {
      var i :| 0 <= i < |catalog| && catalog[i] == x;
      var j :| 0 <= j < |catalog| && catalog[j] == y;
    }
    SortedInOrder(catalog, EntryBefore);
    SortedMembers(catalog, EntryBefore);
    ShiftsAscend(SortedBy(catalog, EntryBefore), catalog);
  }

  lemma {:induction false} ShiftsAscend(sorted: seq<CatalogEntry>, catalog: seq<CatalogEntry>)
    requires InOrder(sorted, EntryBefore) && forall x | x in sorted :: x in catalog
    requires forall x, y | x in catalog && y in catalog && x != y :: x.logicalShift != y.logicalShift
    ensures EntriesAscend(sorted)
  {
    forall i, j | 0 <= i < j < |sorted| ensures sorted[i].logicalShift < sorted[j].logicalShift {
      ShiftAscends(sorted, catalog, i, j);
    }
  }

  lemma {:induction false} ShiftAscends(sorted: seq<CatalogEntry>, catalog: seq<CatalogEntry>, i: nat, j: nat)
    requires InOrder(sorted, EntryBefore) && (forall x | x in sorted :: x in catalog) && i < j < |sorted|
    requires forall x, y | x in catalog && y in catalog && x != y :: x.logicalShift != y.logicalShift
    ensures sorted[i].logicalShift < sorted[j].logicalShift
    decreases j
  {
    assert EntryBefore(sorted[j - 1], sorted[j]);
    assert sorted[j - 1] in catalog && sorted[j] in catalog;
    if i < j - 1 {
      ShiftAscends(sorted, catalog, i, j - 1);
    }
  }

  // ----- the order of operands does not matter to the rules -----

  // The same members, whatever their order, and nothing else changed.
  ghost predicate Reordered(a: Program, b: Program) {
    && (forall x :: x in a.inputs <==> x in b.inputs) && (forall x :: x in a.masks <==> x in b.masks)
    && (forall x :: x in a.catalog <==> x in b.catalog)
    && a == b.(inputs := a.inputs, masks := a.masks, catalog := a.catalog)
  }

  lemma {:induction false} CanonicalReorders(program: Program)
    ensures Reordered(Canonicalized(program), program)
  {
    SortedMembers(program.inputs, InputBefore);
    SortedMembers(program.masks, MaskBefore);
    SortedMembers(program.catalog, EntryBefore);
  }

  lemma {:induction false} SameOperands(a: Program, b: Program, id: string)
    requires Reordered(a, b)
    ensures IsInput(a.inputs, id) <==> IsInput(b.inputs, id)
    ensures IsMask(a.masks, id) <==> IsMask(b.masks, id)
    ensures id in DeclaredIds(a.inputs, a.masks) <==> id in DeclaredIds(b.inputs, b.masks)
  {
    hide DeclaredIds, IsInput, IsMask;
    DeclaredIdsAre(a, id);
    DeclaredIdsAre(b, id);
    InputMembers(a.inputs, id);
    InputMembers(b.inputs, id);
    MaskMembers(a.masks, id);
    MaskMembers(b.masks, id);
  }

  lemma {:induction false} InputMembers(inputs: seq<CiphertextInput>, id: string)
    ensures IsInput(inputs, id) <==> exists x :: x in inputs && x.inputId == id
  {
    if i :| 0 <= i < |inputs| && inputs[i].inputId == id {
      assert inputs[i] in inputs;
    }
  }

  lemma {:induction false} MaskMembers(masks: seq<PublicMask>, id: string)
    ensures IsMask(masks, id) <==> exists x :: x in masks && x.maskName == id
  {
    if i :| 0 <= i < |masks| && masks[i].maskName == id {
      assert masks[i] in masks;
    }
  }

  lemma {:induction false} SameRoles(a: Program, b: Program, id: string, role: string)
    requires Reordered(a, b)
    ensures InputWith(a.inputs, id, role) <==> InputWith(b.inputs, id, role)
  {
    hide InputWith;
    RoleMembers(a.inputs, id, role);
    RoleMembers(b.inputs, id, role);
  }

  lemma {:induction false} RoleMembers(inputs: seq<CiphertextInput>, id: string, role: string)
    ensures InputWith(inputs, id, role) <==> exists x :: x in inputs && x.inputId == id && x.role == role
  {
    if i :| 0 <= i < |inputs| && inputs[i].inputId == id && inputs[i].role == role {
      assert inputs[i] in inputs;
    }
  }

  lemma {:induction false} SameNode(a: Program, b: Program, required: Option<set<string>>, k: nat)
    requires Reordered(a, b) && k < |b.nodes| && NodeOk(b, required, k)
    ensures NodeOk(a, required, k)
  {
    hide DeclaredIds, InputWith, IsInput, IsMask, AsciiIdentifier;
    forall id
      ensures IsInput(a.inputs, id) <==> IsInput(b.inputs, id)
      ensures IsMask(a.masks, id) <==> IsMask(b.masks, id)
      ensures id in DeclaredIds(a.inputs, a.masks) <==> id in DeclaredIds(b.inputs, b.masks)
    {
      SameOperands(a, b, id);
    }
    forall id, role ensures InputWith(a.inputs, id, role) <==> InputWith(b.inputs, id, role) {
      SameRoles(a, b, id, role);
    }
  }

  lemma {:induction false} SameOperandChecks(a: Program, b: Program)
    requires Reordered(a, b) && OperandsOk(b) && InputsAscend(a.inputs) && MasksAscend(a.masks)
    ensures OperandsOk(a)
  {
    hide Precedes, InputOk, PublicMaskOk;
    forall i | 0 <= i < |a.inputs| ensures InputOk(a.inputs[i], a.slotCount) {
      assert a.inputs[i] in b.inputs;
    }
    forall i | 0 <= i < |a.masks| ensures PublicMaskOk(a.masks[i], a.slotCount) {
      assert a.masks[i] in b.masks;
    }
    IdsInOrderApart(a, b);
  }

  lemma {:induction false} IdsInOrderApart(a: Program, b: Program)
    requires Reordered(a, b) && NoRepeat(DeclaredIds(b.inputs, b.masks))
    requires InputsAscend(a.inputs) && MasksAscend(a.masks)
    ensures NoRepeat(DeclaredIds(a.inputs, a.masks))
  {
    hide Precedes, Reordered;
    var inputIds := seq(|a.inputs|, i requires 0 <= i < |a.inputs| => a.inputs[i].inputId);
    var maskIds := seq(|a.masks|, i requires 0 <= i < |a.masks| => a.masks[i].maskName);
    assert DeclaredIds(a.inputs, a.masks) == inputIds + maskIds;
    forall i, j | 0 <= i < j < |inputIds| ensures inputIds[i] != inputIds[j] {
      OrderedFar(inputIds, i, j);
    }
    forall i, j | 0 <= i < j < |maskIds| ensures maskIds[i] != maskIds[j] {
      OrderedFar(maskIds, i, j);
    }
    forall id | id in inputIds ensures id !in maskIds {
      if id in maskIds {
        InputAndMaskApart(a, b, id);
      }
    }
    NoRepeatAppend(inputIds, maskIds);
  }

  lemma {:induction false} InputAndMaskApart(a: Program, b: Program, id: string)
    requires Reordered(a, b) && NoRepeat(DeclaredIds(b.inputs, b.masks)) && IsInput(a.inputs, id)
    ensures !IsMask(a.masks, id)
  {
    SameOperands(a, b, id);
    if IsMask(a.masks, id) {
      var i :| 0 <= i < |b.inputs| && b.inputs[i].inputId == id;
      var j :| 0 <= j < |b.masks| && b.masks[j].maskName == id;
      OperandsApart(b, i, j);
    }
  }

  lemma {:induction false} OperandsApart(program: Program, i: nat, j: nat)
    requires NoRepeat(DeclaredIds(program.inputs, program.masks)) && i < |program.inputs| && j < |program.masks|
    ensures program.inputs[i].inputId != program.masks[j].maskName
  {
    var ids := DeclaredIds(program.inputs, program.masks);
    assert ids[i] != ids[|program.inputs| + j];
  }

  lemma {:induction false} SameProgramChecks(a: Program, b: Program)
    requires Reordered(a, b)
    ensures MasksScheduled(b) ==> MasksScheduled(a)
    ensures ConsumersOk(b) ==> ConsumersOk(a)
    ensures NothingDead(b) ==> NothingDead(a)
  {
    hide DeclaredIds, ReturnedSources, MaskUses, Consumers, Contributes, Dependencies, ConsumedAs, OneRelinearize;
    forall i | 0 <= i < |a.inputs| ensures exists j :: 0 <= j < |b.inputs| && b.inputs[j] == a.inputs[i] {
      assert a.inputs[i] in b.inputs;
    }
    forall id ensures id in DeclaredIds(a.inputs, a.masks) <==> id in DeclaredIds(b.inputs, b.masks) {
      SameOperands(a, b, id);
    }
  }

  // The canonical program of an accepted program is accepted.
  lemma {:induction false} CanonicalAccepted(program: Program, required: Option<set<string>>)
    requires Admitted(program, required)
    ensures Admitted(Canonicalized(program), required)
    ensures InputsAscend(Canonicalized(program).inputs) && MasksAscend(Canonicalized(program).masks)
    ensures EntriesAscend(Canonicalized(program).catalog)
  {
    hide OperandsOk, NodeOk, MasksScheduled, ConsumersOk, NothingDead, ReturnIds, AsciiIdentifier, InputsAscend,
      MasksAscend, SortedBy;
    var canonical := Canonicalized(program);
    CanonicalReorders(program);
    CanonicalInputs(program);
    CanonicalMasks(program);
    CanonicalCatalog(program.catalog);
    SameOperandChecks(canonical, program);
    SameProgramChecks(canonical, program);
    forall k | 0 <= k < |canonical.nodes| ensures NodeOk(canonical, required, k) {
      SameNode(canonical, program, required, k);
    }
    forall i | 0 <= i < |canonical.catalog|
      ensures canonical.catalog[i].logicalShift != 0 && canonical.catalog[i].openfheIndex != 0
    {
      assert canonical.catalog[i] in program.catalog;
    }
  }

  // ----- the request -----

  function AsNat(x: int): nat { if x < 0 then 0 else x }

  // What the client has prepared: the program, one vector for each input, the kinds
  // of the F1-M operands, and the modulus they were prepared for.
  datatype QueryView = QueryView(
    program: Program, values: map<string, seq<int>>, kinds: map<string, string>, modulus: int)

  function RawInputOf(x: CiphertextInput, view: QueryView): RawInput {
    RawInput(x.inputId, x.role, if x.inputId in view.kinds then Some(view.kinds[x.inputId]) else None,
             if x.inputId in view.values then view.values[x.inputId] else [])
  }

  function RawInputs(inputs: seq<CiphertextInput>, view: QueryView): (s: seq<RawInput>)
    ensures |s| == |inputs|
  {
    seq(|inputs|, i requires 0 <= i < |inputs| => RawInputOf(inputs[i], view))
  }

  function DeclaredInputs(inputs: seq<CiphertextInput>): (s: seq<DeclaredInput>)
    ensures |s| == |inputs|
  {
    seq(|inputs|, i requires 0 <= i < |inputs| =>
      DeclaredInput(inputs[i].inputId, AsNat(inputs[i].length), inputs[i].role))
  }

  function RawMasks(masks: seq<PublicMask>): (s: seq<RawMask>)
    ensures |s| == |masks|
  {
    seq(|masks|, i requires 0 <= i < |masks| =>
      RawMask(masks[i].maskName, AsNat(masks[i].length), masks[i].role, masks[i].values))
  }

  function RequestOf(view: QueryView, supplied: Option<KeyGenerationPlan>): QueryRequest {
    var program, canonical := view.program, Canonicalized(view.program);
    QueryRequest(
      AsNat(program.slotCount), RawInputs(canonical.inputs, view), DeclaredInputs(canonical.inputs),
      canonical.catalog, ChosenPlan(program.catalog, supplied), RawMasks(canonical.masks), program.nodes,
      program.resultIds)
  }

  // The results that return a blinded ciphertext.
  function MaskedResults(nodes: seq<Node>): set<string> {
    set k | 0 <= k < |nodes| && nodes[k].ReturnResult? && ReturnsBlinded(nodes, nodes[k].ciphertextId) ::
      nodes[k].resultId
  }

  predicate ReturnsBlinded(nodes: seq<Node>, source: string) {
    exists j | 0 <= j < |nodes| :: nodes[j].AddF1MMask? && nodes[j].resultId == source
  }

  // No other choice of results that have to be blinded can admit the program.
  lemma {:induction false} MaskedResultsAreForced(program: Program, required: set<string>)
    requires Admitted(program, Some(required))
    ensures required == MaskedResults(program.nodes)
  {
    hide Admitted;
    var nodes := program.nodes;
    forall id | id in required ensures id in MaskedResults(nodes) {
      RequiredIsReturned(program, required, id);
      var k :| 0 <= k < |nodes| && nodes[k].ReturnResult? && nodes[k].resultId == id;
      var j := ReturnedProducer(program, Some(required), k);
      assert ReturnsBlinded(nodes, nodes[k].ciphertextId);
    }
    forall k | 0 <= k < |nodes| && nodes[k].ReturnResult? && ReturnsBlinded(nodes, nodes[k].ciphertextId)
      ensures nodes[k].resultId in required
    {
      var i :| 0 <= i < |nodes| && nodes[i].AddF1MMask? && nodes[i].resultId == nodes[k].ciphertextId;
      var j := ReturnedProducer(program, Some(required), k);
      ComputedOnce(program, Some(required), i, j);
    }
  }

  lemma {:induction false} RequiredIsReturned(program: Program, required: set<string>, id: string)
    requires Admitted(program, Some(required)) && id in required
    ensures exists k | 0 <= k < |program.nodes| :: program.nodes[k].ReturnResult? && program.nodes[k].resultId == id
  {
    hide OperandsOk, NodeOk, MasksScheduled, ConsumersOk, NothingDead, AsciiIdentifier;
    ReturnIdHasNode(program.nodes, id);
  }

  predicate VectorFits(input: CiphertextInput, view: QueryView) {
    && input.inputId in view.values && |view.values[input.inputId]| == input.length
    && (input.role == F1M_ROLE <==> input.inputId in view.kinds)
  }

  // What the client checks, for a row of n lanes and the profile's modulus p: the
  // program by the rules for its masked results, one vector for each input, the
  // modulus, the slot count against the batch, and the key plans.
  ghost predicate Buildable(view: QueryView, supplied: Option<KeyGenerationPlan>, n: nat, p: Positive)
    requires 0 < n
  {
    && Admitted(view.program, Some(MaskedResults(view.program.nodes)))
    && (forall id | id in view.values :: IsInput(view.program.inputs, id))
    && (forall i | 0 <= i < |view.program.inputs| :: VectorFits(view.program.inputs[i], view))
    && view.modulus == p && view.program.slotCount <= 2 * n
    && PlanTaken(view.program.catalog, supplied, n)
  }

  method BuildRequest(view: QueryView, supplied: Option<KeyGenerationPlan>, n: nat, p: Positive)
    returns (r: Option<QueryRequest>)
    requires 0 < n
    ensures r.Some? <==> Buildable(view, supplied, n, p)
    ensures r.Some? ==> r.value == RequestOf(view, supplied)
  {
    hide Admitted, SortedBy, DerivedPlan, MaskedResults, IsInput, PlanConstructs, ChosenPlan;
    var program := view.program;
    if exists id | id in view.values :: !IsInput(program.inputs, id) {
      return None;
    }
    var canonical := Canonicalized(program);
    CanonicalReorders(program);
    var inputs: seq<RawInput> := [];
    for i := 0 to |canonical.inputs|
      invariant forall j | 0 <= j < i :: VectorFits(canonical.inputs[j], view)
      invariant inputs == RawInputs(canonical.inputs, view)[..i]
    {
      var operand := canonical.inputs[i];
      assert operand in program.inputs;
      if !VectorFits(operand, view) {
        return None;
      }
      var kind := if operand.inputId in view.kinds then Some(view.kinds[operand.inputId]) else None;
      assert operand.inputId in view.values;
      inputs := inputs + [RawInput(operand.inputId, operand.role, kind, view.values[operand.inputId])];
    }
    forall i | 0 <= i < |program.inputs| ensures VectorFits(program.inputs[i], view) {
      assert program.inputs[i] in canonical.inputs;
    }
    if view.modulus != p || program.slotCount > 2 * n {
      return None;
    }
    var derived := DerivedPlan(program.catalog);
    if !PlanConstructs(derived, n) {
      return None;
    }
    var plan := derived;
    if supplied.Some? {
      plan := supplied.value;
      if !PlanConstructs(plan, n) || exists e | e in program.catalog :: e.openfheIndex !in plan.required {
        return None;
      }
      if plan.QueryDerived? && plan != derived {
        return None;
      }
    }
    assert plan == ChosenPlan(program.catalog, supplied) by { PlanIsChosen(program.catalog, supplied); }
    var valid := ValidateCloudProgram(program, Some(MaskedResults(program.nodes)));
    if !valid {
      return None;
    }
    return Some(QueryRequest(
      AsNat(program.slotCount), inputs, DeclaredInputs(canonical.inputs), canonical.catalog, plan,
      RawMasks(canonical.masks), program.nodes, program.resultIds));
  }

  lemma {:induction false} PlanIsChosen(catalog: seq<CatalogEntry>, supplied: Option<KeyGenerationPlan>)
    ensures ChosenPlan(catalog, supplied) == if supplied.Some? then supplied.value else DerivedPlan(catalog)
  {
  }

  // Under the strict rules every result is masked, so the client's rules accept too.
  lemma {:induction false} StrictIsCanonical(program: Program)
    requires Admitted(program, None)
    ensures MaskedResults(program.nodes) == set id | id in program.resultIds
    ensures Admitted(program, Some(MaskedResults(program.nodes)))
  {
    hide OperandsOk, PublicCatalogOk, MasksScheduled, ConsumersOk, NothingDead, AsciiIdentifier;
    var nodes, masked := program.nodes, MaskedResults(program.nodes);
    forall id | id in program.resultIds ensures id in masked {
      ReturnIdHasNode(nodes, id);
      var k :| 0 <= k < |nodes| && nodes[k].ReturnResult? && nodes[k].resultId == id;
      StrictReturnsAreBlinded(program, k);
    }
    forall id | id in masked ensures id in program.resultIds && AsciiIdentifier(id) {
      var k :| 0 <= k < |nodes| && nodes[k].ReturnResult? && nodes[k].resultId == id;
      assert NodeOk(program, None, k);
      ReturnHasId(nodes, k);
    }
    forall k | 0 <= k < |nodes| ensures NodeOk(program, Some(masked), k) {
      assert NodeOk(program, None, k);
      if nodes[k].ReturnResult? {
        ReturnHasId(nodes, k);
      }
    }
  }

  // ----- when the runner takes it -----

  predicate KindOk(kind: string) { kind == "random-zero-sum" || kind == "encrypted-zero-dummy" }

  // What the preparation of the view guarantees of its F1-M operands: a known kind,
  // and residues as entries.
  ghost predicate PreparedInput(x: CiphertextInput, view: QueryView) {
    x.role == F1M_ROLE ==>
      && (x.inputId in view.kinds ==> KindOk(view.kinds[x.inputId]))
      && (x.inputId in view.values ==> forall v | v in view.values[x.inputId] :: 0 <= v < view.modulus)
  }

  ghost predicate Prepared(view: QueryView) {
    forall x | x in view.program.inputs :: PreparedInput(x, view)
  }

  // What the runner demands beyond that: an input, identifiers and entries of
  // bounded size, slots within the row, and rotations within the slots.
  ghost predicate RunnerTakes(view: QueryView, n: nat) {
    && view.program.slotCount <= n && view.program.inputs != []
    && (forall x | x in view.program.inputs :: InputTaken(x, view))
    && (forall x | x in view.program.masks :: |x.maskName| <= 512)
    && (forall e | e in view.program.catalog :: EntryTaken(e, AsNat(view.program.slotCount)))
  }

  ghost predicate InputTaken(x: CiphertextInput, view: QueryView) {
    && |x.inputId| <= 512
    && (x.role != F1M_ROLE && x.inputId in view.values ==> forall v | v in view.values[x.inputId] :: InInt64(v))
  }

  predicate EntryTaken(e: CatalogEntry, slotCount: nat) {
    InInt64(e.logicalShift) && e.logicalShift != MIN_INT64 && Abs(e.openfheIndex) < slotCount
  }

  lemma {:induction false} TakenInput(x: CiphertextInput, slotCount: nat, view: QueryView)
    requires InputOk(x, slotCount) && VectorFits(x, view) && PreparedInput(x, view) && InInt64(view.modulus)
    ensures AcceptableInput(RawInputOf(x, view), slotCount) <==> InputTaken(x, view)
  {
    hide AsciiIdentifier, PrintableIdentifier;
    ShortPrints(x.inputId);
  }

  lemma {:induction false} TakenInputs(view: QueryView, inputs: seq<CiphertextInput>)
    requires OperandsOk(view.program) && InputsAscend(inputs) && |inputs| == |view.program.inputs|
    requires forall i | 0 <= i < |view.program.inputs| :: VectorFits(view.program.inputs[i], view)
    requires Prepared(view) && InInt64(view.modulus) && forall x :: x in inputs <==> x in view.program.inputs
    ensures AcceptableInputs(RawInputs(inputs, view), AsNat(view.program.slotCount))
       <==> view.program.inputs != [] && forall x | x in view.program.inputs :: InputTaken(x, view)
    ensures DeclaredOk(DeclaredInputs(inputs), RawInputs(inputs, view), AsNat(view.program.slotCount))
  {
    hide InputTaken, AcceptableInput, VectorFits, Precedes, PreparedInput, InInt64;
    var program, raw, slotCount := view.program, RawInputs(inputs, view), AsNat(view.program.slotCount);
    forall i | 0 <= i < |inputs|
      ensures AcceptableInput(raw[i], slotCount) <==> InputTaken(inputs[i], view)
      ensures inputs[i].length == slotCount
    {
      assert inputs[i] in program.inputs;
      var j :| 0 <= j < |program.inputs| && program.inputs[j] == inputs[i];
      assert InputOk(program.inputs[j], program.slotCount);
      TakenInput(inputs[i], slotCount, view);
    }
    if AcceptableInputs(raw, slotCount) {
      forall x | x in program.inputs ensures InputTaken(x, view) {
        assert x in inputs;
        var i :| 0 <= i < |inputs| && inputs[i] == x;
        assert AcceptableInput(raw[i], slotCount);
      }
    }
    if forall x | x in program.inputs :: InputTaken(x, view) {
      forall i | 0 <= i < |raw| ensures AcceptableInput(raw[i], slotCount) {
        assert inputs[i] in program.inputs;
      }
    }
  }

  lemma {:induction false} TakenMasks(program: Program, masks: seq<PublicMask>)
    requires OperandsOk(program) && MasksAscend(masks) && forall x :: x in masks <==> x in program.masks
    ensures AcceptableMasks(RawMasks(masks), AsNat(program.slotCount))
       <==> forall x | x in program.masks :: |x.maskName| <= 512
  {
    hide Precedes, AsciiIdentifier, PrintableIdentifier;
    var raw, slotCount := RawMasks(masks), AsNat(program.slotCount);
    forall i | 0 <= i < |masks| ensures AcceptableMask(raw[i], slotCount) <==> |masks[i].maskName| <= 512 {
      assert masks[i] in program.masks;
      var j :| 0 <= j < |program.masks| && program.masks[j] == masks[i];
      assert PublicMaskOk(program.masks[j], program.slotCount);
      ShortPrints(masks[i].maskName);
    }
    if AcceptableMasks(raw, slotCount) {
      forall x | x in program.masks ensures |x.maskName| <= 512 {
        assert x in masks;
        var i :| 0 <= i < |masks| && masks[i] == x;
        assert AcceptableMask(raw[i], slotCount);
      }
    }
    if forall x | x in program.masks :: |x.maskName| <= 512 {
      forall i | 0 <= i < |raw| ensures AcceptableMask(raw[i], slotCount) {
        assert masks[i] in program.masks;
      }
    }
  }

  lemma {:induction false} TakenCatalog(catalog: seq<CatalogEntry>, sorted: seq<CatalogEntry>, slotCount: nat)
    requires slotCount <= 0x7fff_ffff && PublicCatalogOk(catalog)
    requires EntriesAscend(sorted) && forall x :: x in sorted <==> x in catalog
    ensures CatalogOk(sorted, slotCount) <==> forall e | e in catalog :: EntryTaken(e, slotCount)
  {
    forall e | e in catalog ensures CatalogEntryOk(e, slotCount) <==> EntryTaken(e, slotCount) {
      var i :| 0 <= i < |catalog| && catalog[i] == e;
    }
    hide CatalogEntryOk, EntryTaken;
    if CatalogOk(sorted, slotCount) {
      forall e | e in catalog ensures CatalogEntryOk(e, slotCount) {
        assert e in sorted;
      }
    }
    if forall e | e in catalog :: CatalogEntryOk(e, slotCount) {
      forall i | 0 <= i < |sorted| ensures CatalogEntryOk(sorted[i], slotCount) {
        assert sorted[i] in catalog;
      }
    }
  }

  lemma {:induction false} AcceptedOperands(program: Program, required: Option<set<string>>)
    requires Admitted(program, required)
    ensures OperandsOk(program) && PublicCatalogOk(program.catalog)
  {
  }

  // Of a request the client builds from a prepared view, the runner never refuses
  // the key plan, and parses the rest exactly when it takes the view.
  lemma {:induction false} BuiltRequestParses(
    view: QueryView, supplied: Option<KeyGenerationPlan>, n: nat, p: Positive)
    requires 1 < n <= 0x7fff_ffff && InInt64(p) && Buildable(view, supplied, n, p) && Prepared(view)
    ensures RequestFault(RequestOf(view, supplied), n) != Some(KeyPlan)
    ensures RequestFault(RequestOf(view, supplied), n).None? <==> RunnerTakes(view, n)
  {
    hide AcceptableInputs, AcceptableMasks, CatalogOk, KeyPlanOk, EntryTaken, InputTaken, DeclaredOk, Admitted, PlanTaken,
      InputsAscend, MasksAscend, EntriesAscend, VectorFits, SortedBy, ChosenPlan, PublicCatalogOk, OperandsOk, Prepared,
      MaskedResults, InInt64;
    var program, canonical := view.program, Canonicalized(view.program);
    AcceptedOperands(program, Some(MaskedResults(program.nodes)));
    CanonicalReorders(program);
    CanonicalInputs(program);
    CanonicalMasks(program);
    CanonicalCatalog(program.catalog);
    TakenInputs(view, canonical.inputs);
    TakenMasks(program, canonical.masks);
    ClientPlanPasses(program.catalog, canonical.catalog, supplied, n);
    SlotsPositive(program);
    if program.slotCount <= n {
      TakenCatalog(program.catalog, canonical.catalog, AsNat(program.slotCount));
    }
  }

  lemma {:induction false} SlotsPositive(program: Program)
    requires OperandsOk(program)
    ensures program.slotCount > 0
  {
  }

  // ----- from the client to the results -----

  lemma {:induction false} BuiltProgramIsCanonical(view: QueryView, supplied: Option<KeyGenerationPlan>)
    requires Admitted(view.program, Some(MaskedResults(view.program.nodes)))
    ensures RequestProgram(RequestOf(view, supplied)) == Canonicalized(view.program)
  {
    hide MaskedResults, NodeOk, MasksScheduled, ConsumersOk, NothingDead, SortedBy, ChosenPlan, AsciiIdentifier;
    var program := view.program;
    var canonical, built := Canonicalized(program), RequestProgram(RequestOf(view, supplied));
    CanonicalReorders(program);
    forall i | 0 <= i < |canonical.inputs| ensures built.inputs[i] == canonical.inputs[i] {
      assert canonical.inputs[i] in program.inputs;
    }
    forall i | 0 <= i < |canonical.masks| ensures built.masks[i] == canonical.masks[i] {
      assert canonical.masks[i] in program.masks;
    }
    assert built.inputs == canonical.inputs && built.masks == canonical.masks;
  }

  // The raw input has the operand's id and role, and the vector and kind prepared for it.
  predicate CarriesInput(raw: RawInput, x: CiphertextInput, view: QueryView) {
    && raw.id == x.inputId && raw.role == x.role && raw.id in view.values && raw.values == view.values[raw.id]
    && (if raw.id in view.kinds then raw.kind == Some(view.kinds[raw.id]) else raw.kind == None)
  }

  predicate CarriesMask(raw: RawMask, mask: PublicMask) {
    raw.id == mask.maskName && raw.role == mask.role && raw.length == mask.length && raw.values == mask.values
  }

  // What a built request holds: the program unchanged, and its operands, masks and
  // catalog, all of them and nothing else, in ascending order.
  lemma {:induction false} RequestCarriesView(
    view: QueryView, supplied: Option<KeyGenerationPlan>, n: nat, p: Positive)
    requires 0 < n && Buildable(view, supplied, n, p)
    ensures var r, program := RequestOf(view, supplied), view.program;
      && r.slotCount == program.slotCount && r.nodes == program.nodes && r.resultIds == program.resultIds
      && (forall raw | raw in r.inputs :: exists x | x in program.inputs :: CarriesInput(raw, x, view))
      && (forall x | x in program.inputs :: exists raw | raw in r.inputs :: CarriesInput(raw, x, view))
      && (forall raw | raw in r.masks :: exists x | x in program.masks :: CarriesMask(raw, x))
      && (forall x | x in program.masks :: exists raw | raw in r.masks :: CarriesMask(raw, x))
      && (forall e :: e in r.catalog <==> e in program.catalog)
    ensures var r := RequestOf(view, supplied);
      && (forall i | 0 < i < |r.inputs| :: Precedes(r.inputs[i - 1].id, r.inputs[i].id))
      && (forall i | 0 < i < |r.masks| :: Precedes(r.masks[i - 1].id, r.masks[i].id))
      && (forall i | 0 < i < |r.catalog| :: r.catalog[i - 1].logicalShift < r.catalog[i].logicalShift)
  {
    hide Admitted, SortedBy, MaskedResults, ChosenPlan, PlanTaken, Precedes;
    var r, program := RequestOf(view, supplied), view.program;
    var canonical := Canonicalized(program);
    AcceptedOperands(program, Some(MaskedResults(program.nodes)));
    CanonicalReorders(program);
    CanonicalAccepted(program, Some(MaskedResults(program.nodes)));
    forall i | 0 <= i < |canonical.inputs| ensures CarriesInput(r.inputs[i], canonical.inputs[i], view) {
      assert canonical.inputs[i] in program.inputs;
    }
    forall i | 0 <= i < |canonical.masks| ensures CarriesMask(r.masks[i], canonical.masks[i]) {
      assert canonical.masks[i] in program.masks;
    }
    forall x | x in program.inputs ensures exists raw | raw in r.inputs :: CarriesInput(raw, x, view) {
      var i :| 0 <= i < |canonical.inputs| && canonical.inputs[i] == x;
      assert r.inputs[i] in r.inputs;
    }
    forall x | x in program.masks ensures exists raw | raw in r.masks :: CarriesMask(raw, x) {
      var i :| 0 <= i < |canonical.masks| && canonical.masks[i] == x;
      assert r.masks[i] in r.masks;
    }
    forall raw | raw in r.inputs ensures exists x | x in program.inputs :: CarriesInput(raw, x, view) {
      var i :| 0 <= i < |r.inputs| && r.inputs[i] == raw;
      assert canonical.inputs[i] in program.inputs;
    }
    forall raw | raw in r.masks ensures exists x | x in program.masks :: CarriesMask(raw, x) {
      var i :| 0 <= i < |r.masks| && r.masks[i] == raw;
      assert canonical.masks[i] in program.masks;
    }
  }

  // The session of a request the client built ends in its results or in the escape
  // check if and only if the runner takes it and no node id is too long.
  lemma {:induction false} BuiltSessionOutcome(
    view: QueryView, supplied: Option<KeyGenerationPlan>, n: nat, p: Positive)
    requires 1 < n <= 0x7fff_ffff && InInt64(p) && Buildable(view, supplied, n, p) && Prepared(view)
    ensures var r := SessionResult(RequestOf(view, supplied), n, p);
      r.Success? || r == Failure(EscapedRow) <==> RunnerTakes(view, n) && ShortIds(view.program.nodes)
  {
    hide Admitted, SessionResult, RunnerTakes, ShortIds, MaskedResults, VectorFits, PlanTaken, Prepared, InInt64;
    var request, required := RequestOf(view, supplied), Some(MaskedResults(view.program.nodes));
    BuiltRequestParses(view, supplied, n, p);
    CanonicalAccepted(view.program, required);
    BuiltProgramIsCanonical(view, supplied);
    if RequestFault(request, n).None? {
      ValidatedSessionOutcome(request, required, n, p);
    } else {
      FaultedSession(request, n, p);
    }
  }

  lemma {:induction false} FaultedSession(request: QueryRequest, n: nat, p: Positive)
    requires 0 < n && RequestFault(request, n).Some?
    ensures SessionResult(request, n, p).Failure? && SessionResult(request, n, p) != Failure(EscapedRow)
  {
    FaultKinds(request, n);
  }

  // ----- what the client builds and the runner refuses -----

  const EMPTY_PROGRAM := Program(PROGRAM_FORMAT, 1, [], [], [], [], [])

  // The empty program, under the derived plan: built, refused by the parser, and
  // refused by the program loop.
  lemma {:induction false} EmptyProgramIsRefused(env: Env, st: State, n: nat, p: Positive)
    requires 1 < n
    ensures Admitted(EMPTY_PROGRAM, None) && Buildable(QueryView(EMPTY_PROGRAM, map[], map[], p), None, n, p)
    ensures RequestFault(RequestOf(QueryView(EMPTY_PROGRAM, map[], map[], p), None), n) == Some(PrivateInputs)
    ensures Execute(env, st, EMPTY_PROGRAM.nodes) == Failure(EmptyProgram)
  {
    hide PlanConstructs, Admitted, MaskedResults, RequestFault, RequestOf;
    EmptyProgramAccepted();
    StrictIsCanonical(EMPTY_PROGRAM);
    DerivedPlanConstructsIff([], n);
    EmptyRequestFault(n, p);
  }

  lemma {:induction false} EmptyProgramAccepted()
    ensures Admitted(EMPTY_PROGRAM, None)
  {
    assert DeclaredIds([], []) == [];
  }

  lemma {:induction false} EmptyRequestFault(n: nat, p: Positive)
    requires 0 < n
    ensures RequestFault(RequestOf(QueryView(EMPTY_PROGRAM, map[], map[], p), None), n) == Some(PrivateInputs)
  {
    hide ChosenPlan;
  }
}
