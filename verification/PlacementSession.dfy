// Every placement, from the client to the exact product: the emitted program with
// the placed vectors is built into a request, and its session answers, however
// many of the row's lanes it declares.
module PlacementSession {
  import opened Modular
  import opened Lanes
  import opened Reduction
  import opened Naming
  import opened Outcomes
  import opened Sequences
  import opened Emitter
  import opened EmittedRun
  import opened Placement
  import opened PackedComponent
  import opened LogicalMatrix
  import opened ClientMerge
  import opened Pipeline
  import opened F1MMasks
  import opened EndToEnd
  import opened Request
  import opened RotationKeys
  import opened ClientPlan
  import opened Session
  import opened DeployedSession
  import opened ProgramRules
  import opened BuiltRequest
  import opened EmittedAccepted

  // ----- the private vectors -----

  // The declared lanes, which the request carries.
  function FirstLanes(values: seq<int>, slotCount: nat): (s: seq<int>)
    ensures |s| == slotCount
  {
    seq(slotCount, i => At(values, i))
  }

  function KindName(kind: MaskKind): string {
    if kind.RandomZeroSum? then "random-zero-sum" else "encrypted-zero-dummy"
  }

  function VectorsFor(components: seq<Component>, query: seq<int>, slotCount: nat): map<string, seq<int>> {
    if components == [] then map[]
    else
      var c := components[0];
      VectorsFor(components[1..], query, slotCount)
        [NamesOf(c.name)(Values) := PlacedValues(c.terms, slotCount)]
        [NamesOf(c.name)(Query) := PlacedQuery(c.terms, query, slotCount)]
        [NamesOf(c.name)(F1MMask) := FirstLanes(c.mask, slotCount)]
  }

  function KindsFor(components: seq<Component>, kinds: seq<MaskKind>): map<string, string>
    requires |kinds| == |components|
  {
    if components == [] then map[]
    else KindsFor(components[1..], kinds[1..])[NamesOf(components[0].name)(F1MMask) := KindName(kinds[0])]
  }

  function PlacementProgram(components: seq<Component>, m: nat, slotCount: nat): Program {
    EmittedProgram(NamesIn(components), PowersOfTwo(0, m), slotCount, FirstLanes(StartMask(slotCount, Pow2(m)), slotCount))
  }

  function PlacementView(
    shape: Shape, m: nat, query: seq<int>, components: seq<Component>, kinds: seq<MaskKind>, p: Positive): QueryView
    requires |kinds| == |components|
  {
    QueryView(
      PlacementProgram(components, m, shape.rowSize), VectorsFor(components, query, shape.rowSize),
      KindsFor(components, kinds), p)
  }

  // 64-bit entries.
  predicate Sendable(c: Component, query: seq<int>) {
    (forall t | t in c.terms :: InInt64(t.value)) && forall v | v in query :: InInt64(v)
  }

  ghost predicate Placeable(shape: Shape, m: nat, query: seq<int>, components: seq<Component>) {
    && 0 < shape.rowSize && SoundGeometry(shape, components, m) && components != [] && NoRepeat(NamesIn(components))
    && forall c | c in components :: WellPlaced(c, shape, query) && GoodName(c.name, Pow2(m)) && Sendable(c, query)
  }

  // Residues in the declared lanes, and nothing beyond them.
  ghost predicate MasksFit(components: seq<Component>, slotCount: nat, p: Positive) {
    forall c | c in components ::
      (forall v | v in c.mask :: 0 <= v < p) && forall l | slotCount <= l < |c.mask| :: c.mask[l] == 0
  }

  lemma {:induction false} DrawnMasksFit(
    components: seq<Component>, slotCount: nat, rows: nat, p: Positive, draws: nat -> int, values: map<nat, seq<int>>)
    requires MasksDrawn(components, slotCount, rows, p, draws, values)
    ensures MasksFit(components, slotCount, p)
  {
    hide OutputPlanOk, InRange, PreparedMasks, CarriesShare;
    PreparedIsShaped(OutputPlanOf(components), slotCount, rows, p, draws, values);
    forall c | c in components
      ensures (forall v | v in c.mask :: 0 <= v < p) && forall l | slotCount <= l < |c.mask| :: c.mask[l] == 0
    {
      var k :| 0 <= k < |components| && components[k] == c;
      DrawnMaskFits(c.mask, k, slotCount, p, values);
    }
  }

  lemma {:induction false} DrawnMaskFits(mask: seq<int>, k: nat, slotCount: nat, p: Positive, values: map<nat, seq<int>>)
    requires Shaped(values, slotCount, p) && CarriesShare(mask, values, k)
    ensures (forall v | v in mask :: 0 <= v < p) && forall l | slotCount <= l < |mask| :: mask[l] == 0
  {
    forall l: nat | l < |mask| ensures 0 <= mask[l] < p && (slotCount <= l ==> mask[l] == 0) {
      assert At(mask, l) == MaskAt(values, Lane(k, l));
      assert k in values ==> Residues(values[k], p) && |values[k]| == slotCount;
    }
  }

  // ----- what the vectors hold -----

  lemma {:induction false} NamesRest(components: seq<Component>)
    requires components != [] && NoRepeat(NamesIn(components))
    ensures NoRepeat(NamesIn(components[1..]))
    ensures forall c | c in components[1..] :: c.name != components[0].name
  {
    var names, rest := NamesIn(components), components[1..];
    forall i, j | 0 <= i < j < |rest| ensures NamesIn(rest)[i] != NamesIn(rest)[j] {
      assert names[i + 1] != names[j + 1];
    }
    forall c | c in rest ensures c.name != components[0].name {
      var i :| 0 <= i < |rest| && rest[i] == c;
      assert names[0] != names[i + 1];
    }
  }

  ghost predicate VectorsAre(vectors: map<string, seq<int>>, c: Component, query: seq<int>, n: nat) {
    && NamesOf(c.name)(Values) in vectors && NamesOf(c.name)(Query) in vectors && NamesOf(c.name)(F1MMask) in vectors
    && vectors[NamesOf(c.name)(Values)] == PlacedValues(c.terms, n)
    && vectors[NamesOf(c.name)(Query)] == PlacedQuery(c.terms, query, n)
    && vectors[NamesOf(c.name)(F1MMask)] == FirstLanes(c.mask, n)
  }

  lemma {:induction false} NamesApart(c: string, d: string)
    requires c != d
    ensures forall s, t :: NamesOf(c)(s) != NamesOf(d)(t)
  {
    forall s, t ensures NamesOf(c)(s) != NamesOf(d)(t) {
      if NamesOf(c)(s) == NamesOf(d)(t) {
        NamesDisjoint(c, s, d, t);
      }
    }
  }

  lemma {:induction false} VectorsHold(components: seq<Component>, query: seq<int>, n: nat, c: Component)
    requires NoRepeat(NamesIn(components)) && c in components
    ensures VectorsAre(VectorsFor(components, query, n), c, query, n)
    decreases |components|
  {
    hide NamesOf, FirstLanes, PlacedValues, PlacedQuery;
    var first := components[0];
    NamesRest(components);
    OwnNamesDiffer(first.name, Values);
    OwnNamesDiffer(first.name, Query);
    if c != first {
      assert c in components[1..];
      VectorsHold(components[1..], query, n, c);
      NamesApart(c.name, first.name);
    }
  }

  lemma {:induction false} VectorIds(components: seq<Component>, query: seq<int>, n: nat, id: string)
    requires id in VectorsFor(components, query, n)
    ensures IsInput(InputsFor(NamesIn(components), n), id)
    decreases |components|
  {
    hide NamesOf, FirstLanes, PlacedValues, PlacedQuery, IsInput, InputsFor;
    InputIdIs(NamesIn(components), n, id);
    var first := components[0];
    assert NamesIn(components)[0] == first.name;
    assert !Computed(Values) && !Computed(Query) && !Computed(F1MMask);
    if id != NamesOf(first.name)(Values) && id != NamesOf(first.name)(Query) && id != NamesOf(first.name)(F1MMask) {
      VectorIds(components[1..], query, n, id);
      InputIdIs(NamesIn(components[1..]), n, id);
      var c, s :| c in NamesIn(components[1..]) && !Computed(s) && id == NamesOf(c)(s);
      NameInRest(components, c);
    }
  }

  lemma {:induction false} NameInRest(components: seq<Component>, name: string)
    requires components != [] && name in NamesIn(components[1..])
    ensures name in NamesIn(components)
  {
    var i :| 0 <= i < |components[1..]| && NamesIn(components[1..])[i] == name;
    assert NamesIn(components)[i + 1] == name;
  }

  lemma {:induction false} KindsHold(components: seq<Component>, kinds: seq<MaskKind>, c: Component)
    requires |kinds| == |components| && c in components
    ensures NamesOf(c.name)(F1MMask) in KindsFor(components, kinds)
    decreases |components|
  {
    hide NamesOf;
    if c != components[0] {
      KindsHold(components[1..], kinds[1..], c);
    }
  }

  lemma {:induction false} KindIds(components: seq<Component>, kinds: seq<MaskKind>, id: string)
    requires |kinds| == |components| && id in KindsFor(components, kinds)
    ensures KindOk(KindsFor(components, kinds)[id])
    ensures exists c :: c in components && id == NamesOf(c.name)(F1MMask)
    decreases |components|
  {
    hide NamesOf;
    if id == NamesOf(components[0].name)(F1MMask) {
      assert components[0] in components;
    } else {
      KindIds(components[1..], kinds[1..], id);
      var c :| c in components[1..] && id == NamesOf(c.name)(F1MMask);
      assert c in components;
    }
  }

  // ----- the client builds the request -----

  lemma {:induction false} PlacementAccepted(shape: Shape, m: nat, query: seq<int>, components: seq<Component>)
    requires Placeable(shape, m, query, components) && shape.rowSize <= 0x7fff_ffff
    ensures Admitted(PlacementProgram(components, m, shape.rowSize), None)
  {
    hide WellPlaced, GoodName, Sendable, InputsFor, ProgramNodes, ResultIds, Admitted, PowersOfTwo;
    var names, slotCount := NamesIn(components), shape.rowSize;
    forall name | name in names ensures GoodName(name, 1 + Total(PowersOfTwo(0, m))) {
      var i :| 0 <= i < |names| && names[i] == name;
      assert components[i] in components;
      SpanOfPowers(m);
    }
    LadderFits(m, slotCount);
    EmittedIsAccepted(names, PowersOfTwo(0, m), slotCount, FirstLanes(StartMask(slotCount, Pow2(m)), slotCount));
  }

  // Every ladder rotation is smaller than the declared lanes.
  lemma {:induction false} LadderFits(m: nat, slotCount: nat)
    requires 0 < slotCount <= 0x7fff_ffff && slotCount % Pow2(m) == 0
    ensures RotationsFit(PowersOfTwo(0, m))
    ensures forall r | r in PowersOfTwo(0, m) :: 0 < r < slotCount
  {
    PowersAscend(0, m, 0);
    assert Pow2(m) <= slotCount by {
      if slotCount < Pow2(m) {
        ModSmall(slotCount, Pow2(m));
      }
    }
    forall r | r in PowersOfTwo(0, m) ensures 0 < r < slotCount {
      var j :| 0 <= j < m && PowersOfTwo(0, m)[j] == r;
      PowersGrow(j + 1, m);
    }
  }

  // So its derived plan is constructed, whatever the row.
  lemma {:induction false} LadderPlan(m: nat, slotCount: nat, n: nat)
    requires 0 < slotCount <= n <= 0x7fff_ffff && 1 < n && slotCount % Pow2(m) == 0
    ensures forall e | e in LadderCatalog(PowersOfTwo(0, m)) :: EntryTaken(e, slotCount)
    ensures PlanTaken(LadderCatalog(PowersOfTwo(0, m)), None, n)
  {
    hide DerivedPlan, PlanConstructs;
    LadderFits(m, slotCount);
    var catalog := LadderCatalog(PowersOfTwo(0, m));
    forall e | e in catalog ensures 0 < e.openfheIndex < slotCount && e.logicalShift == e.openfheIndex {
      var i :| 0 <= i < |catalog| && catalog[i] == e;
      assert PowersOfTwo(0, m)[i] in PowersOfTwo(0, m);
    }
    forall e | e in catalog ensures e.openfheIndex % n == e.openfheIndex {
      ModSmall(e.openfheIndex, n);
    }
    DerivedPlanConstructsIff(catalog, n);
  }

  lemma {:induction false} VectorOfInput(
    shape: Shape, m: nat, query: seq<int>, components: seq<Component>, kinds: seq<MaskKind>, p: Positive,
    x: CiphertextInput)
    requires NoRepeat(NamesIn(components)) && |kinds| == |components|
    requires x in InputsFor(NamesIn(components), shape.rowSize)
    ensures VectorFits(x, PlacementView(shape, m, query, components, kinds, p))
  {
    hide NamesOf, FirstLanes, InputsFor, VectorsFor, KindsFor, PlacedValues, PlacedQuery, PlacementProgram;
    var names, slotCount := NamesIn(components), shape.rowSize;
    InputMember(names, slotCount, x);
    var name :| name in names && x in ComponentInputs(name, slotCount);
    var i :| 0 <= i < |names| && names[i] == name;
    var c := components[i];
    VectorsHold(components, query, slotCount, c);
    if x.role == F1M_ROLE {
      KindsHold(components, kinds, c);
    } else if x.inputId in KindsFor(components, kinds) {
      KindIds(components, kinds, x.inputId);
      var d :| d in components && x.inputId == NamesOf(d.name)(F1MMask);
      NamesDisjoint(name, if x.role == VALUE_ROLE then Values else Query, d.name, F1MMask);
    }
  }

  // The client builds the request, under the derived plan or any other it takes.
  lemma {:induction false} PlacementBuildable(
    shape: Shape, m: nat, query: seq<int>, components: seq<Component>, kinds: seq<MaskKind>,
    supplied: Option<KeyGenerationPlan>, n: nat, p: Positive)
    requires Placeable(shape, m, query, components) && shape.rowSize <= n <= 0x7fff_ffff && 1 < n
    requires |kinds| == |components|
    requires supplied.None? || PlanTaken(LadderCatalog(PowersOfTwo(0, m)), supplied, n)
    ensures Buildable(PlacementView(shape, m, query, components, kinds, p), supplied, n, p)
  {
    hide WellPlaced, GoodName, Sendable, InputsFor, ProgramNodes, ResultIds, Admitted, VectorsFor, KindsFor, VectorFits,
      IsInput, MaskedResults, PlanTaken, LadderCatalog, PowersOfTwo, FirstLanes, StartMask;
    var view := PlacementView(shape, m, query, components, kinds, p);
    PlacementAccepted(shape, m, query, components);
    StrictIsCanonical(view.program);
    LadderPlan(m, shape.rowSize, n);
    forall id | id in view.values ensures IsInput(view.program.inputs, id) {
      VectorIds(components, query, shape.rowSize, id);
    }
    forall i | 0 <= i < |view.program.inputs| ensures VectorFits(view.program.inputs[i], view) {
      VectorOfInput(shape, m, query, components, kinds, p, view.program.inputs[i]);
    }
  }

  // ----- the runner takes it -----

  lemma {:induction false} PlacedEntriesFit(terms: seq<Term>, query: seq<int>, batch: nat)
    requires (forall t | t in terms :: InInt64(t.value)) && forall v | v in query :: InInt64(v)
    ensures forall v | v in PlacedValues(terms, batch) :: InInt64(v)
    ensures forall v | v in PlacedQuery(terms, query, batch) :: InInt64(v)
  {
    if terms != [] {
      var t := terms[|terms| - 1];
      assert t in terms;
      PlacedEntriesFit(terms[..|terms| - 1], query, batch);
      var values, aligned := PlacedValues(terms[..|terms| - 1], batch), PlacedQuery(terms[..|terms| - 1], query, batch);
      UpdateFits(values, t.slot, t.value);
      if t.column < |query| {
        UpdateFits(aligned, t.slot, query[t.column]);
      }
    }
  }

  lemma {:induction false} UpdateFits(s: seq<int>, i: nat, x: int)
    requires InInt64(x) && forall v | v in s :: InInt64(v)
    ensures i < |s| ==> forall v | v in s[i := x] :: InInt64(v)
  {
  }

  lemma {:induction false} FirstLanesFit(values: seq<int>, slotCount: nat, p: Positive)
    requires forall v | v in values :: 0 <= v < p
    ensures forall v | v in FirstLanes(values, slotCount) :: 0 <= v < p
  {
    forall i: nat ensures 0 <= At(values, i) < p {
      assert i < |values| ==> values[i] in values;
    }
  }

  lemma {:induction false} InputIsTaken(
    shape: Shape, m: nat, query: seq<int>, components: seq<Component>, kinds: seq<MaskKind>, p: Positive,
    x: CiphertextInput)
    requires Placeable(shape, m, query, components) && |kinds| == |components|
    requires MasksFit(components, shape.rowSize, p) && x in InputsFor(NamesIn(components), shape.rowSize)
    ensures var view := PlacementView(shape, m, query, components, kinds, p);
      InputTaken(x, view) && PreparedInput(x, view)
  {
    hide NamesOf, FirstLanes, InputsFor, VectorsFor, KindsFor, PlacedValues, PlacedQuery, WellPlaced, GoodName, InInt64,
      SoundGeometry, KindOk, PlacementProgram;
    var slotCount, names := shape.rowSize, NamesIn(components);
    InputMember(names, slotCount, x);
    var name :| name in names && x in ComponentInputs(name, slotCount);
    var i :| 0 <= i < |names| && names[i] == name;
    var c := components[i];
    assert c in components;
    VectorsHold(components, query, slotCount, c);
    PlacedEntriesFit(c.terms, query, slotCount);
    FirstLanesFit(c.mask, slotCount, p);
    NamesShort(name, Pow2(m));
    if x.inputId in KindsFor(components, kinds) {
      KindIds(components, kinds, x.inputId);
    }
  }

  lemma {:induction false} NamesShort(name: string, total: nat)
    requires GoodName(name, total)
    ensures |NamesOf(name)(Values)| <= 512 && |NamesOf(name)(Query)| <= 512 && |NamesOf(name)(F1MMask)| <= 512
  {
  }

  lemma {:induction false} PlacementTaken(
    shape: Shape, m: nat, query: seq<int>, components: seq<Component>, kinds: seq<MaskKind>, n: nat, p: Positive)
    requires Placeable(shape, m, query, components) && shape.rowSize <= n <= 0x7fff_ffff && 1 < n
    requires |kinds| == |components| && MasksFit(components, shape.rowSize, p)
    ensures var view := PlacementView(shape, m, query, components, kinds, p);
      RunnerTakes(view, n) && Prepared(view)
  {
    hide WellPlaced, GoodName, Sendable, InputsFor, ProgramNodes, ResultIds, VectorsFor, KindsFor, InputTaken,
      PreparedInput, EntryTaken, LadderCatalog, PowersOfTwo, MasksFit, PlanTaken, FirstLanes, StartMask;
    var view := PlacementView(shape, m, query, components, kinds, p);
    LadderPlan(m, shape.rowSize, n);
    forall x | x in view.program.inputs ensures InputTaken(x, view) && PreparedInput(x, view) {
      InputIsTaken(shape, m, query, components, kinds, p, x);
    }
    SomeInputs(NamesIn(components), shape.rowSize);
  }

  lemma {:induction false} SomeInputs(names: seq<string>, length: nat)
    requires names != []
    ensures InputsFor(names, length) != []
  {
  }

  // ----- it serves the components -----

  lemma {:induction false} FirstLanesAreAll(values: seq<int>, slotCount: nat)
    requires forall l | slotCount <= l < |values| :: values[l] == 0
    ensures SameLanes(FirstLanes(values, slotCount), values)
  {
  }

  // Placed into the declared lanes or into the whole batch, the lanes are the same.
  lemma {:induction false} PlacedAlike(terms: seq<Term>, query: seq<int>, slotCount: nat, batch: nat)
    requires slotCount <= batch && forall t | t in terms :: t.slot < slotCount
    ensures SameLanes(PlacedValues(terms, slotCount), PlacedValues(terms, batch))
    ensures SameLanes(PlacedQuery(terms, query, slotCount), PlacedQuery(terms, query, batch))
  {
    if terms != [] {
      hide SameLanes;
      var t, init := terms[|terms| - 1], terms[..|terms| - 1];
      assert t in terms;
      PlacedAlike(init, query, slotCount, batch);
      UpdatedAlike(PlacedValues(init, slotCount), PlacedValues(init, batch), t.slot, t.value);
      if t.column < |query| {
        UpdatedAlike(PlacedQuery(init, query, slotCount), PlacedQuery(init, query, batch), t.slot, query[t.column]);
      }
    }
  }

  lemma {:induction false} UpdatedAlike(a: seq<int>, b: seq<int>, i: nat, x: int)
    requires SameLanes(a, b) && i < |a| && i < |b|
    ensures SameLanes(a[i := x], b[i := x])
  {
    var c, d := a[i := x], b[i := x];
    forall l: nat ensures At(c, l) == At(d, l) {
      assert At(a, l) == At(b, l);
    }
  }

  lemma {:induction false} TermsInLanes(c: Component, shape: Shape, query: seq<int>)
    requires WellPlaced(c, shape, query)
    ensures forall t | t in c.terms :: t.slot < shape.rowSize
  {
    forall t | t in c.terms ensures t.slot < shape.rowSize {
      assert Admissible(shape, query, t);
    }
  }

  lemma {:induction false} RequestCarries(
    view: QueryView, supplied: Option<KeyGenerationPlan>, id: string, lanes: seq<int>)
    requires IsInput(view.program.inputs, id) && id in view.values && SameLanes(view.values[id], lanes)
    ensures Supplies(RequestOf(view, supplied).inputs, id, lanes)
  {
    hide SortedBy, ChosenPlan, SameLanes;
    CanonicalReorders(view.program);
    SameOperands(Canonicalized(view.program), view.program, id);
    var inputs := Canonicalized(view.program).inputs;
    var i :| 0 <= i < |inputs| && inputs[i].inputId == id;
    var raw := RequestOf(view, supplied).inputs;
    assert raw[i].id == id && raw[i].values == view.values[id];
  }

  lemma {:induction false} ComponentCarried(
    shape: Shape, m: nat, query: seq<int>, components: seq<Component>, kinds: seq<MaskKind>,
    supplied: Option<KeyGenerationPlan>, n: nat, p: Positive, c: Component)
    requires Placeable(shape, m, query, components) && shape.rowSize <= n && |kinds| == |components|
    requires MasksFit(components, shape.rowSize, p) && c in components
    ensures SuppliesComponent(
      RequestOf(PlacementView(shape, m, query, components, kinds, p), supplied).inputs, c, query, n)
  {
    hide NamesOf, FirstLanes, InputsFor, VectorsFor, KindsFor, PlacedValues, PlacedQuery, WellPlaced, GoodName, SameLanes,
      SoundGeometry, RequestOf, ProgramNodes, ResultIds, Supplies;
    var slotCount, view := shape.rowSize, PlacementView(shape, m, query, components, kinds, p);
    VectorsHold(components, query, slotCount, c);
    TermsInLanes(c, shape, query);
    PlacedAlike(c.terms, query, slotCount, 2 * n);
    FirstLanesAreAll(c.mask, slotCount);
    ComponentNamed(components, c);
    forall s | !Computed(s) ensures IsInput(view.program.inputs, NamesOf(c.name)(s)) {
      InputIdIs(NamesIn(components), slotCount, NamesOf(c.name)(s));
    }
    RequestCarries(view, supplied, NamesOf(c.name)(Values), PlacedValues(c.terms, 2 * n));
    RequestCarries(view, supplied, NamesOf(c.name)(Query), PlacedQuery(c.terms, query, 2 * n));
    RequestCarries(view, supplied, NamesOf(c.name)(F1MMask), c.mask);
  }

  lemma {:induction false} ComponentNamed(components: seq<Component>, c: Component)
    requires c in components
    ensures c.name in NamesIn(components)
  {
    var i :| 0 <= i < |components| && components[i] == c;
    assert NamesIn(components)[i] == c.name;
  }

  lemma {:induction false} OnlyComponents(
    view: QueryView, supplied: Option<KeyGenerationPlan>, components: seq<Component>, length: nat)
    requires view.program.inputs == InputsFor(NamesIn(components), length)
    ensures forall i | 0 <= i < |RequestOf(view, supplied).inputs| ::
      InputOf(RequestOf(view, supplied).inputs[i].id, components)
  {
    hide SortedBy, ChosenPlan, InputsFor, NamesOf, IsInput;
    CanonicalReorders(view.program);
    var inputs, raw := Canonicalized(view.program).inputs, RequestOf(view, supplied).inputs;
    forall i | 0 <= i < |raw| ensures InputOf(raw[i].id, components) {
      assert raw[i].id == inputs[i].inputId && inputs[i] in view.program.inputs;
      InputMember(NamesIn(components), length, inputs[i]);
      var name :| name in NamesIn(components) && inputs[i] in ComponentInputs(name, length);
      var k :| 0 <= k < |components| && NamesIn(components)[k] == name;
      assert components[k] in components;
      assert !Computed(Values) && !Computed(Query) && !Computed(F1MMask);
    }
  }

  lemma {:induction false} SelectionCarried(
    view: QueryView, supplied: Option<KeyGenerationPlan>, slotCount: nat, width: Positive)
    requires view.program.masks
      == [PublicMask(SEGMENT_STARTS, SELECTION_ROLE, slotCount, FirstLanes(StartMask(slotCount, width), slotCount))]
    ensures var masks := RequestOf(view, supplied).masks;
      exists i :: 0 <= i < |masks| && masks[i].id == SEGMENT_STARTS
                  && SameLanes(masks[i].values, StartMask(slotCount, width))
  {
    hide SortedBy, ChosenPlan, FirstLanes, StartMask, SameLanes;
    CanonicalReorders(view.program);
    var sorted, masks := Canonicalized(view.program).masks, RequestOf(view, supplied).masks;
    assert view.program.masks[0] in sorted;
    var i :| 0 <= i < |sorted| && sorted[i] == view.program.masks[0];
    assert masks[i].id == SEGMENT_STARTS && masks[i].values == FirstLanes(StartMask(slotCount, width), slotCount);
    SecondRowUnselected(slotCount, width);
    FirstLanesAreAll(StartMask(slotCount, width), slotCount);
  }

  lemma {:induction false} SecondRowUnselected(n: nat, width: Positive)
    ensures forall l | n <= l < 2 * n :: StartMask(n, width)[l] == 0
  {
  }

  // The built request serves the components.
  lemma {:induction false} PlacementServes(
    shape: Shape, m: nat, query: seq<int>, components: seq<Component>, kinds: seq<MaskKind>,
    supplied: Option<KeyGenerationPlan>, n: nat, p: Positive)
    requires Placeable(shape, m, query, components) && shape.rowSize <= n <= 0x7fff_ffff && 1 < n && InInt64(p)
    requires |kinds| == |components| && MasksFit(components, shape.rowSize, p)
    requires supplied.None? || PlanTaken(LadderCatalog(PowersOfTwo(0, m)), supplied, n)
    ensures RequestServes(
      RequestOf(PlacementView(shape, m, query, components, kinds, p), supplied), shape, m, query, components, n)
  {
    hide WellPlaced, GoodName, Sendable, InputsFor, ProgramNodes, ResultIds, VectorsFor, KindsFor, RunnerTakes, Prepared,
      SuppliesComponent, InputOf, SameLanes, FirstLanes, StartMask, RequestFault, SortedBy, ChosenPlan, Buildable,
      MasksFit, PlanTaken, InInt64;
    var view := PlacementView(shape, m, query, components, kinds, p);
    PlacementBuildable(shape, m, query, components, kinds, supplied, n, p);
    PlacementTaken(shape, m, query, components, kinds, n, p);
    BuiltRequestParses(view, supplied, n, p);
    forall c | c in components ensures SuppliesComponent(RequestOf(view, supplied).inputs, c, query, n) {
      ComponentCarried(shape, m, query, components, kinds, supplied, n, p, c);
    }
    OnlyComponents(view, supplied, components, shape.rowSize);
    SelectionCarried(view, supplied, shape.rowSize, Pow2(m));
    CanonicalReorders(view.program);
    forall r | r in PowersOfTwo(0, m) ensures CatalogEntry(r, r) in RequestOf(view, supplied).catalog {
      EntryListed(PowersOfTwo(0, m), r);
    }
  }

  // For every placement of 64-bit entries into any number of declared lanes up to the
  // row, every query, every draw and every key plan the client takes: the client
  // builds the request, the runner takes it, its session succeeds, and merging the
  // results gives the product mod p, and the exact integer row within the bound.
  lemma {:induction false} EveryPlacementIsAnswered(
    shape: Shape, m: nat, query: seq<int>, components: seq<Component>, kinds: seq<MaskKind>,
    supplied: Option<KeyGenerationPlan>, matrix: Matrix, rows: nat, n: nat, p: Positive, draws: nat -> int,
    values: map<nat, seq<int>>)
    requires Placeable(shape, m, query, components) && shape.rowSize <= n <= 0x7fff_ffff && 1 < n && InInt64(p)
    requires |kinds| == |components|
    requires supplied.None? || PlanTaken(LadderCatalog(PowersOfTwo(0, m)), supplied, n)
    requires Holds(components, matrix) && MasksDrawn(components, shape.rowSize, rows, p, draws, values)
    ensures var view := PlacementView(shape, m, query, components, kinds, p);
      var r := SessionResult(RequestOf(view, supplied), n, p);
      && Buildable(view, supplied, n, p) && Prepared(view)
      && r.Success? && |r.value| == |components|
      && (forall row | 0 <= row < rows ::
           MergedAll(components, ValuesIn(r.value), row, p) == RowProduct(matrix, query, row) % p)
      && (forall e | e in AllEntries(components) :: e.column < |query|)
      && (Bounded(components, query, rows, p) ==> forall row | 0 <= row < rows ::
           CenteredLift(MergedAll(components, ValuesIn(r.value), row, p), p) == RowProduct(matrix, query, row))
  {
    hide Placeable, Holds, MasksDrawn, MasksFit, Buildable, Prepared, RunnerTakes, SessionResult, RequestServes,
      MergedAll, RowProduct, CenteredLift, RequestOf, PlacementView, AllEntries, PlanTaken;
    DrawnMasksFit(components, shape.rowSize, rows, p, draws, values);
    PlacementBuildable(shape, m, query, components, kinds, supplied, n, p);
    PlacementTaken(shape, m, query, components, kinds, n, p);
    PlacementServes(shape, m, query, components, kinds, supplied, n, p);
    SessionAnswers(
      RequestOf(PlacementView(shape, m, query, components, kinds, p), supplied), shape, m, query, components, matrix,
      rows, n, p, draws, values);
  }
}
