// One small deployment that meets every hypothesis of the whole-query theorems:
// a base and a delta component whose terms meet in row 0.
module Example {
  import opened Reduction
  import opened Naming
  import opened Outcomes
  import opened CloudProgram
  import opened Emitter
  import opened EmittedRun
  import opened Placement
  import opened PackedComponent
  import opened LogicalMatrix
  import opened ClientMerge
  import opened Pipeline
  import opened F1MMasks
  import opened EndToEnd
  import opened Request
  import opened RotationKeys
  import opened Session
  import opened DeployedSession
  import opened PlacementSession
  import opened Lanes
  import opened Sequences
  import opened TypedRuns
  import opened WholeQuery
  import opened OperandLabels
  import opened WholeTrace

  const SHAPE := Shape(2, 2, 1)
  const QUERY := [1, 2]
  const MATRIX: Matrix := map[(0, 0) := 3, (0, 1) := -1]

  function TwoComponents(): seq<Component> {
    [Component("base", 2, [Term(0, 0, 3)], [(0, 0)], [2, 0, 0, 0]),
     Component("delta", 2, [Term(0, 1, -1)], [(0, 0)], [3, 0, 0, 0])]
  }

  function TwoComponentRequest(): QueryRequest {
    QueryRequest(
      2,
      [RawInput("base-f1m-mask", "f1m-mask", Some("random-zero-sum"), [2, 0]),
       RawInput("base-query", "query", None, [1, 0]),
       RawInput("base-values", "value", None, [3, 0]),
       RawInput("delta-f1m-mask", "f1m-mask", Some("random-zero-sum"), [3, 0]),
       RawInput("delta-query", "query", None, [2, 0]),
       RawInput("delta-values", "value", None, [-1, 0])],
      [DeclaredInput("base-f1m-mask", 2, "f1m-mask"), DeclaredInput("base-query", 2, "query"),
       DeclaredInput("base-values", 2, "value"), DeclaredInput("delta-f1m-mask", 2, "f1m-mask"),
       DeclaredInput("delta-query", 2, "query"), DeclaredInput("delta-values", 2, "value")],
      [CatalogEntry(1, 1)],
      QueryDerived(EXACT_CATALOG, [1], true),
      [RawMask("segment-starts", 2, "selection", [1, 0])],
      ProgramNodes(["base", "delta"], PowersOfTwo(0, 1)),
      EmittedRun.ResultIds(["base", "delta"]))
  }

  // ----- the request is accepted -----

  lemma {:induction false} PrecedesAfter(prefix: string, a: string, b: string)
    requires a != "" && b != "" && a[0] < b[0]
    ensures Precedes(prefix + a, prefix + b)
    decreases |prefix|
  {
    if prefix == "" {
      assert prefix + a == a && prefix + b == b;
    } else {
      assert (prefix + a)[1..] == prefix[1..] + a && (prefix + b)[1..] == prefix[1..] + b;
      PrecedesAfter(prefix[1..], a, b);
    }
  }

  lemma {:induction false} InputsOrdered()
    ensures var raw := TwoComponentRequest().inputs;
      forall i | 0 < i < |raw| :: Precedes(raw[i - 1].id, raw[i].id)
  {
    hide Precedes, ProgramNodes;
    PrecedesAfter("base-", "f1m-mask", "query");
    PrecedesAfter("base-", "query", "values");
    PrecedesAfter("delta-", "f1m-mask", "query");
    PrecedesAfter("delta-", "query", "values");
    assert "base-" + "f1m-mask" == "base-f1m-mask" && "base-" + "query" == "base-query";
    assert "base-" + "values" == "base-values" && "delta-" + "values" == "delta-values";
    assert "delta-" + "f1m-mask" == "delta-f1m-mask" && "delta-" + "query" == "delta-query";
    PrecedesAfter("", "base-values", "delta-f1m-mask");
    assert "" + "base-values" == "base-values" && "" + "delta-f1m-mask" == "delta-f1m-mask";
  }

  lemma {:induction false} InputsAccepted()
    ensures AcceptableInputs(TwoComponentRequest().inputs, 2)
  {
    hide Precedes, ProgramNodes, AcceptableInput;
    InputsOrdered();
    InputAccepted("base-f1m-mask", "f1m-mask", Some("random-zero-sum"), 2, 0);
    InputAccepted("base-query", "query", None, 1, 0);
    InputAccepted("base-values", "value", None, 3, 0);
    InputAccepted("delta-f1m-mask", "f1m-mask", Some("random-zero-sum"), 3, 0);
    InputAccepted("delta-query", "query", None, 2, 0);
    InputAccepted("delta-values", "value", None, -1, 0);
  }

  lemma {:induction false} InputAccepted(id: string, role: string, kind: Option<string>, a: int, b: int)
    requires PrintableIdentifier(id) && RoleAndKind(role, kind) && InInt64(a) && InInt64(b)
    ensures AcceptableInput(RawInput(id, role, kind, [a, b]), 2)
  {
  }

  lemma {:induction false} KeysAccepted()
    ensures CatalogOk(TwoComponentRequest().catalog, 2)
    ensures KeyPlanOk(TwoComponentRequest().plan, TwoComponentRequest().catalog, 2)
    ensures AcceptableMasks(TwoComponentRequest().masks, 2)
  {
    hide Precedes, ProgramNodes;
    var request := TwoComponentRequest();
    assert request.catalog[0].openfheIndex == 1;
    assert AcceptableMask(request.masks[0], 2);
  }

  lemma {:induction false} RequestAccepted()
    ensures RequestFault(TwoComponentRequest(), 2).None?
  {
    hide ProgramNodes, AcceptableInputs, CatalogOk, KeyPlanOk, AcceptableMasks;
    InputsAccepted();
    KeysAccepted();
  }

  // ----- the components are placed and supplied -----

  lemma {:induction false} OneTermPlaced(c: Component, column: nat, value: int)
    requires c.terms == [Term(0, column, value)] && c.owners == [(0, 0)] && |c.mask| == 4 && c.width == 2
    requires column < 2
    ensures WellPlaced(c, SHAPE, QUERY)
    ensures PlacedValues(c.terms, 4) == [value, 0, 0, 0] && PlacedQuery(c.terms, QUERY, 4) == [QUERY[column], 0, 0, 0]
  {
    assert (0, 0) in c.owners && SegmentOf(0, 2) == 0;
    assert c.terms[..0] == [];
  }

  lemma {:induction false} ShortName(name: string)
    requires name == "base" || name == "delta"
    ensures GoodName(name, Pow2(1))
  {
    assert Pow2(1) == 2 * Pow2(0);
    assert Decimal(2) == "2";
  }

  lemma {:induction false} InputNames()
    ensures NamesOf("base")(Values) == "base-values" && NamesOf("base")(Query) == "base-query"
    ensures NamesOf("base")(F1MMask) == "base-f1m-mask" && NamesOf("delta")(F1MMask) == "delta-f1m-mask"
    ensures NamesOf("delta")(Values) == "delta-values" && NamesOf("delta")(Query) == "delta-query"
  {
  }

  lemma {:induction false} ComponentsSupplied()
    ensures forall c | c in TwoComponents() ::
      && WellPlaced(c, SHAPE, QUERY) && GoodName(c.name, Pow2(1))
      && SuppliesComponent(TwoComponentRequest().inputs, c, QUERY, 2)
  {
    hide Text, ProgramNodes, WellPlaced, PlacedValues, PlacedQuery, GoodName;
    var cs, raw := TwoComponents(), TwoComponentRequest().inputs;
    OneTermPlaced(cs[0], 0, 3);
    OneTermPlaced(cs[1], 1, -1);
    ShortName("base");
    ShortName("delta");
    InputNames();
    assert Supplies(raw, "base-values", [3, 0, 0, 0]) by { assert SameLanes(raw[2].values, [3, 0, 0, 0]); }
    assert Supplies(raw, "base-query", [1, 0, 0, 0]) by { assert SameLanes(raw[1].values, [1, 0, 0, 0]); }
    assert Supplies(raw, "base-f1m-mask", [2, 0, 0, 0]) by { assert SameLanes(raw[0].values, [2, 0, 0, 0]); }
    assert Supplies(raw, "delta-values", [-1, 0, 0, 0]) by { assert SameLanes(raw[5].values, [-1, 0, 0, 0]); }
    assert Supplies(raw, "delta-query", [2, 0, 0, 0]) by { assert SameLanes(raw[4].values, [2, 0, 0, 0]); }
    assert Supplies(raw, "delta-f1m-mask", [3, 0, 0, 0]) by { assert SameLanes(raw[3].values, [3, 0, 0, 0]); }
  }

  lemma {:induction false} OnlyComponentInputs()
    ensures forall i | 0 <= i < |TwoComponentRequest().inputs| ::
      InputOf(TwoComponentRequest().inputs[i].id, TwoComponents())
  {
    hide NamesOf, ProgramNodes, InputOf;
    InputNames();
    IsInputOf("base-values", 0, Values);
    IsInputOf("base-query", 0, Query);
    IsInputOf("base-f1m-mask", 0, F1MMask);
    IsInputOf("delta-values", 1, Values);
    IsInputOf("delta-query", 1, Query);
    IsInputOf("delta-f1m-mask", 1, F1MMask);
  }

  lemma {:induction false} IsInputOf(id: string, k: nat, s: Suffix)
    requires k < 2 && !Computed(s) && id == NamesOf(TwoComponents()[k].name)(s)
    ensures InputOf(id, TwoComponents())
  {
    assert TwoComponents()[k] in TwoComponents();
  }

  lemma {:induction false} ExampleServes()
    ensures RequestServes(TwoComponentRequest(), SHAPE, 1, QUERY, TwoComponents(), 2)
  {
    hide RequestFault, SuppliesComponent, InputOf, WellPlaced, GoodName, ProgramNodes;
    var cs, request := TwoComponents(), TwoComponentRequest();
    RequestAccepted();
    ComponentsSupplied();
    OnlyComponentInputs();
    assert Pow2(1) == 2 * Pow2(0);
    assert NamesIn(cs) == ["base", "delta"];
    assert PowersOfTwo(0, 1) == [1];
    assert request.masks[0].id == SEGMENT_STARTS && SameLanes(request.masks[0].values, StartMask(2, 2));
  }

  // ----- the components hold the matrix -----

  lemma {:induction false} ExampleHolds()
    ensures Holds(TwoComponents(), MATRIX)
  {
    hide AllEntries, Collect;
    ExampleEntries();
    ExampleCollects();
  }

  lemma {:induction false} ExampleEntries()
    ensures AllEntries(TwoComponents()) == [Entry(0, 0, 3), Entry(0, 1, -1)]
  {
    var cs := TwoComponents();
    assert OwnerRow([(0, 0)], 0) == 0;
    assert EntriesOf(cs[0]) == [Entry(0, 0, 3)] && EntriesOf(cs[1]) == [Entry(0, 1, -1)];
    assert cs[..1] == [cs[0]] && AllEntries(cs[..1]) == AllEntries([]) + EntriesOf(cs[0]);
  }

  lemma {:induction false} ExampleCollects()
    ensures Collect([Entry(0, 0, 3), Entry(0, 1, -1)]) == MATRIX
  {
    var both := [Entry(0, 0, 3), Entry(0, 1, -1)];
    assert both[..1] == [Entry(0, 0, 3)];
    assert Collect(both[..1]) == map[(0, 0) := 3];
  }

  // ----- the masks are prepared from one draw -----

  function OneDraw(): nat -> int { i => 2 }

  function TwoMasks(): map<nat, seq<int>> { map[0 := [2, 0], 1 := [3, 0]] }

  lemma {:induction false} ExampleContributors()
    ensures OutputPlanOf(TwoComponents()) == [[(0, 0)], [(0, 0)]]
    ensures Contributors(OutputPlanOf(TwoComponents()), 0) == [Lane(0, 0), Lane(1, 0)]
    ensures LanesAt(OutputPlanOf(TwoComponents()), 0) == [Lane(0, 0), Lane(1, 0)]
  {
    var share: seq<Owner> := [(0, 0)];
    var plan: OutputPlan := [share, share];
    assert OutputPlanOf(TwoComponents()) == plan && plan[..1] == [share];
    assert LanesOfShare(share, 0, 0) == [Lane(0, 0)] && LanesOfShare(share, 1, 0) == [Lane(1, 0)];
    assert Contributors(plan[..1], 0) == [Lane(0, 0)];
    var lanes := [Lane(0, 0), Lane(1, 0)];
    assert lanes[..1] == [Lane(0, 0)] && Sorted(lanes[..1]) == [Lane(0, 0)];
  }

  lemma {:induction false} ExampleMasksDrawn()
    ensures MasksDrawn(TwoComponents(), 2, 1, 5, OneDraw(), TwoMasks())
  {
    hide Contributors, LanesAt;
    var cs, values := TwoComponents(), TwoMasks();
    var plan := OutputPlanOf(cs);
    ExampleContributors();
    assert OutputPlanOk(plan, 2, 1) by {
      forall k | 0 <= k < 2 ensures ShareOk(plan[k], 2, 1) {
      }
    }
    assert CarriesShare(cs[0].mask, values, 0) && CarriesShare(cs[1].mask, values, 1);
    assert DrawnBefore(plan, 0) == 0 && DrawnBefore(plan, 1) == 1;
    assert DrawsFrom(OneDraw(), 0, 1) == [2];
    assert [2][..0] == [] && SumOf([2]) == 2 && CoordinateValues([2], 5) == [2, 3];
    assert CoordinateFilled(plan, OneDraw(), 5, values, 0);
    forall lane: Lane ensures Overlapped(plan, 1, lane) <==> lane == Lane(0, 0) || lane == Lane(1, 0) {
      assert lane in LanesAt(plan, 0) <==> lane == Lane(0, 0) || lane == Lane(1, 0);
    }
    assert Overlapped(plan, 1, Lane(0, 0)) && Overlapped(plan, 1, Lane(1, 0));
    forall k: nat ensures k in values <==> ShareOverlaps(plan, 1, k) {
      if k in values {
        assert Lane(k, 0).share == k;
      }
    }
  }

  lemma {:induction false} ExamplePlaceable()
    ensures Placeable(SHAPE, 1, QUERY, TwoComponents())
  {
    hide WellPlaced, GoodName, SuppliesComponent, TwoComponentRequest, Sendable;
    ComponentsSupplied();
    ExampleSendable();
    assert Pow2(1) == 2 * Pow2(0);
    assert NamesIn(TwoComponents()) == ["base", "delta"];
  }

  lemma {:induction false} ExampleSendable()
    ensures forall c | c in TwoComponents() :: Sendable(c, QUERY)
  {
  }

  // Every hypothesis of QueryIsAnswered, SessionAnswers and EveryPlacementIsAnswered
  // holds at once.
  lemma {:induction false} HypothesesMet()
    ensures RequestServes(TwoComponentRequest(), SHAPE, 1, QUERY, TwoComponents(), 2)
    ensures Deployed(
      SessionEnv(TwoComponentRequest(), 2, 5), EncryptedTable(TwoComponentRequest().inputs, 2, 5), SHAPE, 1, QUERY,
      TwoComponents())
    ensures Holds(TwoComponents(), MATRIX) && MasksDrawn(TwoComponents(), 2, 1, 5, OneDraw(), TwoMasks())
    ensures Placeable(SHAPE, 1, QUERY, TwoComponents())
  {
    hide RequestServes, Deployed, Holds, MasksDrawn, Placeable;
    ExamplePlaceable();
    ExampleServes();
    RequestDeploys(TwoComponentRequest(), SHAPE, 1, QUERY, TwoComponents(), 2, 5);
    ExampleHolds();
    ExampleMasksDrawn();
  }

  // ----- a trace of two operands -----

  function TwoOperands(): seq<Operand> {
    var cs := TwoComponents();
    [Operand(OperandIds("v0", "q0", "m0", "r0"), PlacedValues(cs[0].terms, 4), PlacedQuery(cs[0].terms, QUERY, 4),
             cs[0].mask, [1], [0]),
     Operand(OperandIds("v1", "q1", "m1", "r1"), PlacedValues(cs[1].terms, 4), PlacedQuery(cs[1].terms, QUERY, 4),
             cs[1].mask, [1], [0])]
  }

  function TraceEnv(): Env
    requires LabelFits(0) && LabelFits(1)
  {
    var selection := Pack(Selection([0], 4), 2);
    Env(2, 5, map[1 := 1], {1},
        map["pt-selection-" + Ordinal(0) := selection, "pt-selection-" + Ordinal(1) := selection])
  }

  function TraceStart(): State {
    var a, b := TwoOperands()[0], TwoOperands()[1];
    var table := map[
      "v0" := Encrypt(a.values, 2, 5), "q0" := Encrypt(a.aligned, 2, 5), "m0" := Encrypt(a.f1mValues, 2, 5),
      "v1" := Encrypt(b.values, 2, 5), "q1" := Encrypt(b.aligned, 2, 5), "m1" := Encrypt(b.f1mValues, 2, 5)];
    State(table, table.Keys, [], NO_OPERATIONS)
  }

  lemma {:induction false} ShortIsPlain(id: string)
    requires |id| == 2
    ensures Plain(id) && forall ordinal: nat | LabelFits(ordinal) :: !CarriedBy(ordinal, id)
  {
    forall ordinal: nat | LabelFits(ordinal) ensures !CarriedBy(ordinal, id) {
      PlainIsNotCarried(ordinal, id);
    }
  }

  lemma {:induction false} TraceIdsNew()
    ensures ResultIdsNew(TraceStart(), TwoOperands()) && NotCarriedFrom(TraceStart().ciphertexts.Keys, 0)
  {
    hide ResultIdsNew, NotCarriedFrom, PrintableIdentifier, TwoOperands, TraceStart;
    TraceIds();
    ShortIdsNew(TraceStart(), TwoOperands());
  }

  lemma {:induction false} ShortIdsNew(st: State, operands: seq<Operand>)
    requires (forall key | key in st.ciphertexts :: |key| == 2) && NoRepeat(ResultIdsOf(operands))
    requires forall i | 0 <= i < |operands| ::
      var id := operands[i].ids.resultId; |id| == 2 && PrintableIdentifier(id) && id !in st.ciphertexts
    ensures ResultIdsNew(st, operands) && NotCarriedFrom(st.ciphertexts.Keys, 0)
  {
    hide Plain, CarriedBy, LabelFits, PrintableIdentifier, NoRepeat;
    forall id: string | |id| == 2 ensures Plain(id) && forall ordinal: nat | LabelFits(ordinal) :: !CarriedBy(ordinal, id) {
      ShortIsPlain(id);
    }
  }

  lemma {:induction false} TraceIds()
    ensures TraceStart().ciphertexts.Keys == {"v0", "q0", "m0", "v1", "q1", "m1"}
    ensures |TwoOperands()| == 2 && ResultIdsOf(TwoOperands()) == ["r0", "r1"]
    ensures TwoOperands()[0].ids.resultId == "r0" && TwoOperands()[1].ids.resultId == "r1"
    ensures PrintableIdentifier("r0") && PrintableIdentifier("r1")
  {
    hide Encrypt, PlacedValues, PlacedQuery;
  }

  lemma {:induction false} TraceSupplied()
    ensures AllLabelsFit(TwoOperands(), 0) && LabelFits(0) && LabelFits(1)
    ensures AllSupplied(TraceEnv(), TraceStart(), TwoOperands(), 0) && Closed(TraceStart())
  {
    hide Encrypt, PlacedValues, PlacedQuery, Pack, Selection, Ordinal;
    assert Decimal(0) == "0" && Decimal(1) == "1" && Decimal(2) == "2";
    forall i | 0 <= i < 2 ensures LabelsFit(0 + i, TwoOperands()[i].rotations, 0) {
    }
    assert Supplied(TraceEnv(), TraceStart(), TwoOperands()[0], 0);
    assert Supplied(TraceEnv(), TraceStart(), TwoOperands()[1], 1);
  }

  // Every hypothesis of WholeTraceComputesProduct holds at once.
  lemma {:induction false} TraceHypothesesMet()
    ensures AllLabelsFit(TwoOperands(), 0) && LabelFits(0) && LabelFits(1)
    ensures Closed(TraceStart()) && AllSupplied(TraceEnv(), TraceStart(), TwoOperands(), 0)
    ensures ResultIdsNew(TraceStart(), TwoOperands()) && NotCarriedFrom(TraceStart().ciphertexts.Keys, 0)
    ensures CarriesComponents(TwoOperands(), TwoComponents(), QUERY, 2)
    ensures Reducible(TwoOperands(), TwoComponents(), [1, 1], SHAPE, QUERY)
    ensures ZeroSumMasks(TwoComponents(), 1, 5) && Holds(TwoComponents(), MATRIX)
  {
    hide AllSupplied, ResultIdsNew, NotCarriedFrom, ZeroSumMasks, Holds, WellPlaced, MasksDrawn;
    TraceSupplied();
    TraceIdsNew();
    ExampleHolds();
    ExampleMasksDrawn();
    MasksCancel(TwoComponents(), 2, 1, 5, OneDraw(), TwoMasks());
    OneTermPlaced(TwoComponents()[0], 0, 3);
    OneTermPlaced(TwoComponents()[1], 1, -1);
    assert Consecutive(1, 1) == [1];
  }
}
