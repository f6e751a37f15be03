// Where the draws of a preparation go and how many a record may count, from the
// lanes that meet in a coordinate alone.
module F1MDraws {
  import opened Modular
  import opened Sequences
  import opened ClientMerge
  import opened CloudProgram
  import opened F1MMasks

  // ----- lanes that meet -----

  predicate LaneOf(plan: OutputPlan, lane: Lane, row: nat) {
    lane.share < |plan| && (lane.slot, row) in plan[lane.share]
  }

  ghost predicate Meets(plan: OutputPlan, row: nat) {
    exists a: Lane, b: Lane :: a != b && LaneOf(plan, a, row) && LaneOf(plan, b, row)
  }

  // The last lane of the coordinate, by share and slot.
  ghost predicate Closes(plan: OutputPlan, lane: Lane, row: nat) {
    LaneOf(plan, lane, row) && forall other: Lane | LaneOf(plan, other, row) && other != lane ::
      other.share < lane.share || (other.share == lane.share && other.slot < lane.slot)
  }

  function AllLanes(plan: OutputPlan): set<Lane> {
    set k, i | 0 <= k < |plan| && 0 <= i < |plan[k]| :: Lane(k, plan[k][i].0)
  }

  ghost predicate MeetingLane(plan: OutputPlan, rows: nat, lane: Lane) {
    exists row | 0 <= row < rows :: LaneOf(plan, lane, row) && Meets(plan, row)
  }

  ghost predicate DrawnLane(plan: OutputPlan, rows: nat, lane: Lane) {
    exists row | 0 <= row < rows :: LaneOf(plan, lane, row) && Meets(plan, row) && !Closes(plan, lane, row)
  }

  ghost function MeetingRows(plan: OutputPlan, rows: nat): set<nat> {
    set row: nat | 0 <= row < rows && Meets(plan, row)
  }

  ghost function MeetingLanes(plan: OutputPlan, rows: nat): set<Lane> {
    set lane | lane in AllLanes(plan) && MeetingLane(plan, rows, lane)
  }

  ghost function DrawnLanes(plan: OutputPlan, rows: nat): set<Lane> {
    set lane | lane in AllLanes(plan) && DrawnLane(plan, rows, lane)
  }

  lemma {:induction false} LaneListed(plan: OutputPlan, lane: Lane, row: nat)
    requires LaneOf(plan, lane, row)
    ensures lane in AllLanes(plan)
  {
    var i :| 0 <= i < |plan[lane.share]| && plan[lane.share][i] == (lane.slot, row);
  }

  // ----- the sorted lanes of one coordinate -----

  lemma {:induction false} SortedLanes(plan: OutputPlan, slotCount: nat, rows: nat, row: nat)
    requires OutputPlanOk(plan, slotCount, rows)
    ensures var lanes := LanesAt(plan, row);
      && |lanes| == |Contributors(plan, row)| && NoRepeat(lanes)
      && (forall lane :: lane in lanes <==> LaneOf(plan, lane, row))
      && (Overlaps(plan, row) <==> Meets(plan, row))
      && (lanes != [] ==> forall lane :: Closes(plan, lane, row) <==> lane == lanes[|lanes| - 1])
  {
    hide OutputPlanOk, LanesAt, Contributors;
    LanesAtExact(plan, slotCount, rows, row);
    var lanes := LanesAt(plan, row);
    forall i, j | 0 <= i < j < |lanes| ensures lanes[i] != lanes[j] {
      assert Before(lanes[i], lanes[j]);
    }
    if |lanes| > 1 {
      assert lanes[0] in lanes && lanes[1] in lanes;
    }
    if Meets(plan, row) {
      var a: Lane, b: Lane :| a != b && LaneOf(plan, a, row) && LaneOf(plan, b, row);
      assert a in lanes && b in lanes;
    }
    if lanes != [] {
      LastCloses(plan, lanes, row);
    }
  }

  lemma {:induction false} LastCloses(plan: OutputPlan, lanes: seq<Lane>, row: nat)
    requires lanes != [] && AscendingLanes(lanes) && forall lane :: lane in lanes <==> LaneOf(plan, lane, row)
    ensures forall lane :: Closes(plan, lane, row) <==> lane == lanes[|lanes| - 1]
  {
    var last := lanes[|lanes| - 1];
    assert last in lanes;
    forall other: Lane | LaneOf(plan, other, row) && other != last ensures Before(other, last) {
      assert other in lanes;
    }
  }

  // ----- all coordinates in order -----

  // The lanes of an overlapped coordinate without its last `drop`.
  function RowPart(plan: OutputPlan, row: nat, drop: nat): seq<Lane>
    requires drop <= 1
  {
    if Overlaps(plan, row) && drop <= |LanesAt(plan, row)| then LanesAt(plan, row)[..|LanesAt(plan, row)| - drop] else []
  }

  function LaneOrder(plan: OutputPlan, rows: nat, drop: nat): seq<Lane>
    requires drop <= 1
  {
    if rows == 0 then [] else LaneOrder(plan, rows - 1, drop) + RowPart(plan, rows - 1, drop)
  }

  ghost predicate InPlanOrder(plan: OutputPlan, rows: nat, drop: nat, lane: Lane) {
    if drop == 0 then MeetingLane(plan, rows, lane) else DrawnLane(plan, rows, lane)
  }

  lemma {:induction false} NextRow(plan: OutputPlan, n: nat, drop: nat, lane: Lane)
    ensures InPlanOrder(plan, n + 1, drop, lane) <==>
      || InPlanOrder(plan, n, drop, lane)
      || (LaneOf(plan, lane, n) && Meets(plan, n) && (drop != 0 ==> !Closes(plan, lane, n)))
  {
    hide LaneOf, Meets, Closes;
  }

  // A lane below n is none of the coordinate n.
  lemma {:induction false} RowsApart(plan: OutputPlan, slotCount: nat, rows: nat, n: nat, drop: nat, lane: Lane)
    requires OutputPlanOk(plan, slotCount, rows) && InPlanOrder(plan, n, drop, lane)
    ensures !LaneOf(plan, lane, n)
  {
    hide OutputPlanOk, Meets, Closes;
    var row :| 0 <= row < n && LaneOf(plan, lane, row);
    if LaneOf(plan, lane, n) {
      LanesAtExact(plan, slotCount, rows, row);
      LanesAtExact(plan, slotCount, rows, n);
      LanesDisjoint(plan, slotCount, rows, row, n, lane);
    }
  }

  lemma {:induction false} PartExact(plan: OutputPlan, slotCount: nat, rows: nat, row: nat, drop: nat)
    requires OutputPlanOk(plan, slotCount, rows) && drop <= 1
    ensures NoRepeat(RowPart(plan, row, drop))
    ensures forall lane :: lane in RowPart(plan, row, drop) <==>
      LaneOf(plan, lane, row) && Meets(plan, row) && (drop != 0 ==> !Closes(plan, lane, row))
    ensures |RowPart(plan, row, drop)| + drop == if Meets(plan, row) then |Contributors(plan, row)| else drop
    ensures Overlaps(plan, row) <==> Meets(plan, row)
  {
    hide OutputPlanOk, LanesAt, Contributors, Overlaps, Meets, Closes, LaneOf, NoRepeat;
    SortedLanes(plan, slotCount, rows, row);
    if Overlaps(plan, row) {
      var lanes := LanesAt(plan, row);
      TwoLanes(plan, row, lanes);
      LanesAreKept(plan, row, lanes, drop);
    } else {
      NothingRepeats();
    }
  }

  lemma {:induction false} NothingRepeats()
    ensures NoRepeat<Lane>([])
  {
  }

  lemma {:induction false} OrderExact(plan: OutputPlan, slotCount: nat, rows: nat, n: nat, drop: nat)
    requires OutputPlanOk(plan, slotCount, rows) && drop <= 1
    ensures NoRepeat(LaneOrder(plan, n, drop))
    ensures forall lane :: lane in LaneOrder(plan, n, drop) <==> InPlanOrder(plan, n, drop, lane)
    decreases n
  {
    hide OutputPlanOk, RowPart, Meets, Closes, LaneOf, NoRepeat;
    if n == 0 {
      NothingRepeats();
    } else {
      hide InPlanOrder;
      var row := n - 1;
      OrderExact(plan, slotCount, rows, row, drop);
      PartExact(plan, slotCount, rows, row, drop);
      forall lane ensures lane in LaneOrder(plan, n, drop) <==> InPlanOrder(plan, n, drop, lane) {
        NextRow(plan, row, drop, lane);
      }
      forall lane | lane in LaneOrder(plan, row, drop) ensures lane !in RowPart(plan, row, drop) {
        RowsApart(plan, slotCount, rows, row, drop, lane);
      }
      NoRepeatAppend(LaneOrder(plan, row, drop), RowPart(plan, row, drop));
    }
  }

  lemma {:induction false} OrderSizes(plan: OutputPlan, slotCount: nat, rows: nat, n: nat)
    requires OutputPlanOk(plan, slotCount, rows)
    ensures |LaneOrder(plan, n, 1)| == DrawnBefore(plan, n)
    ensures |LaneOrder(plan, n, 0)| == DrawnBefore(plan, n) + |MeetingRows(plan, n)|
    decreases n
  {
    hide OutputPlanOk, RowPart, Meets, Contributors, Closes, LaneOf, NoRepeat, Overlaps;
    if n == 0 {
      assert MeetingRows(plan, 0) == {};
    } else {
      var row := n - 1;
      OrderSizes(plan, slotCount, rows, row);
      PartExact(plan, slotCount, rows, row, 0);
      PartExact(plan, slotCount, rows, row, 1);
      assert MeetingRows(plan, n) == MeetingRows(plan, row) + if Meets(plan, row) then {row} else {};
    }
  }

  // By row, and within a row by share and slot.
  ghost predicate Earlier(plan: OutputPlan, rows: nat, a: Lane, b: Lane) {
    exists r, s | 0 <= r <= s < rows :: LaneOf(plan, a, r) && LaneOf(plan, b, s) && (r == s ==> Before(a, b))
  }

  ghost predicate InLaneOrder(plan: OutputPlan, rows: nat, lanes: seq<Lane>) {
    forall i, j | 0 <= i < j < |lanes| :: Earlier(plan, rows, lanes[i], lanes[j])
  }

  lemma {:induction false} PartAscends(plan: OutputPlan, slotCount: nat, rows: nat, row: nat, drop: nat)
    requires OutputPlanOk(plan, slotCount, rows) && drop <= 1
    ensures AscendingLanes(RowPart(plan, row, drop))
    ensures forall lane | lane in RowPart(plan, row, drop) :: LaneOf(plan, lane, row)
  {
    hide OutputPlanOk, LanesAt, Contributors, LaneOf, Meets, Closes, Overlaps, Before, NoRepeat;
    LanesAtExact(plan, slotCount, rows, row);
    PartExact(plan, slotCount, rows, row, drop);
  }

  lemma {:induction false} OrderSorted(plan: OutputPlan, slotCount: nat, rows: nat, n: nat, drop: nat)
    requires OutputPlanOk(plan, slotCount, rows) && drop <= 1
    ensures InLaneOrder(plan, n, LaneOrder(plan, n, drop))
    decreases n
  {
    hide OutputPlanOk, RowPart, LaneOf, Before, InPlanOrder;
    if n > 0 {
      var row := n - 1;
      var init, part := LaneOrder(plan, row, drop), RowPart(plan, row, drop);
      OrderSorted(plan, slotCount, rows, row, drop);
      OrderExact(plan, slotCount, rows, row, drop);
      PartAscends(plan, slotCount, rows, row, drop);
      forall i, j | 0 <= i < j < |init + part| ensures Earlier(plan, n, (init + part)[i], (init + part)[j]) {
        if i < |init| <= j {
          OrderHasRow(plan, row, drop, init[i]);
          assert part[j - |init|] in part;
        } else if i >= |init| {
          assert part[i - |init|] in part && part[j - |init|] in part;
        }
      }
    }
  }

  lemma {:induction false} OrderHasRow(plan: OutputPlan, n: nat, drop: nat, lane: Lane)
    requires InPlanOrder(plan, n, drop, lane)
    ensures exists r :: 0 <= r < n && LaneOf(plan, lane, r)
  {
    hide LaneOf, Meets, Closes;
  }

  lemma {:induction false} TwoLanes(plan: OutputPlan, row: nat, lanes: seq<Lane>)
    requires Overlaps(plan, row) && |lanes| == |Contributors(plan, row)|
    ensures |lanes| > 1
  {
  }

  // Without its last `drop` lanes a coordinate keeps all, or all but the closing one.
  lemma {:induction false} LanesAreKept(plan: OutputPlan, row: nat, lanes: seq<Lane>, drop: nat)
    requires drop <= 1 < |lanes| && NoRepeat(lanes) && (forall lane :: lane in lanes <==> LaneOf(plan, lane, row))
    requires forall lane :: Closes(plan, lane, row) <==> lane == lanes[|lanes| - 1]
    ensures NoRepeat(lanes[..|lanes| - drop])
    ensures forall lane :: lane in lanes[..|lanes| - drop] <==>
      LaneOf(plan, lane, row) && (drop != 0 ==> !Closes(plan, lane, row))
  {
    hide LaneOf, Closes;
    assert lanes == lanes[..|lanes| - 1] + [lanes[|lanes| - 1]];
    assert lanes[..|lanes|] == lanes;
  }

  // ----- what the draws are for -----

  // A preparation consumes one draw for each lane that meets another and does not
  // close its coordinate; with one lane more a coordinate these are all that meet.
  lemma {:induction false} DrawnAreLanes(plan: OutputPlan, slotCount: nat, rows: nat)
    requires OutputPlanOk(plan, slotCount, rows)
    ensures DrawnBefore(plan, rows) == |DrawnLanes(plan, rows)|
    ensures DrawnBefore(plan, rows) + |MeetingRows(plan, rows)| == |MeetingLanes(plan, rows)|
  {
    hide OutputPlanOk, AllLanes, LaneOf, Meets, Closes, LaneOrder;
    OrderExact(plan, slotCount, rows, rows, 0);
    OrderExact(plan, slotCount, rows, rows, 1);
    OrderSizes(plan, slotCount, rows, rows);
    forall lane ensures lane in DrawnLanes(plan, rows) <==> DrawnLane(plan, rows, lane) {
      if DrawnLane(plan, rows, lane) {
        var row :| 0 <= row < rows && LaneOf(plan, lane, row);
        LaneListed(plan, lane, row);
      }
    }
    forall lane ensures lane in MeetingLanes(plan, rows) <==> MeetingLane(plan, rows, lane) {
      if MeetingLane(plan, rows, lane) {
        var row :| 0 <= row < rows && LaneOf(plan, lane, row);
        LaneListed(plan, lane, row);
      }
    }
    assert ToSet(LaneOrder(plan, rows, 1)) == DrawnLanes(plan, rows);
    assert ToSet(LaneOrder(plan, rows, 0)) == MeetingLanes(plan, rows);
    SizeOfSet(LaneOrder(plan, rows, 1));
    SizeOfSet(LaneOrder(plan, rows, 0));
  }

  lemma {:induction false} PartDraws(
    plan: OutputPlan, slotCount: nat, rows: nat, row: nat, p: Positive, draws: nat -> int, values: map<nat, seq<int>>)
    requires OutputPlanOk(plan, slotCount, rows) && CoordinateFilled(plan, draws, p, values, row)
    ensures forall i: nat | i < |RowPart(plan, row, 1)| ::
      MaskAt(values, RowPart(plan, row, 1)[i]) == draws(DrawnBefore(plan, row) + i)
  {
    hide OutputPlanOk, LanesAt, Contributors, Overlaps, MaskAt, DrawnBefore;
    if Overlaps(plan, row) {
      SortedLanes(plan, slotCount, rows, row);
      var lanes, from, part := LanesAt(plan, row), DrawnBefore(plan, row), RowPart(plan, row, 1);
      TwoLanes(plan, row, lanes);
      var numbers := CoordinateValues(DrawsFrom(draws, from, |lanes| - 1), p);
      forall i: nat | i < |part| ensures MaskAt(values, part[i]) == draws(from + i) {
        assert part[i] == lanes[i] && numbers[i] == draws(from + i);
      }
    }
  }

  // The i-th draw is the value of the i-th such lane.
  lemma {:induction false} DrawsInOrder(
    plan: OutputPlan, slotCount: nat, rows: nat, n: nat, p: Positive, draws: nat -> int, values: map<nat, seq<int>>)
    requires OutputPlanOk(plan, slotCount, rows) && n <= rows
    requires forall row | 0 <= row < rows :: CoordinateFilled(plan, draws, p, values, row)
    ensures |LaneOrder(plan, n, 1)| == DrawnBefore(plan, n)
    ensures forall i: nat | i < |LaneOrder(plan, n, 1)| :: MaskAt(values, LaneOrder(plan, n, 1)[i]) == draws(i)
    decreases n
  {
    hide OutputPlanOk, CoordinateFilled, MaskAt, DrawnBefore, RowPart;
    OrderSizes(plan, slotCount, rows, n);
    if n > 0 {
      var row := n - 1;
      DrawsInOrder(plan, slotCount, rows, row, p, draws, values);
      PartDraws(plan, slotCount, rows, row, p, draws, values);
      var order, before, part := LaneOrder(plan, n, 1), LaneOrder(plan, row, 1), RowPart(plan, row, 1);
      forall i: nat | i < |order| ensures MaskAt(values, order[i]) == draws(i) {
        if i >= |before| {
          assert order[i] == part[i - |before|] && |before| + (i - |before|) == i;
        }
      }
    }
  }

  // So the draws consumed are exactly those that appear: each lane that meets
  // another and does not close its coordinate holds one of them, in order, and no
  // draw is in two lanes or in none.
  lemma {:induction false} EveryDrawAppearsOnce(
    plan: OutputPlan, slotCount: nat, rows: nat, p: Positive, draws: nat -> int, values: map<nat, seq<int>>)
    returns (order: seq<Lane>)
    requires OutputPlanOk(plan, slotCount, rows) && PreparedMasks(plan, slotCount, rows, p, draws, values)
    ensures NoRepeat(order) && ToSet(order) == DrawnLanes(plan, rows) && |order| == DrawnBefore(plan, rows)
    ensures InLaneOrder(plan, rows, order)
    ensures forall i: nat | i < |order| :: MaskAt(values, order[i]) == draws(i)
  {
    hide OutputPlanOk, LaneOrder, AllLanes, LaneOf, Meets, Closes, MaskAt, CoordinateFilled, Shaped, Overlapped,
      ShareOverlaps, DrawnBefore;
    order := LaneOrder(plan, rows, 1);
    OrderExact(plan, slotCount, rows, rows, 1);
    OrderSorted(plan, slotCount, rows, rows, 1);
    DrawsInOrder(plan, slotCount, rows, rows, p, draws, values);
    forall lane ensures lane in DrawnLanes(plan, rows) <==> DrawnLane(plan, rows, lane) {
      if DrawnLane(plan, rows, lane) {
        var row :| 0 <= row < rows && LaneOf(plan, lane, row);
        LaneListed(plan, lane, row);
      }
    }
  }

  // Where nothing meets, nothing is masked.
  lemma {:induction false} OthersAreZero(
    plan: OutputPlan, slotCount: nat, rows: nat, p: Positive, draws: nat -> int, values: map<nat, seq<int>>, lane: Lane)
    requires OutputPlanOk(plan, slotCount, rows) && PreparedMasks(plan, slotCount, rows, p, draws, values)
    requires !MeetingLane(plan, rows, lane)
    ensures MaskAt(values, lane) == 0
  {
    hide OutputPlanOk, Shaped, MaskAt, CoordinateFilled, ShareOverlaps, Overlapped, MeetingLane;
    OverlappedMeets(plan, slotCount, rows, lane);
  }

  lemma {:induction false} OverlappedMeets(plan: OutputPlan, slotCount: nat, rows: nat, lane: Lane)
    requires OutputPlanOk(plan, slotCount, rows)
    ensures Overlapped(plan, rows, lane) ==> MeetingLane(plan, rows, lane)
  {
    hide OutputPlanOk, LanesAt, Overlaps, LaneOf, Meets;
    if Overlapped(plan, rows, lane) {
      var row :| 0 <= row < rows && lane in LanesAt(plan, row) && Overlaps(plan, row);
      SortedLanes(plan, slotCount, rows, row);
    }
  }

  // ----- the counts of a record -----

  ghost predicate MeetingShare(plan: OutputPlan, rows: nat, k: nat) {
    exists lane: Lane :: lane.share == k && MeetingLane(plan, rows, lane)
  }

  ghost function MeetingShares(plan: OutputPlan, rows: nat): set<nat> {
    set k: nat | 0 <= k < |plan| && MeetingShare(plan, rows, k)
  }

  lemma {:induction false} TouchesIsMeeting(plan: OutputPlan, slotCount: nat, rows: nat, k: nat)
    requires OutputPlanOk(plan, slotCount, rows) && k < |plan|
    ensures TouchesOverlap(plan, plan[k]) <==> MeetingShare(plan, rows, k)
  {
    hide LanesAt, Overlaps, Meets;
    assert ShareOk(plan[k], slotCount, rows);
    if o :| o in plan[k] && Overlaps(plan, o.1) {
      SortedLanes(plan, slotCount, rows, o.1);
      assert (o.0, o.1) == o;
      assert LaneOf(plan, Lane(k, o.0), o.1);
      assert MeetingLane(plan, rows, Lane(k, o.0));
    }
    if MeetingShare(plan, rows, k) {
      var lane: Lane :| lane.share == k && MeetingLane(plan, rows, lane);
      var row :| 0 <= row < rows && LaneOf(plan, lane, row) && Meets(plan, row);
      SortedLanes(plan, slotCount, rows, row);
      assert (lane.slot, row) in plan[k];
    }
  }

  lemma {:induction false} AdditionsAreNodes(nodes: seq<Node>)
    ensures CountF1MAdditions(nodes) == |set k | 0 <= k < |nodes| && nodes[k].AddF1MMask?|
  {
    if nodes != [] {
      var n := |nodes| - 1;
      AdditionsAreNodes(nodes[..n]);
      var before := set k | 0 <= k < |nodes[..n]| && nodes[..n][k].AddF1MMask?;
      var after := set k | 0 <= k < |nodes| && nodes[k].AddF1MMask?;
      assert after == before + if nodes[n].AddF1MMask? then {n} else {};
    }
  }

  // The four counts an accepted record has to carry, counted in the plan, the
  // shares and the program themselves.
  lemma {:induction false} RecordCounts(
    components: seq<Component>, kinds: seq<MaskKind>, slotCount: nat, rows: nat, p: Positive, nodes: seq<Node>)
    requires RecordAccepts(components, kinds, rows, p)
    requires OutputPlanOk(OutputPlanOf(components), slotCount, rows)
    ensures var plan := OutputPlanOf(components);
      var counts := DerivedCounts(plan, kinds, rows, nodes);
      && counts.randomZeroSumCiphertexts == |MeetingShares(plan, rows)|
      && counts.randomZeroSumCiphertexts + counts.encryptedZeroDummyCiphertexts == |components|
      && counts.randomElements + |MeetingRows(plan, rows)| == |MeetingLanes(plan, rows)|
      && counts.ciphertextAdditions == |set k | 0 <= k < |nodes| && nodes[k].AddF1MMask?|
  {
    hide OutputPlanOk, RecordAccepts, MeetingLanes, MeetingRows, TouchesOverlap, MeetingShare, DrawnBefore;
    var plan := OutputPlanOf(components);
    AcceptedCounts(components, kinds, rows, p, nodes);
    DrawnAreLanes(plan, slotCount, rows);
    AdditionsAreNodes(nodes);
    forall k | 0 <= k < |plan| ensures TouchesOverlap(plan, plan[k]) <==> MeetingShare(plan, rows, k) {
      TouchesIsMeeting(plan, slotCount, rows, k);
    }
    assert MaskedShares(plan) == MeetingShares(plan, rows);
  }
}
