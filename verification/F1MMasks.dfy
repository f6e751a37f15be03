// Preparation of the F1-M masks: fresh draws on every coordinate that several
// lanes meet in, closed by the value that makes the coordinate sum to zero.
module F1MMasks {
  import opened Modular
  import opened Lanes
  import opened Reduction
  import opened Sequences
  import opened Outcomes
  import opened Placement
  import opened LogicalMatrix
  import opened ClientMerge
  import opened CloudProgram

  datatype ShareId = ShareId(componentId: string, outputBlockId: string)

  // An output plan: per share, in the order of the share ids, its mapped slots.
  type OutputPlan = seq<seq<Owner>>

  datatype Lane = Lane(share: nat, slot: nat)

  // ----- validation -----

  ghost predicate ShareOk(share: seq<Owner>, slotCount: nat, rows: nat) {
    share != [] && OwnersWithin(share, slotCount, rows) && DistinctStarts(share)
  }

  ghost predicate OutputPlanOk(plan: OutputPlan, slotCount: nat, rows: nat) {
    0 < rows && 0 < slotCount && forall k | 0 <= k < |plan| :: ShareOk(plan[k], slotCount, rows)
  }

  predicate PrintableId(id: string) { id != "" && forall c | c in id :: '!' <= c <= '~' }

  ghost predicate ShareIdsOk(ids: seq<ShareId>) {
    NoRepeat(ids) && forall id | id in ids :: PrintableId(id.componentId) && PrintableId(id.outputBlockId)
  }

  method ValidateShareIds(ids: seq<ShareId>) returns (ok: bool)
    ensures ok <==> ShareIdsOk(ids)
  {
    hide PrintableId;
    var shareIds: set<ShareId> := {};
    for k := 0 to |ids|
      invariant ShareIdsOk(ids[..k]) && shareIds == ToSet(ids[..k])
    {
      var id := ids[k];
      assert ids[..k + 1] == ids[..k] + [id] && id in ids;
      if !PrintableId(id.componentId) || !PrintableId(id.outputBlockId) {
        return false;
      }
      if id in shareIds {
        ghost var j :| 0 <= j < k && ids[..k][j] == id;
        assert ids[j] == ids[k];
        return false;
      }
      shareIds := shareIds + {id};
    }
    assert ids[..|ids|] == ids;
    return true;
  }

  method ValidateShare(share: seq<Owner>, slotCount: nat, rows: nat) returns (ok: bool)
    ensures ok <==> ShareOk(share, slotCount, rows)
  {
    if share == [] {
      return false;
    }
    var physicalSlots: set<nat> := {};
    for i := 0 to |share|
      invariant OwnersWithin(share[..i], slotCount, rows) && DistinctStarts(share[..i])
      invariant forall slot :: slot in physicalSlots <==> exists j | 0 <= j < i :: share[j].0 == slot
    {
      assert share[i] in share;
      if share[i].0 >= slotCount || share[i].0 in physicalSlots || share[i].1 >= rows {
        return false;
      }
      physicalSlots := physicalSlots + {share[i].0};
      assert share[..i + 1] == share[..i] + [share[i]];
    }
    assert share[..|share|] == share;
    return true;
  }

  method ValidatePlan(plan: OutputPlan, ids: seq<ShareId>, slotCount: nat, rows: nat) returns (ok: bool)
    requires |ids| == |plan|
    ensures ok <==> OutputPlanOk(plan, slotCount, rows) && ShareIdsOk(ids)
  {
    hide ShareOk, ShareIdsOk;
    if rows == 0 || slotCount == 0 {
      return false;
    }
    var idsOk := ValidateShareIds(ids);
    if !idsOk {
      return false;
    }
    for k := 0 to |plan|
      invariant forall j | 0 <= j < k :: ShareOk(plan[j], slotCount, rows)
    {
      var good := ValidateShare(plan[k], slotCount, rows);
      if !good {
        return false;
      }
    }
    return true;
  }

  // ----- the lanes that meet in a coordinate -----

  function LanesOfShare(share: seq<Owner>, k: nat, logical: nat): seq<Lane> {
    if share == [] then []
    else
      var last := share[|share| - 1];
      LanesOfShare(share[..|share| - 1], k, logical) + if last.1 == logical then [Lane(k, last.0)] else []
  }

  function Contributors(plan: OutputPlan, logical: nat): seq<Lane> {
    if plan == [] then []
    else
      var n := |plan| - 1;
      Contributors(plan[..n], logical) + LanesOfShare(plan[n], n, logical)
  }

  predicate Before(a: Lane, b: Lane) { a.share < b.share || (a.share == b.share && a.slot < b.slot) }

  predicate AscendingLanes(lanes: seq<Lane>) { forall i, j | 0 <= i < j < |lanes| :: Before(lanes[i], lanes[j]) }

  function InsertLane(x: Lane, s: seq<Lane>): seq<Lane> {
    if s == [] || Before(s[|s| - 1], x) then s + [x] else InsertLane(x, s[..|s| - 1]) + [s[|s| - 1]]
  }

  function Sorted(s: seq<Lane>): seq<Lane> {
    if s == [] then [] else InsertLane(s[|s| - 1], Sorted(s[..|s| - 1]))
  }

  lemma {:induction false} AscendingSnoc(s: seq<Lane>, last: Lane)
    requires AscendingLanes(s) && forall y | y in s :: Before(y, last)
    ensures AscendingLanes(s + [last])
  {
    forall i, j | 0 <= i < j < |s| + 1 ensures Before((s + [last])[i], (s + [last])[j]) {
      assert s[i] in s;
    }
  }

  lemma {:induction false} InsertAscends(x: Lane, s: seq<Lane>)
    requires AscendingLanes(s) && x !in s
    ensures AscendingLanes(InsertLane(x, s)) && |InsertLane(x, s)| == |s| + 1
    ensures forall y :: y in InsertLane(x, s) <==> y == x || y in s
  {
    if s != [] && !Before(s[|s| - 1], x) {
      var n := |s| - 1;
      InsertAscends(x, s[..n]);
      assert s == s[..n] + [s[n]] && s[n] in s;
      AscendingSnoc(InsertLane(x, s[..n]), s[n]);
    }
  }

  lemma {:induction false} SortedAscends(s: seq<Lane>)
    requires NoRepeat(s)
    ensures AscendingLanes(Sorted(s)) && |Sorted(s)| == |s|
    ensures forall y :: y in Sorted(s) <==> y in s
  {
    if s != [] {
      var n := |s| - 1;
      SortedAscends(s[..n]);
      assert s == s[..n] + [s[n]];
      InsertAscends(s[n], Sorted(s[..n]));
    }
  }

  lemma {:induction false} ShareLanesExact(share: seq<Owner>, k: nat, logical: nat)
    requires DistinctStarts(share)
    ensures forall lane :: lane in LanesOfShare(share, k, logical) <==> lane.share == k && (lane.slot, logical) in share
    ensures NoRepeat(LanesOfShare(share, k, logical))
  {
    if share != [] {
      var n := |share| - 1;
      ShareLanesExact(share[..n], k, logical);
      assert share == share[..n] + [share[n]];
    }
  }

  lemma {:induction false} ContributorsExact(plan: OutputPlan, logical: nat)
    requires forall k | 0 <= k < |plan| :: DistinctStarts(plan[k])
    ensures forall lane ::
      lane in Contributors(plan, logical) <==> lane.share < |plan| && (lane.slot, logical) in plan[lane.share]
    ensures NoRepeat(Contributors(plan, logical))
  {
    if plan != [] {
      var n := |plan| - 1;
      hide DistinctStarts;
      ContributorsExact(plan[..n], logical);
      ShareLanesExact(plan[n], n, logical);
      NoRepeatAppend(Contributors(plan[..n], logical), LanesOfShare(plan[n], n, logical));
    }
  }

  function LanesAt(plan: OutputPlan, logical: nat): seq<Lane> { Sorted(Contributors(plan, logical)) }

  predicate Overlaps(plan: OutputPlan, logical: nat) { |Contributors(plan, logical)| > 1 }

  lemma {:induction false} LanesAtExact(plan: OutputPlan, slotCount: nat, rows: nat, logical: nat)
    requires OutputPlanOk(plan, slotCount, rows)
    ensures AscendingLanes(LanesAt(plan, logical)) && |LanesAt(plan, logical)| == |Contributors(plan, logical)|
    ensures forall lane ::
      lane in LanesAt(plan, logical) <==> lane.share < |plan| && (lane.slot, logical) in plan[lane.share]
    ensures forall lane | lane in LanesAt(plan, logical) :: lane.share < |plan| && lane.slot < slotCount
  {
    forall k | 0 <= k < |plan| ensures DistinctStarts(plan[k]) {
      assert ShareOk(plan[k], slotCount, rows);
    }
    ContributorsExact(plan, logical);
    SortedAscends(Contributors(plan, logical));
    forall lane | lane in LanesAt(plan, logical) ensures lane.share < |plan| && lane.slot < slotCount {
      assert ShareOk(plan[lane.share], slotCount, rows);
    }
  }

  // A lane carries one coordinate.
  lemma {:induction false} OneCoordinate(share: seq<Owner>, slot: nat, a: nat, b: nat)
    requires DistinctStarts(share) && (slot, a) in share && (slot, b) in share
    ensures a == b
  {
    var i :| 0 <= i < |share| && share[i] == (slot, a);
    var j :| 0 <= j < |share| && share[j] == (slot, b);
  }

  lemma {:induction false} LanesDisjoint(plan: OutputPlan, slotCount: nat, rows: nat, a: nat, b: nat, lane: Lane)
    requires OutputPlanOk(plan, slotCount, rows)
    requires lane in LanesAt(plan, a) && lane in LanesAt(plan, b)
    ensures a == b
  {
    LanesAtExact(plan, slotCount, rows, a);
    LanesAtExact(plan, slotCount, rows, b);
    assert ShareOk(plan[lane.share], slotCount, rows);
    OneCoordinate(plan[lane.share], lane.slot, a, b);
  }

  // ----- the values of one coordinate -----

  // DrawsFrom for all lanes but the last, which closes the sum.
  function CoordinateValues(draws: seq<int>, p: Positive): (values: seq<int>)
    ensures |values| == |draws| + 1
  {
    draws + [(-SumOf(draws)) % p]
  }

  // The draws parametrise exactly the residue vectors that sum to zero, each
  // from one vector of draws: uniform draws make a uniform zero-sum vector.
  lemma {:induction false} DrawsAreZeroSums(values: seq<int>, p: Positive)
    requires values != []
    ensures var draws := values[..|values| - 1];
      Residues(values, p) && SumOf(values) % p == 0 <==> Residues(draws, p) && values == CoordinateValues(draws, p)
  {
    hide SumOf;
    var n := |values| - 1;
    var draws, last := values[..n], values[n];
    assert values == draws + [last];
    assert SumOf(values) == SumOf(draws) + last by { LastTerm(values); }
    if 0 <= last < p {
      ClosesSum(SumOf(draws), last, p);
    }
    assert Residues(values, p) <==> Residues(draws, p) && 0 <= last < p;
    assert values == CoordinateValues(draws, p) <==> last == (-SumOf(draws)) % p;
  }

  lemma {:induction false} LastTerm(values: seq<int>)
    requires values != []
    ensures SumOf(values) == SumOf(values[..|values| - 1]) + values[|values| - 1]
  {
  }

  // One residue closes a sum to zero.
  lemma {:induction false} ClosesSum(sum: int, last: int, p: Positive)
    requires 0 <= last < p
    ensures (sum + last) % p == 0 <==> last == (-sum) % p
  {
    ModSmall(0, p);
    ModSmall(last, p);
    ModAdd(sum, -sum, p);
    assert sum + -sum == 0;
    ModAdd(sum, (-sum) % p, p);
    ModAdd(-sum, sum + last, p);
    assert -sum + (sum + last) == last;
    ModAdd(-sum, 0, p);
  }

  // ----- masks by share -----

  // A share without an entry carries the all-zero dummy.
  function MaskAt(values: map<nat, seq<int>>, lane: Lane): int {
    if lane.share in values then At(values[lane.share], lane.slot) else 0
  }

  ghost predicate Shaped(values: map<nat, seq<int>>, slotCount: nat, p: int) {
    forall k | k in values :: |values[k]| == slotCount && Residues(values[k], p)
  }

  ghost predicate Assigned(values: map<nat, seq<int>>, lanes: seq<Lane>, numbers: seq<int>) {
    |lanes| == |numbers| && forall i | 0 <= i < |lanes| :: MaskAt(values, lanes[i]) == numbers[i]
  }

  function PutLane(values: map<nat, seq<int>>, lane: Lane, number: int, slotCount: nat): map<nat, seq<int>>
    requires lane.slot < slotCount && forall k | k in values :: |values[k]| == slotCount
  {
    var row := if lane.share in values then values[lane.share] else seq(slotCount, _ => 0);
    values[lane.share := row[lane.slot := number]]
  }

  lemma {:induction false} PutLaneEffect(values: map<nat, seq<int>>, lane: Lane, number: int, slotCount: nat, p: int)
    requires lane.slot < slotCount && Shaped(values, slotCount, p) && 0 <= number < p
    ensures Shaped(PutLane(values, lane, number, slotCount), slotCount, p)
    ensures MaskAt(PutLane(values, lane, number, slotCount), lane) == number
    ensures forall other | other != lane :: MaskAt(PutLane(values, lane, number, slotCount), other) == MaskAt(values, other)
    ensures PutLane(values, lane, number, slotCount).Keys == values.Keys + {lane.share}
  {
  }

  ghost function SharesOf(lanes: seq<Lane>): set<nat> { set lane | lane in lanes :: lane.share }

  lemma {:induction false} NothingAssigned(values: map<nat, seq<int>>)
    ensures Assigned(values, [], []) && SharesOf([]) == {}
  {
  }

  lemma {:induction false} ShapedLengths(values: map<nat, seq<int>>, slotCount: nat, p: int)
    requires Shaped(values, slotCount, p)
    ensures forall k | k in values :: |values[k]| == slotCount
  {
  }

  lemma {:induction false} OneMoreAssigned(
    values: map<nat, seq<int>>, next: map<nat, seq<int>>, lanes: seq<Lane>, numbers: seq<int>, i: nat)
    requires i < |lanes| == |numbers| && AscendingLanes(lanes) && Assigned(values, lanes[..i], numbers[..i])
    requires MaskAt(next, lanes[i]) == numbers[i]
    requires forall other | other != lanes[i] :: MaskAt(next, other) == MaskAt(values, other)
    ensures Assigned(next, lanes[..i + 1], numbers[..i + 1])
    ensures SharesOf(lanes[..i + 1]) == SharesOf(lanes[..i]) + {lanes[i].share}
  {
    hide MaskAt;
    var longer, written := lanes[..i + 1], numbers[..i + 1];
    assert longer == lanes[..i] + [lanes[i]];
    forall j | 0 <= j < i + 1 ensures MaskAt(next, longer[j]) == written[j] {
      assert j < i ==> lanes[..i][j] == lanes[j] && numbers[..i][j] == numbers[j] && Before(lanes[j], lanes[i]);
    }
  }

  // The zipped assignment of one coordinate; a share is created at its first lane.
  method FillCoordinate(
    before: map<nat, seq<int>>, lanes: seq<Lane>, numbers: seq<int>, slotCount: nat, p: Positive)
    returns (values: map<nat, seq<int>>)
    requires Shaped(before, slotCount, p) && |lanes| == |numbers| && Residues(numbers, p)
    requires AscendingLanes(lanes) && forall lane | lane in lanes :: lane.slot < slotCount
    ensures Shaped(values, slotCount, p) && Assigned(values, lanes, numbers)
    ensures forall lane | lane !in lanes :: MaskAt(values, lane) == MaskAt(before, lane)
    ensures values.Keys == before.Keys + SharesOf(lanes)
  {
    hide MaskAt, PutLane, Assigned, SharesOf, Shaped;
    values := before;
    NothingAssigned(values);
    for i := 0 to |lanes|
      invariant Shaped(values, slotCount, p)
      invariant Assigned(values, lanes[..i], numbers[..i])
      invariant forall lane | lane !in lanes :: MaskAt(values, lane) == MaskAt(before, lane)
      invariant values.Keys == before.Keys + SharesOf(lanes[..i])
    {
      assert lanes[i] in lanes;
      ShapedLengths(values, slotCount, p);
      PutLaneEffect(values, lanes[i], numbers[i], slotCount, p);
      var next := PutLane(values, lanes[i], numbers[i], slotCount);
      OneMoreAssigned(values, next, lanes, numbers, i);
      values := next;
    }
    assert lanes[..|lanes|] == lanes && numbers[..|numbers|] == numbers;
  }

  // ----- the whole preparation -----

  function DrawsFrom(draws: nat -> int, from: nat, count: nat): (s: seq<int>)
    ensures |s| == count
  {
    seq(count, i requires 0 <= i < count => draws(from + i))
  }

  // The draws consumed before a coordinate: one less than its lanes per overlap.
  function DrawnBefore(plan: OutputPlan, logical: nat): nat {
    if logical == 0 then 0
    else DrawnBefore(plan, logical - 1) + if Overlaps(plan, logical - 1) then |Contributors(plan, logical - 1)| - 1 else 0
  }

  ghost predicate CoordinateFilled(
    plan: OutputPlan, draws: nat -> int, p: Positive, values: map<nat, seq<int>>, logical: nat)
  {
    Overlaps(plan, logical) ==>
      Assigned(values, LanesAt(plan, logical),
               CoordinateValues(DrawsFrom(draws, DrawnBefore(plan, logical), |Contributors(plan, logical)| - 1), p))
  }

  // The lane carries one of the first `rows` coordinates, an overlapped one.
  ghost predicate Overlapped(plan: OutputPlan, rows: nat, lane: Lane) {
    exists logical | 0 <= logical < rows :: lane in LanesAt(plan, logical) && Overlaps(plan, logical)
  }

  ghost predicate ShareOverlaps(plan: OutputPlan, rows: nat, share: nat) {
    exists lane: Lane :: lane.share == share && Overlapped(plan, rows, lane)
  }

  // Overlapped coordinates hold their draws and closing values, every other lane
  // is zero, and only shares with an overlapped lane have a mask.
  ghost predicate PreparedMasks(
    plan: OutputPlan, slotCount: nat, rows: nat, p: Positive, draws: nat -> int, values: map<nat, seq<int>>)
  {
    && Shaped(values, slotCount, p)
    && (forall logical | 0 <= logical < rows :: CoordinateFilled(plan, draws, p, values, logical))
    && (forall lane: Lane | !Overlapped(plan, rows, lane) :: MaskAt(values, lane) == 0)
    && (forall k: nat :: k in values <==> ShareOverlaps(plan, rows, k))
  }

  ghost predicate InRange(draws: nat -> int, count: nat, p: int) {
    forall i: nat | i < count :: 0 <= draws(i) < p
  }

  method DrawResidues(draws: nat -> int, from: nat, count: nat, p: Positive) returns (r: Option<seq<int>>)
    ensures r.Some? <==> forall i: nat | from <= i < from + count :: 0 <= draws(i) < p
    ensures r.Some? ==> r.value == DrawsFrom(draws, from, count) && Residues(r.value, p)
  {
    var randomValues: seq<int> := [];
    for i := 0 to count
      invariant randomValues == DrawsFrom(draws, from, i)
      invariant forall j: nat | from <= j < from + i :: 0 <= draws(j) < p
    {
      var sample := draws(from + i);
      if sample < 0 || sample >= p {
        return None;
      }
      randomValues := randomValues + [sample];
    }
    return Some(randomValues);
  }

  lemma {:induction false} OverlappedStep(plan: OutputPlan, n: nat, lane: Lane)
    ensures Overlapped(plan, n + 1, lane)
      <==> Overlapped(plan, n, lane) || (lane in LanesAt(plan, n) && Overlaps(plan, n))
  {
    hide LanesAt, Overlaps;
  }

  lemma {:induction false} MaskedStep(plan: OutputPlan, n: nat, k: nat)
    requires Overlaps(plan, n)
    ensures ShareOverlaps(plan, n + 1, k) <==> ShareOverlaps(plan, n, k) || k in SharesOf(LanesAt(plan, n))
  {
    hide LanesAt, Overlaps, Overlapped;
    if ShareOverlaps(plan, n + 1, k) {
      var lane: Lane :| lane.share == k && Overlapped(plan, n + 1, lane);
      OverlappedStep(plan, n, lane);
    }
    if ShareOverlaps(plan, n, k) {
      var lane: Lane :| lane.share == k && Overlapped(plan, n, lane);
      OverlappedStep(plan, n, lane);
    }
    if k in SharesOf(LanesAt(plan, n)) {
      var lane :| lane in LanesAt(plan, n) && lane.share == k;
      OverlappedStep(plan, n, lane);
    }
  }

  // Filling a later coordinate keeps an earlier one.
  lemma {:induction false} KeepsFilled(
    plan: OutputPlan, slotCount: nat, rows: nat, n: nat, logical: nat, p: Positive, draws: nat -> int,
    before: map<nat, seq<int>>, values: map<nat, seq<int>>)
    requires OutputPlanOk(plan, slotCount, rows) && logical < n && CoordinateFilled(plan, draws, p, before, logical)
    requires forall lane | lane !in LanesAt(plan, n) :: MaskAt(values, lane) == MaskAt(before, lane)
    ensures CoordinateFilled(plan, draws, p, values, logical)
  {
    hide OutputPlanOk, LanesAt, Overlaps, Contributors, MaskAt, CoordinateValues, DrawsFrom, DrawnBefore;
    forall i | 0 <= i < |LanesAt(plan, logical)|
      ensures MaskAt(values, LanesAt(plan, logical)[i]) == MaskAt(before, LanesAt(plan, logical)[i])
    {
      var lane := LanesAt(plan, logical)[i];
      if lane in LanesAt(plan, n) {
        LanesDisjoint(plan, slotCount, rows, logical, n, lane);
      }
    }
  }

  lemma {:induction false} StepPrepared(
    plan: OutputPlan, slotCount: nat, rows: nat, n: nat, p: Positive, draws: nat -> int,
    before: map<nat, seq<int>>, values: map<nat, seq<int>>)
    requires OutputPlanOk(plan, slotCount, rows) && PreparedMasks(plan, slotCount, n, p, draws, before)
    requires Overlaps(plan, n) && Shaped(values, slotCount, p) && CoordinateFilled(plan, draws, p, values, n)
    requires forall lane | lane !in LanesAt(plan, n) :: MaskAt(values, lane) == MaskAt(before, lane)
    requires values.Keys == before.Keys + SharesOf(LanesAt(plan, n))
    ensures PreparedMasks(plan, slotCount, n + 1, p, draws, values)
  {
    hide OutputPlanOk, LanesAt, Overlaps, MaskAt, CoordinateFilled, Overlapped, ShareOverlaps, SharesOf, Shaped;
    forall logical | 0 <= logical < n ensures CoordinateFilled(plan, draws, p, values, logical) {
      KeepsFilled(plan, slotCount, rows, n, logical, p, draws, before, values);
    }
    forall lane: Lane | !Overlapped(plan, n + 1, lane) ensures MaskAt(values, lane) == 0 {
      OverlappedStep(plan, n, lane);
    }
    forall k: nat ensures k in values <==> ShareOverlaps(plan, n + 1, k) {
      MaskedStep(plan, n, k);
    }
  }

  lemma {:induction false} SkipPrepared(
    plan: OutputPlan, slotCount: nat, n: nat, p: Positive, draws: nat -> int, values: map<nat, seq<int>>)
    requires PreparedMasks(plan, slotCount, n, p, draws, values) && !Overlaps(plan, n)
    ensures PreparedMasks(plan, slotCount, n + 1, p, draws, values)
  {
    hide LanesAt, Overlaps, MaskAt;
    forall lane: Lane ensures Overlapped(plan, n + 1, lane) <==> Overlapped(plan, n, lane) {
    }
  }

  // The masks of a plan, from the draws it consumes in coordinate and lane order.
  // Refused: a modulus below two, an invalid plan, a draw outside the residues.
  method PrepareF1MMasks(
    plan: OutputPlan, ids: seq<ShareId>, slotCount: nat, rows: nat, modulus: int, draws: nat -> int)
    returns (r: Option<map<nat, seq<int>>>)
    requires |ids| == |plan|
    ensures r.Some? <==>
      && modulus >= 2 && OutputPlanOk(plan, slotCount, rows) && ShareIdsOk(ids)
      && InRange(draws, DrawnBefore(plan, rows), modulus)
    ensures r.Some? ==> PreparedMasks(plan, slotCount, rows, modulus, draws, r.value)
  {
    hide OutputPlanOk, ShareIdsOk, PreparedMasks, Shaped, Contributors, LanesAt, DrawsFrom, CoordinateValues;
    if modulus < 2 {
      return None;
    }
    var valid := ValidatePlan(plan, ids, slotCount, rows);
    if !valid {
      return None;
    }
    var p: Positive := modulus;
    var values: map<nat, seq<int>> := map[];
    var used := 0;
    NothingPrepared(plan, slotCount, p, draws);
    for logical := 0 to rows
      invariant PreparedMasks(plan, slotCount, logical, p, draws, values)
      invariant used == DrawnBefore(plan, logical) && InRange(draws, used, p)
      invariant forall l: nat | l <= logical :: DrawnBefore(plan, l) <= used
    {
      var lanes := LanesAt(plan, logical);
      LanesAtExact(plan, slotCount, rows, logical);
      DrawnMonotone(plan, logical + 1, rows);
      if |lanes| > 1 {
        var randomValues := DrawResidues(draws, used, |lanes| - 1, p);
        if randomValues.None? {
          return None;
        }
        var numbers := CoordinateValues(randomValues.value, p);
        ValuesAreResidues(randomValues.value, p);
        PreparedIsShaped(plan, slotCount, logical, p, draws, values);
        var filled := FillCoordinate(values, lanes, numbers, slotCount, p);
        StepPrepared(plan, slotCount, rows, logical, p, draws, values, filled);
        values := filled;
        used := used + (|lanes| - 1);
      } else {
        SkipPrepared(plan, slotCount, logical, p, draws, values);
      }
    }
    return Some(values);
  }

  lemma {:induction false} NothingPrepared(plan: OutputPlan, slotCount: nat, p: Positive, draws: nat -> int)
    ensures PreparedMasks(plan, slotCount, 0, p, draws, map[])
  {
  }

  lemma {:induction false} PreparedIsShaped(
    plan: OutputPlan, slotCount: nat, rows: nat, p: Positive, draws: nat -> int, values: map<nat, seq<int>>)
    requires PreparedMasks(plan, slotCount, rows, p, draws, values)
    ensures Shaped(values, slotCount, p)
  {
  }

  lemma {:induction false} ValuesAreResidues(draws: seq<int>, p: Positive)
    requires Residues(draws, p)
    ensures Residues(CoordinateValues(draws, p), p)
  {
  }

  lemma {:induction false} DrawnMonotone(plan: OutputPlan, a: nat, b: nat)
    requires a <= b
    ensures DrawnBefore(plan, a) <= DrawnBefore(plan, b)
    decreases b
  {
    if a < b {
      DrawnMonotone(plan, a, b - 1);
    }
  }

  // ----- prepared masks cancel -----

  function SumLanes(values: map<nat, seq<int>>, lanes: seq<Lane>): int {
    if lanes == [] then 0 else SumLanes(values, lanes[..|lanes| - 1]) + MaskAt(values, lanes[|lanes| - 1])
  }

  lemma {:induction false} SumInsert(values: map<nat, seq<int>>, x: Lane, s: seq<Lane>)
    ensures SumLanes(values, InsertLane(x, s)) == SumLanes(values, s) + MaskAt(values, x)
  {
    var r := InsertLane(x, s);
    if s != [] && !Before(s[|s| - 1], x) {
      SumInsert(values, x, s[..|s| - 1]);
      assert r[..|r| - 1] == InsertLane(x, s[..|s| - 1]);
    } else {
      assert r[..|r| - 1] == s;
    }
  }

  // Sorting the lanes does not change their sum.
  lemma {:induction false} SumSorted(values: map<nat, seq<int>>, s: seq<Lane>)
    ensures SumLanes(values, Sorted(s)) == SumLanes(values, s)
  {
    if s != [] {
      SumSorted(values, s[..|s| - 1]);
      SumInsert(values, s[|s| - 1], Sorted(s[..|s| - 1]));
    }
  }

  lemma {:induction false} SumAppend(values: map<nat, seq<int>>, a: seq<Lane>, b: seq<Lane>)
    ensures SumLanes(values, a + b) == SumLanes(values, a) + SumLanes(values, b)
    decreases |b|
  {
    if b == [] {
      assert a + b == a;
    } else {
      assert (a + b)[..|a + b| - 1] == a + b[..|b| - 1];
      SumAppend(values, a, b[..|b| - 1]);
    }
  }

  lemma {:induction false} SumAssigned(values: map<nat, seq<int>>, lanes: seq<Lane>, numbers: seq<int>)
    requires Assigned(values, lanes, numbers)
    ensures SumLanes(values, lanes) == SumOf(numbers)
    decreases |lanes|
  {
    if lanes != [] {
      SumAssigned(values, lanes[..|lanes| - 1], numbers[..|numbers| - 1]);
    }
  }

  // The mask of a share, lane by lane, whatever zero padding the batch adds.
  ghost predicate CarriesShare(mask: seq<int>, values: map<nat, seq<int>>, k: nat) {
    forall slot: nat :: At(mask, slot) == MaskAt(values, Lane(k, slot))
  }

  lemma {:induction false} ShareSum(share: seq<Owner>, mask: seq<int>, values: map<nat, seq<int>>, k: nat, logical: nat)
    requires CarriesShare(mask, values, k)
    ensures SumLanes(values, LanesOfShare(share, k, logical)) == OwnedMask(share, mask, logical)
  {
    if share != [] {
      hide CarriesShare;
      var n := |share| - 1;
      ShareSum(share[..n], mask, values, k, logical);
      var lanes := LanesOfShare(share[..n], k, logical);
      LaneCarried(mask, values, k, share[n].0);
      assert lanes + [] == lanes;
      assert (lanes + [Lane(k, share[n].0)])[..|lanes|] == lanes;
    }
  }

  lemma {:induction false} LaneCarried(mask: seq<int>, values: map<nat, seq<int>>, k: nat, slot: nat)
    requires CarriesShare(mask, values, k)
    ensures At(mask, slot) == MaskAt(values, Lane(k, slot))
  {
  }

  function OutputPlanOf(components: seq<Component>): (plan: OutputPlan)
    ensures |plan| == |components|
  {
    seq(|components|, k requires 0 <= k < |components| => components[k].owners)
  }

  ghost predicate Carries(components: seq<Component>, values: map<nat, seq<int>>) {
    forall k | 0 <= k < |components| :: CarriesShare(components[k].mask, values, k)
  }

  lemma {:induction false} PlanSum(components: seq<Component>, values: map<nat, seq<int>>, logical: nat)
    requires Carries(components, values)
    ensures SumLanes(values, Contributors(OutputPlanOf(components), logical)) == TotalMask(components, logical)
  {
    hide CarriesShare, OwnedMask, LanesOfShare;
    if components != [] {
      var n := |components| - 1;
      var plan := OutputPlanOf(components);
      PlanSum(components[..n], values, logical);
      assert plan[..n] == OutputPlanOf(components[..n]);
      ShareSum(components[n].owners, components[n].mask, values, n, logical);
      SumAppend(values, Contributors(plan[..n], logical), LanesOfShare(plan[n], n, logical));
    }
  }

  // Lanes that no overlap touches add nothing.
  lemma {:induction false} UntouchedSum(values: map<nat, seq<int>>, lanes: seq<Lane>)
    requires forall lane | lane in lanes :: MaskAt(values, lane) == 0
    ensures SumLanes(values, lanes) == 0
  {
    if lanes != [] {
      var n := |lanes| - 1;
      assert forall lane | lane in lanes[..n] :: lane in lanes;
      UntouchedSum(values, lanes[..n]);
      assert lanes[n] in lanes;
    }
  }

  lemma {:induction false} OverlapCancels(
    plan: OutputPlan, slotCount: nat, rows: nat, p: Positive, draws: nat -> int, values: map<nat, seq<int>>, logical: nat)
    requires CoordinateFilled(plan, draws, p, values, logical) && Overlaps(plan, logical)
    requires InRange(draws, DrawnBefore(plan, rows), p) && logical < rows
    ensures SumLanes(values, LanesAt(plan, logical)) % p == 0
  {
    hide LanesAt, Contributors, CoordinateValues, DrawsFrom, InRange, Assigned, MaskAt;
    var from, count := DrawnBefore(plan, logical), |Contributors(plan, logical)| - 1;
    var drawn := DrawsFrom(draws, from, count);
    SumAssigned(values, LanesAt(plan, logical), CoordinateValues(drawn, p));
    DrawnMonotone(plan, logical + 1, rows);
    DrawsInRange(draws, from, count, DrawnBefore(plan, rows), p);
    ValuesStartWithDraws(drawn, p);
    DrawsAreZeroSums(CoordinateValues(drawn, p), p);
  }

  lemma {:induction false} SingleLaneUntouched(plan: OutputPlan, slotCount: nat, rows: nat, logical: nat, lane: Lane)
    requires OutputPlanOk(plan, slotCount, rows) && !Overlaps(plan, logical) && lane in LanesAt(plan, logical)
    ensures !Overlapped(plan, rows, lane)
  {
    hide OutputPlanOk, LanesAt, Overlaps;
    if l :| 0 <= l < rows && lane in LanesAt(plan, l) && Overlaps(plan, l) {
      LanesDisjoint(plan, slotCount, rows, l, logical, lane);
    }
  }

  lemma {:induction false} CoordinateCancels(
    plan: OutputPlan, slotCount: nat, rows: nat, p: Positive, draws: nat -> int, values: map<nat, seq<int>>, logical: nat)
    requires OutputPlanOk(plan, slotCount, rows) && PreparedMasks(plan, slotCount, rows, p, draws, values)
    requires InRange(draws, DrawnBefore(plan, rows), p) && logical < rows
    ensures SumLanes(values, Contributors(plan, logical)) % p == 0
    ensures !Overlaps(plan, logical) ==> SumLanes(values, Contributors(plan, logical)) == 0
  {
    hide OutputPlanOk, Shaped, Contributors, Sorted, CoordinateFilled, Overlaps, Overlapped, InRange, MaskAt, SumLanes;
    SumSorted(values, Contributors(plan, logical));
    if Overlaps(plan, logical) {
      OverlapCancels(plan, slotCount, rows, p, draws, values, logical);
    } else {
      forall lane | lane in LanesAt(plan, logical) ensures MaskAt(values, lane) == 0 {
        SingleLaneUntouched(plan, slotCount, rows, logical, lane);
      }
      UntouchedSum(values, LanesAt(plan, logical));
      ModSmall(0, p);
    }
  }

  lemma {:induction false} DrawsInRange(draws: nat -> int, from: nat, count: nat, total: nat, p: int)
    requires InRange(draws, total, p) && from + count <= total
    ensures Residues(DrawsFrom(draws, from, count), p)
  {
  }

  lemma {:induction false} ValuesStartWithDraws(drawn: seq<int>, p: Positive)
    ensures CoordinateValues(drawn, p)[..|drawn|] == drawn
  {
  }

  // Whatever the draws, prepared masks meet the hypothesis of the reconstruction.
  lemma {:induction false} PreparedMasksCancel(
    components: seq<Component>, slotCount: nat, rows: nat, p: Positive, draws: nat -> int, values: map<nat, seq<int>>)
    requires OutputPlanOk(OutputPlanOf(components), slotCount, rows) && Carries(components, values)
    requires PreparedMasks(OutputPlanOf(components), slotCount, rows, p, draws, values)
    requires InRange(draws, DrawnBefore(OutputPlanOf(components), rows), p)
    ensures ZeroSumMasks(components, rows, p)
  {
    hide OutputPlanOk, PreparedMasks, Carries, InRange, TotalMask;
    forall row | 0 <= row < rows ensures TotalMask(components, row) % p == 0 {
      CoordinateCancels(OutputPlanOf(components), slotCount, rows, p, draws, values, row);
      PlanSum(components, values, row);
    }
  }

  // Reconstruction under prepared masks: every draw gives the direct product.
  lemma {:induction false} PreparedMasksReconstruct(
    components: seq<Component>, shares: seq<seq<int>>, shape: Shape, query: seq<int>, m: Matrix,
    rows: nat, row: nat, p: Positive, draws: nat -> int, values: map<nat, seq<int>>)
    requires |components| == |shares| && row < rows
    requires forall k | 0 <= k < |components| :: WellPlaced(components[k], shape, query)
    requires forall k | 0 <= k < |components| :: IsShare(shares[k], components[k], query, p)
    requires Holds(components, m)
    requires OutputPlanOk(OutputPlanOf(components), shape.rowSize, rows) && Carries(components, values)
    requires PreparedMasks(OutputPlanOf(components), shape.rowSize, rows, p, draws, values)
    requires InRange(draws, DrawnBefore(OutputPlanOf(components), rows), p)
    ensures MergedAll(components, shares, row, p) == RowProduct(m, query, row) % p
  {
    hide WellPlaced, IsShare, MergedAll, RowProduct, OutputPlanOk, PreparedMasks, Carries, Holds, InRange;
    PreparedMasksCancel(components, shape.rowSize, rows, p, draws, values);
    MergeIsDirectProduct(components, shares, shape, query, m, rows, row, p);
  }

  // ----- the audit of a mask record -----

  datatype MaskKind = RandomZeroSum | EncryptedZeroDummy

  predicate TouchesOverlap(plan: OutputPlan, share: seq<Owner>) {
    exists o | o in share :: Overlaps(plan, o.1)
  }

  function ExpectedKind(plan: OutputPlan, share: seq<Owner>): MaskKind {
    if TouchesOverlap(plan, share) then RandomZeroSum else EncryptedZeroDummy
  }

  ghost predicate RecordAccepts(components: seq<Component>, kinds: seq<MaskKind>, rows: nat, p: Positive) {
    var plan := OutputPlanOf(components);
    && |kinds| == |components|
    && (forall k | 0 <= k < |components| :: kinds[k] == ExpectedKind(plan, plan[k]))
    && (forall k | 0 <= k < |components| :: kinds[k] == EncryptedZeroDummy ==> AllZero(components[k].mask))
    && (forall row | 0 <= row < rows && Overlaps(plan, row) :: TotalMask(components, row) % p == 0)
  }

  // The counts the record derives: ciphertexts of either kind, random elements,
  // and F1-M additions of the program.
  datatype F1MCounts = F1MCounts(
    randomZeroSumCiphertexts: nat, encryptedZeroDummyCiphertexts: nat, randomElements: nat, ciphertextAdditions: nat)

  function CountKind(kinds: seq<MaskKind>, kind: MaskKind): nat {
    if kinds == [] then 0
    else CountKind(kinds[..|kinds| - 1], kind) + if kinds[|kinds| - 1] == kind then 1 else 0
  }

  function CountF1MAdditions(nodes: seq<Node>): nat {
    if nodes == [] then 0
    else CountF1MAdditions(nodes[..|nodes| - 1]) + if nodes[|nodes| - 1].AddF1MMask? then 1 else 0
  }

  // The random elements of a plan are the draws its preparation consumes.
  function DerivedCounts(plan: OutputPlan, kinds: seq<MaskKind>, rows: nat, nodes: seq<Node>): F1MCounts {
    F1MCounts(CountKind(kinds, RandomZeroSum), CountKind(kinds, EncryptedZeroDummy), DrawnBefore(plan, rows),
              CountF1MAdditions(nodes))
  }

  method DeriveCounts(plan: OutputPlan, kinds: seq<MaskKind>, rows: nat, nodes: seq<Node>) returns (counts: F1MCounts)
    ensures counts == DerivedCounts(plan, kinds, rows, nodes)
  {
    var random: nat, dummy: nat, elements: nat, additions: nat := 0, 0, 0, 0;
    for k := 0 to |kinds|
      invariant random == CountKind(kinds[..k], RandomZeroSum) && dummy == CountKind(kinds[..k], EncryptedZeroDummy)
    {
      assert kinds[..k + 1][..k] == kinds[..k];
      if kinds[k] == RandomZeroSum {
        random := random + 1;
      } else {
        dummy := dummy + 1;
      }
    }
    assert kinds[..|kinds|] == kinds;
    for row := 0 to rows
      invariant elements == DrawnBefore(plan, row)
    {
      var multiplicity := |Contributors(plan, row)|;
      if multiplicity > 1 {
        elements := elements + (multiplicity - 1);
      }
    }
    for k := 0 to |nodes|
      invariant additions == CountF1MAdditions(nodes[..k])
    {
      assert nodes[..k + 1][..k] == nodes[..k];
      if nodes[k].AddF1MMask? {
        additions := additions + 1;
      }
    }
    assert nodes[..|nodes|] == nodes;
    return F1MCounts(random, dummy, elements, additions);
  }

  ghost function KindSet(kinds: seq<MaskKind>, kind: MaskKind): set<nat> {
    set k | 0 <= k < |kinds| && kinds[k] == kind
  }

  lemma {:induction false} CountIsSize(kinds: seq<MaskKind>, kind: MaskKind)
    ensures CountKind(kinds, kind) == |KindSet(kinds, kind)|
  {
    if kinds != [] {
      var n := |kinds| - 1;
      CountIsSize(kinds[..n], kind);
      assert KindSet(kinds, kind) == KindSet(kinds[..n], kind) + if kinds[n] == kind then {n} else {};
    }
  }

  lemma {:induction false} KindsPartition(kinds: seq<MaskKind>)
    ensures CountKind(kinds, RandomZeroSum) + CountKind(kinds, EncryptedZeroDummy) == |kinds|
  {
    if kinds != [] {
      KindsPartition(kinds[..|kinds| - 1]);
    }
  }

  ghost function MaskedShares(plan: OutputPlan): set<nat> {
    set k | 0 <= k < |plan| && TouchesOverlap(plan, plan[k])
  }

  // An accepted record counts as random exactly the shares that touch an overlap,
  // and every other share as a dummy.
  lemma {:induction false} AcceptedCounts(
    components: seq<Component>, kinds: seq<MaskKind>, rows: nat, p: Positive, nodes: seq<Node>)
    requires RecordAccepts(components, kinds, rows, p)
    ensures var plan := OutputPlanOf(components);
      var counts := DerivedCounts(plan, kinds, rows, nodes);
      && counts.randomZeroSumCiphertexts == |MaskedShares(plan)|
      && counts.randomZeroSumCiphertexts + counts.encryptedZeroDummyCiphertexts == |components|
  {
    hide TouchesOverlap, Overlaps, TotalMask, DrawnBefore;
    CountIsSize(kinds, RandomZeroSum);
    KindsPartition(kinds);
    assert KindSet(kinds, RandomZeroSum) == MaskedShares(OutputPlanOf(components));
  }

  method CheckF1MRecord(
    components: seq<Component>, kinds: seq<MaskKind>, rows: nat, p: Positive, nodes: seq<Node>, counts: F1MCounts)
    returns (ok: bool)
    ensures ok <==>
      && RecordAccepts(components, kinds, rows, p)
      && counts == DerivedCounts(OutputPlanOf(components), kinds, rows, nodes)
  {
    hide ExpectedKind, Overlaps, TotalMask, DerivedCounts;
    var plan := OutputPlanOf(components);
    if |kinds| != |components| {
      return false;
    }
    for k := 0 to |components|
      invariant forall j | 0 <= j < k :: kinds[j] == ExpectedKind(plan, plan[j])
      invariant forall j | 0 <= j < k :: kinds[j] == EncryptedZeroDummy ==> AllZero(components[j].mask)
    {
      if kinds[k] != ExpectedKind(plan, plan[k]) {
        return false;
      }
      if kinds[k] == EncryptedZeroDummy && !AllZero(components[k].mask) {
        return false;
      }
    }
    for row := 0 to rows
      invariant forall r | 0 <= r < row && Overlaps(plan, r) :: TotalMask(components, r) % p == 0
    {
      if Overlaps(plan, row) && TotalMask(components, row) % p != 0 {
        return false;
      }
    }
    var derived := DeriveCounts(plan, kinds, rows, nodes);
    return counts == derived;
  }

  lemma {:induction false} MaskedIsTouched(plan: OutputPlan, slotCount: nat, rows: nat, k: nat)
    requires OutputPlanOk(plan, slotCount, rows) && k < |plan|
    ensures ShareOverlaps(plan, rows, k) <==> TouchesOverlap(plan, plan[k])
  {
    hide LanesAt, Overlaps;
    assert ShareOk(plan[k], slotCount, rows);
    if ShareOverlaps(plan, rows, k) {
      var lane: Lane :| lane.share == k && Overlapped(plan, rows, lane);
      var logical :| 0 <= logical < rows && lane in LanesAt(plan, logical) && Overlaps(plan, logical);
      LanesAtExact(plan, slotCount, rows, logical);
      assert (lane.slot, logical) in plan[k];
    }
    if o :| o in plan[k] && Overlaps(plan, o.1) {
      LanesAtExact(plan, slotCount, rows, o.1);
      assert (o.0, o.1) in plan[k];
      assert Overlapped(plan, rows, Lane(k, o.0));
    }
  }

  // The audit accepts what the preparation produces.
  lemma {:induction false} PreparedPassesRecord(
    components: seq<Component>, slotCount: nat, rows: nat, p: Positive, draws: nat -> int,
    values: map<nat, seq<int>>, kinds: seq<MaskKind>)
    requires OutputPlanOk(OutputPlanOf(components), slotCount, rows) && Carries(components, values)
    requires PreparedMasks(OutputPlanOf(components), slotCount, rows, p, draws, values)
    requires InRange(draws, DrawnBefore(OutputPlanOf(components), rows), p)
    requires |kinds| == |components| && forall k | 0 <= k < |kinds| ::
      kinds[k] == if k in values then RandomZeroSum else EncryptedZeroDummy
    ensures RecordAccepts(components, kinds, rows, p)
  {
    hide OutputPlanOk, InRange, Shaped, CoordinateFilled, Overlapped, Overlaps, ShareOverlaps, TotalMask, TouchesOverlap;
    PreparedMasksCancel(components, slotCount, rows, p, draws, values);
    forall k | 0 <= k < |components|
      ensures kinds[k] == ExpectedKind(OutputPlanOf(components), OutputPlanOf(components)[k])
      ensures kinds[k] == EncryptedZeroDummy ==> AllZero(components[k].mask)
    {
      MaskedIsTouched(OutputPlanOf(components), slotCount, rows, k);
      assert CarriesShare(components[k].mask, values, k);
      if k !in values {
        DummyIsZero(components[k].mask, values, k);
      }
    }
  }

  lemma {:induction false} DummyIsZero(mask: seq<int>, values: map<nat, seq<int>>, k: nat)
    requires CarriesShare(mask, values, k) && k !in values
    ensures AllZero(mask)
  {
    forall i | 0 <= i < |mask| ensures mask[i] == 0 {
      assert At(mask, i) == MaskAt(values, Lane(k, i));
    }
  }

  // The lanes the audit does not look at: alone in their coordinate, in a share
  // that is masked elsewhere.
  ghost predicate SoleLanesClean(components: seq<Component>, kinds: seq<MaskKind>, p: Positive)
    requires |kinds| == |components|
  {
    forall k | 0 <= k < |components| && kinds[k] == RandomZeroSum ::
      forall o | o in components[k].owners && !Overlaps(OutputPlanOf(components), o.1) :: At(components[k].mask, o.0) % p == 0
  }

  function MasksOf(components: seq<Component>): map<nat, seq<int>> {
    map k: nat | k < |components| :: components[k].mask
  }

  // The mask of a coordinate with one lane is the value of that lane.
  lemma {:induction false} SoleLane(components: seq<Component>, slotCount: nat, rows: nat, k: nat, o: Owner)
    requires OutputPlanOk(OutputPlanOf(components), slotCount, rows) && k < |components| && o in components[k].owners
    requires !Overlaps(OutputPlanOf(components), o.1)
    ensures TotalMask(components, o.1) == At(components[k].mask, o.0)
  {
    hide OutputPlanOk, TotalMask, Sorted;
    var plan, values := OutputPlanOf(components), MasksOf(components);
    var lanes := LanesAt(plan, o.1);
    PlanSum(components, values, o.1);
    LanesAtExact(plan, slotCount, rows, o.1);
    SumSorted(values, Contributors(plan, o.1));
    assert (o.0, o.1) in plan[k];
    assert Lane(k, o.0) in lanes && |lanes| <= 1;
    assert lanes == [Lane(k, o.0)];
    assert SumLanes(values, lanes) == MaskAt(values, Lane(k, o.0)) by {
      assert lanes[..0] == [];
    }
  }

  lemma {:induction false} NoLane(components: seq<Component>, row: nat)
    requires Contributors(OutputPlanOf(components), row) == []
    ensures TotalMask(components, row) == 0
  {
    PlanSum(components, MasksOf(components), row);
  }

  // An accepted record cancels in every row if and only if the sole lanes of
  // its random shares hold multiples of the modulus.
  lemma {:induction false} RecordCancelsIff(
    components: seq<Component>, slotCount: nat, rows: nat, kinds: seq<MaskKind>, p: Positive)
    requires OutputPlanOk(OutputPlanOf(components), slotCount, rows) && RecordAccepts(components, kinds, rows, p)
    ensures ZeroSumMasks(components, rows, p) <==> SoleLanesClean(components, kinds, p)
  {
    hide OutputPlanOk, TotalMask, Contributors, ExpectedKind;
    var plan := OutputPlanOf(components);
    if ZeroSumMasks(components, rows, p) {
      forall k, o | 0 <= k < |components| && kinds[k] == RandomZeroSum && o in components[k].owners
                    && !Overlaps(plan, o.1)
        ensures At(components[k].mask, o.0) % p == 0
      {
        SoleLane(components, slotCount, rows, k, o);
        OwnerInRows(plan, slotCount, rows, k, o);
      }
    }
    if SoleLanesClean(components, kinds, p) {
      forall row | 0 <= row < rows ensures TotalMask(components, row) % p == 0 {
        ModSmall(0, p);
        if Contributors(plan, row) == [] {
          NoLane(components, row);
        } else if !Overlaps(plan, row) {
          var lane := SoleContributor(plan, slotCount, rows, row);
          SoleLane(components, slotCount, rows, lane.share, (lane.slot, row));
          var mask := components[lane.share].mask;
          if kinds[lane.share] == EncryptedZeroDummy {
            assert AllZero(mask);
          }
        }
      }
    }
  }

  lemma {:induction false} OwnerInRows(plan: OutputPlan, slotCount: nat, rows: nat, k: nat, o: Owner)
    requires OutputPlanOk(plan, slotCount, rows) && k < |plan| && o in plan[k]
    ensures o.1 < rows
  {
    assert ShareOk(plan[k], slotCount, rows);
  }

  lemma {:induction false} SoleContributor(plan: OutputPlan, slotCount: nat, rows: nat, row: nat) returns (lane: Lane)
    requires OutputPlanOk(plan, slotCount, rows) && Contributors(plan, row) != []
    ensures lane.share < |plan| && (lane.slot, row) in plan[lane.share]
  {
    hide OutputPlanOk, Sorted, Contributors;
    LanesAtExact(plan, slotCount, rows, row);
    lane := LanesAt(plan, row)[0];
    assert lane in LanesAt(plan, row);
  }

  // Two shares meet in row 0; the first also carries row 1 alone.
  function SoleLaneExample(): seq<Component> {
    [Component("a", 1, [], [(0, 0), (1, 1)], [2, 3]), Component("b", 1, [], [(0, 0)], [3, 0])]
  }

  lemma {:induction false} SoleLaneContributors()
    ensures Contributors(OutputPlanOf(SoleLaneExample()), 0) == [Lane(0, 0), Lane(1, 0)]
    ensures Contributors(OutputPlanOf(SoleLaneExample()), 1) == [Lane(0, 1)]
  {
    var first: seq<Owner> := [(0, 0), (1, 1)];
    var second: seq<Owner> := [(0, 0)];
    var plan := OutputPlanOf(SoleLaneExample());
    assert plan == [first, second] && plan[..1] == [first] && first[..1] == [(0, 0)];
    assert LanesOfShare(first[..1], 0, 0) == [Lane(0, 0)] && LanesOfShare(first[..1], 0, 1) == [];
    assert Contributors(plan[..1], 0) == [Lane(0, 0)] && Contributors(plan[..1], 1) == [Lane(0, 1)];
    assert LanesOfShare(second, 1, 0) == [Lane(1, 0)] && LanesOfShare(second, 1, 1) == [];
  }

  lemma {:induction false} SoleLaneMasks(row: nat)
    ensures TotalMask(SoleLaneExample(), row) == if row == 0 then 5 else if row == 1 then 3 else 0
  {
    var cs := SoleLaneExample();
    var first: seq<Owner> := [(0, 0), (1, 1)];
    var second: seq<Owner> := [(0, 0)];
    assert cs[..1] == [cs[0]] && first[..1] == [(0, 0)];
    assert OwnedMask(first[..1], [2, 3], row) == if row == 0 then 2 else 0;
    assert OwnedMask(first, [2, 3], row) == if row == 0 then 2 else if row == 1 then 3 else 0;
    assert OwnedMask(second, [3, 0], row) == if row == 0 then 3 else 0;
    assert TotalMask(cs[..1], row) == OwnedMask(first, [2, 3], row);
  }

  // The audit accepts a record whose row 1 is off by three modulo five.
  lemma {:induction false} RecordMissesSoleLane()
    ensures RecordAccepts(SoleLaneExample(), [RandomZeroSum, RandomZeroSum], 2, 5)
    ensures TotalMask(SoleLaneExample(), 1) % 5 == 3
  {
    hide Contributors, TotalMask;
    var plan := OutputPlanOf(SoleLaneExample());
    SoleLaneContributors();
    SoleLaneMasks(0);
    SoleLaneMasks(1);
    assert (0, 0) in plan[0] && (0, 0) in plan[1];
  }
}
