// What the two forms of the schedule put at each position, and which publication
// streams they accept, stated on the streams alone.
module QueryTimes {
  import opened Outcomes
  import opened Sequences
  import opened QuerySchedule

  // ----- queries carry the time of what they follow -----

  predicate QueriesFollow(s: seq<Event>) {
    forall i | 0 <= i < |s| && s[i].QueryEvent? :: i > 0 && s[i].timestamp == s[i - 1].timestamp
  }

  lemma {:induction false} FollowAppend(a: seq<Event>, b: seq<Event>)
    requires QueriesFollow(a) && QueriesFollow(b)
    ensures QueriesFollow(a + b)
  {
    forall i | 0 <= i < |a + b| && (a + b)[i].QueryEvent?
      ensures i > 0 && (a + b)[i].timestamp == (a + b)[i - 1].timestamp
    {
      if i >= |a| {
        assert b[i - |a|].QueryEvent?;
      }
    }
  }

  // One event that is no query, and queries at its time.
  lemma {:induction false} QueriesFollowOne(e: Event, n: nat)
    requires !e.QueryEvent?
    ensures QueriesFollow([e] + Queries(e.timestamp, n))
  {
  }

  lemma {:induction false} NoneToFollow(s: seq<Event>)
    requires NoQueries(s)
    ensures QueriesFollow(s)
  {
    forall i | 0 <= i < |s| ensures !s[i].QueryEvent? {
      assert s[i] in s;
    }
  }

  lemma {:induction false} EventTimes(events: seq<Event>, ratio: Ratio, remainder: nat)
    requires 0 <= ratio.numerator && NoQueries(events)
    ensures QueriesFollow(Schedule(events, ratio, remainder))
    decreases |events|
  {
    hide QueriesFollow, Queries, Due, Carried;
    if events == [] {
      NoneToFollow([]);
    } else {
      var e, rest := events[0], events[1..];
      assert e in events && forall x | x in rest :: x in events;
      if e.SetEvent? {
        var tail := Schedule(rest, ratio, Carried(ratio, remainder));
        EventTimes(rest, ratio, Carried(ratio, remainder));
        QueriesFollowOne(e, Due(ratio, remainder));
        FollowAppend([e] + Queries(e.timestamp, Due(ratio, remainder)), tail);
      } else {
        EventTimes(rest, ratio, remainder);
        NoneToFollow([e]);
        FollowAppend([e], Schedule(rest, ratio, remainder));
      }
    }
  }

  // ----- ticks and changes of a publication schedule -----

  function OnlyTicks(events: seq<Event>): seq<Event> {
    if events == [] then [] else (if events[0].TickEvent? then [events[0]] else []) + OnlyTicks(events[1..])
  }

  lemma {:induction false} TicksAppend(a: seq<Event>, b: seq<Event>)
    ensures OnlyTicks(a + b) == OnlyTicks(a) + OnlyTicks(b)
    decreases |a|
  {
    if a == [] {
      assert a + b == b;
    } else {
      assert (a + b)[1..] == a[1..] + b;
      TicksAppend(a[1..], b);
      AppendAssociates(if a[0].TickEvent? then [a[0]] else [], OnlyTicks(a[1..]), OnlyTicks(b));
    }
  }

  lemma {:induction false} NoTicksHere(events: seq<Event>)
    requires forall e | e in events :: !e.TickEvent?
    ensures OnlyTicks(events) == []
    decreases |events|
  {
    if events != [] {
      assert events[0] in events && forall e | e in events[1..] :: e in events;
      NoTicksHere(events[1..]);
    }
  }

  // The time of a transition: its ordinal over its denominator.
  function TimeOf(t: Transition): real
    requires t.timeDenominator != 0
  {
    (t.ordinal as real) / (t.timeDenominator as real)
  }

  predicate ChangeOf(e: Event, t: Transition) {
    t.timeDenominator != 0 && e == SetEvent(TimeOf(t), t.row, t.col, t.after)
  }

  // The transitions that are no clipped no-ops, in order.
  function Effective(ts: seq<Transition>): seq<Transition>
    decreases |ts|
  {
    if ts == [] then [] else (if ts[0].operation == "clipped-no-op" then [] else [ts[0]]) + Effective(ts[1..])
  }

  predicate ChangesOf(events: seq<Event>, ts: seq<Transition>) {
    |events| == |ts| && forall i | 0 <= i < |ts| :: ChangeOf(events[i], ts[i])
  }

  lemma {:induction false} FirstChange(ts: seq<Transition>)
    requires ts != [] && forall t | t in ts :: t.timeDenominator > 0 && t.ordinal >= 0
    ensures Changes(ts) == Changes(ts[..1]) + Changes(ts[1..]) && Effective(ts) == Effective(ts[..1]) + Effective(ts[1..])
    ensures ChangesOf(Changes(ts[..1]), Effective(ts[..1]))
  {
    assert ts[0] in ts && ts[..1][0] == ts[0] && ts[..1][1..] == [];
  }

  lemma {:induction false} ChangesAre(ts: seq<Transition>)
    requires forall t | t in ts :: t.timeDenominator > 0 && t.ordinal >= 0
    ensures ChangesOf(Changes(ts), Effective(ts))
    decreases |ts|
  {
    if ts != [] {
      assert forall t | t in ts[1..] :: t in ts;
      hide Changes, ChangeOf, Effective;
      ChangesAre(ts[1..]);
      FirstChange(ts);
    }
  }

  lemma {:induction false} SetsAreNoTicks(g: seq<Transition>, timestamp: real)
    ensures forall e | e in SetsOf(g, timestamp) :: e.SetEvent?
    decreases |g|
  {
    if g != [] {
      SetsAreNoTicks(g[1..], timestamp);
    }
  }

  lemma {:induction false} GroupTimes(g: seq<Transition>, n: nat, clock: Option<int>, ratio: Ratio)
    requires GroupOk(g, n, clock) && 0 <= ratio.numerator
    ensures var events := GroupEvents(g, n, ratio);
      && QueriesFollow(events) && g[0].ordinal == n && g[0].timeDenominator > 0
      && OnlyTicks(events) == [TickEvent(TimeOf(g[0]))]
  {
    hide FloorOf, SetsOf, Queries, QueriesFollow;
    GroupClocked(g, n, clock);
    assert g[0] in g;
    var timestamp := Timestamp(n, g[0].timeDenominator);
    RunningIsClosed(n, ratio);
    var due := FloorOf(n + 1, ratio) - FloorOf(n, ratio);
    var sets, tick, queries := SetsOf(g, timestamp), [TickEvent(timestamp)], Queries(timestamp, due);
    SetsAreNoTicks(g, timestamp);
    NoneToFollow(sets);
    QueriesFollowOne(TickEvent(timestamp), due);
    FollowAppend(sets, tick + queries);
    AppendAssociates(sets, tick, queries);
    NoTicksHere(sets);
    QueriesAreNoTicks(timestamp, due);
    TicksAppend(tick, queries);
    TicksAppend(sets, tick + queries);
    assert tick[1..] == [];
  }

  lemma {:induction false} QueriesAreNoTicks(timestamp: real, n: nat)
    ensures OnlyTicks(Queries(timestamp, n)) == []
  {
    NoTicksHere(Queries(timestamp, n));
  }

  // The k-th tick has the time of the k-th group.
  ghost predicate TicksOf(ticks: seq<Event>, ts: seq<Transition>) {
    |ticks| == GroupCount(ts) && forall k: nat | k < |ticks| ::
      && CutAt(ts, k) < |ts| && ts[CutAt(ts, k)].timeDenominator != 0
      && ticks[k] == TickEvent(TimeOf(ts[CutAt(ts, k)]))
  }

  lemma {:induction false} TicksOfRest(tick: Event, ticks: seq<Event>, ts: seq<Transition>)
    requires ts != [] && TicksOf(ticks, ts[RunLength(ts)..])
    requires ts[0].timeDenominator != 0 && tick == TickEvent(TimeOf(ts[0]))
    ensures TicksOf([tick] + ticks, ts)
  {
    hide RunLength;
    var run, longer := RunLength(ts), [tick] + ticks;
    OneMoreGroup(ts);
    forall k: nat | k < |longer|
      ensures CutAt(ts, k) < |ts| && ts[CutAt(ts, k)].timeDenominator != 0
      ensures longer[k] == TickEvent(TimeOf(ts[CutAt(ts, k)]))
    {
      if k > 0 {
        assert CutAt(ts, k) == run + CutAt(ts[run..], k - 1);
        assert ts[CutAt(ts, k)] == ts[run..][CutAt(ts[run..], k - 1)];
      }
    }
  }

  // Of every accepted publication: every query follows an event of its own time,
  // the k-th tick has the time of the k-th group, and the changes are those of the
  // effective transitions, at their times.
  lemma {:induction false} PublicationTimes(ts: seq<Transition>, n: nat, clock: Option<int>, ratio: Ratio)
    requires 0 <= ratio.numerator && Publication(ts, n, clock, ratio).Some?
    ensures QueriesFollow(Publication(ts, n, clock, ratio).value)
    ensures TicksOf(OnlyTicks(Publication(ts, n, clock, ratio).value), ts)
    ensures ChangesOf(OnlySets(Publication(ts, n, clock, ratio).value), Effective(ts))
    decreases |ts|
  {
    hide GroupOk, GroupEvents, Publication, RunLength, QueriesFollow, TicksOf, ChangesOf, FloorOf, OnlySets, Changes;
    AllTimed(ts, n, clock, ratio);
    PublicationIsExact(ts, n, clock, ratio, GroupCount(ts));
    LastCut(ts);
    ChangesAre(ts);
    if ts == [] {
      EmptyTimes(n, clock, ratio);
    } else {
      PublicationUnfolds(ts, n, clock, ratio);
      var g, rest := ts[..RunLength(ts)], ts[RunLength(ts)..];
      var tail := Publication(rest, n + 1, Some(ts[0].timeDenominator), ratio).value;
      GroupTimes(g, n, clock, ratio);
      PublicationTimes(rest, n + 1, Some(ts[0].timeDenominator), ratio);
      FollowAppend(GroupEvents(g, n, ratio), tail);
      TicksAppend(GroupEvents(g, n, ratio), tail);
      TicksOfRest(TickEvent(TimeOf(ts[0])), OnlyTicks(tail), ts);
    }
  }

  lemma {:induction false} EmptyTimes(n: nat, clock: Option<int>, ratio: Ratio)
    requires 0 <= ratio.numerator
    ensures Publication([], n, clock, ratio) == Some([]) && QueriesFollow([]) && TicksOf(OnlyTicks([]), [])
  {
  }

  // ----- which streams are accepted -----

  predicate SamePlace(ts: seq<Transition>, i: nat) {
    0 < i < |ts| && ts[i - 1].ordinal == ts[i].ordinal
  }

  // Alone as a T1 admission, or a T2 admission with at most a T2 expiry before it.
  predicate PlaceOk(ts: seq<Transition>, i: nat)
    requires i < |ts|
  {
    var t := ts[i];
    || (t.semantics == "T1" && t.transitionOrdinal == 0 && t.cause == "admission"
        && !SamePlace(ts, i) && !SamePlace(ts, i + 1))
    || (t.semantics == "T2" && t.transitionOrdinal == 1 && t.cause == "admission" && !SamePlace(ts, i + 1)
        && (SamePlace(ts, i) ==>
              ts[i - 1].semantics == "T2" && ts[i - 1].transitionOrdinal == 0 && ts[i - 1].cause == "expiry"))
    || (t.semantics == "T2" && t.transitionOrdinal == 0 && t.cause == "expiry"
        && !SamePlace(ts, i) && SamePlace(ts, i + 1))
  }

  // Ordinals start at n and rise by at most one, times equal ordinals, and one
  // positive denominator, the given one if any, runs through.
  ghost predicate StreamOk(ts: seq<Transition>, n: nat, clock: Option<int>) {
    && (ts != [] ==> ts[0].ordinal == n)
    && (forall i | 0 < i < |ts| :: SamePlace(ts, i) || ts[i].ordinal == ts[i - 1].ordinal + 1)
    && (forall i | 0 <= i < |ts| ::
         && ts[i].timeNumerator == ts[i].ordinal && ts[i].timeDenominator == ts[0].timeDenominator > 0
         && (clock.Some? ==> ts[i].timeDenominator == clock.value))
    && (forall i | 0 <= i < |ts| :: PlaceOk(ts, i))
  }

  lemma {:induction false} RunEnds(ts: seq<Transition>)
    ensures RunLength(ts) < |ts| ==> ts[RunLength(ts)].ordinal != ts[0].ordinal
    decreases |ts|
  {
    if |ts| > 1 && ts[1].ordinal == ts[0].ordinal {
      RunEnds(ts[1..]);
    }
  }

  // Places of the rest are places of the whole, where the group ends.
  lemma {:induction false} RestPlaces(ts: seq<Transition>, run: nat, i: nat)
    requires 0 < run <= i < |ts| && ts[run - 1].ordinal != ts[run].ordinal
    ensures PlaceOk(ts, i) <==> PlaceOk(ts[run..], i - run)
    ensures i > run ==> (SamePlace(ts, i) <==> SamePlace(ts[run..], i - run))
  {
    var rest := ts[run..];
    assert rest[i - run] == ts[i];
    assert SamePlace(rest, i - run + 1) <==> SamePlace(ts, i + 1);
    assert SamePlace(rest, i - run) <==> SamePlace(ts, i);
  }

  // The places of the first group say what its check says.
  lemma {:induction false} GroupPlaces(ts: seq<Transition>, run: nat)
    requires ts != [] && run == RunLength(ts)
    ensures (forall i | 0 <= i < run :: PlaceOk(ts, i)) <==>
      var g := ts[..run];
      if forall t | t in g :: t.semantics == "T1" then OrderIs(g, [(0, "admission")])
      else
        && (forall t | t in g :: t.semantics == "T2")
        && (OrderIs(g, [(1, "admission")]) || OrderIs(g, [(0, "expiry"), (1, "admission")]))
  {
    hide RunLength;
    RunEnds(ts);
    var g := ts[..run];
    assert forall i | 0 < i < run :: SamePlace(ts, i);
    assert !SamePlace(ts, run) && !SamePlace(ts, 0);
    assert g[0] in g && (run > 1 ==> g[1] in g) && (run > 2 ==> SamePlace(ts, 2));
    if forall i | 0 <= i < run :: PlaceOk(ts, i) {
      assert PlaceOk(ts, 0);
      if run > 1 {
        assert SamePlace(ts, 1) && PlaceOk(ts, 1);
      }
    }
  }

  // A stream is its first group followed by a stream of the next ordinal.
  lemma {:induction false} StreamSplits(ts: seq<Transition>, n: nat, clock: Option<int>)
    requires ts != []
    ensures var g, rest := ts[..RunLength(ts)], ts[RunLength(ts)..];
      StreamOk(ts, n, clock) <==> GroupOk(g, n, clock) && StreamOk(rest, n + 1, Some(g[0].timeDenominator))
  {
    var run := RunLength(ts);
    var g, rest := ts[..run], ts[run..];
    RunEnds(ts);
    GroupPlaces(ts, run);
    forall i | run <= i < |ts|
      ensures PlaceOk(ts, i) <==> PlaceOk(rest, i - run)
      ensures i > run ==> (SamePlace(ts, i) <==> SamePlace(rest, i - run))
    {
      RestPlaces(ts, run, i);
    }
    hide RunLength, PlaceOk, OrderIs;
    if StreamOk(ts, n, clock) {
      StreamGroup(ts, run, n, clock);
      StreamRest(ts, run, n, clock);
    }
    if GroupOk(g, n, clock) && StreamOk(rest, n + 1, Some(g[0].timeDenominator)) {
      StreamJoins(ts, run, n, clock);
    }
  }

  lemma {:induction false} StreamGroup(ts: seq<Transition>, run: nat, n: nat, clock: Option<int>)
    requires 0 < run <= |ts| && StreamOk(ts, n, clock) && forall i | 0 <= i < run :: ts[i].ordinal == ts[0].ordinal
    requires var g := ts[..run];
      if forall t | t in g :: t.semantics == "T1" then OrderIs(g, [(0, "admission")])
      else
        && (forall t | t in g :: t.semantics == "T2")
        && (OrderIs(g, [(1, "admission")]) || OrderIs(g, [(0, "expiry"), (1, "admission")]))
    ensures GroupOk(ts[..run], n, clock)
  {
    hide PlaceOk, SamePlace, OrderIs;
  }

  lemma {:induction false} StreamRest(ts: seq<Transition>, run: nat, n: nat, clock: Option<int>)
    requires 0 < run <= |ts| && StreamOk(ts, n, clock) && forall i | 0 <= i < run :: ts[i].ordinal == ts[0].ordinal
    requires run < |ts| ==> ts[run].ordinal != ts[0].ordinal
    requires forall i | run <= i < |ts| :: PlaceOk(ts, i) <==> PlaceOk(ts[run..], i - run)
    requires forall i | run < i < |ts| :: SamePlace(ts, i) <==> SamePlace(ts[run..], i - run)
    ensures StreamOk(ts[run..], n + 1, Some(ts[0].timeDenominator))
  {
    hide PlaceOk;
    var rest := ts[run..];
    if run < |ts| {
      assert SamePlace(ts, run) || ts[run].ordinal == ts[run - 1].ordinal + 1;
    }
    forall i | 0 < i < |rest| ensures SamePlace(rest, i) || rest[i].ordinal == rest[i - 1].ordinal + 1 {
      assert SamePlace(ts, run + i) || ts[run + i].ordinal == ts[run + i - 1].ordinal + 1;
    }
    forall i | 0 <= i < |rest| ensures PlaceOk(rest, i) {
      assert PlaceOk(ts, run + i);
      assert run + i - run == i;
    }
  }

  lemma {:induction false} StreamJoins(ts: seq<Transition>, run: nat, n: nat, clock: Option<int>)
    requires 0 < run <= |ts| && GroupOk(ts[..run], n, clock)
    requires StreamOk(ts[run..], n + 1, Some(ts[0].timeDenominator))
    requires forall i | 0 <= i < run :: PlaceOk(ts, i)
    requires forall i | run <= i < |ts| :: PlaceOk(ts, i) <==> PlaceOk(ts[run..], i - run)
    requires forall i | run < i < |ts| :: SamePlace(ts, i) <==> SamePlace(ts[run..], i - run)
    ensures StreamOk(ts, n, clock)
  {
    hide PlaceOk, GroupOk;
    var g, rest := ts[..run], ts[run..];
    GroupMembers(g, n, clock);
    forall i | 0 <= i < |ts|
      ensures ts[i].timeNumerator == ts[i].ordinal && ts[i].timeDenominator == ts[0].timeDenominator > 0
      ensures clock.Some? ==> ts[i].timeDenominator == clock.value
    {
      assert i < run ==> ts[i] == g[i];
      assert i >= run ==> ts[i] == rest[i - run];
    }
    forall i | 0 <= i < |ts| ensures PlaceOk(ts, i) {
      assert i >= run ==> PlaceOk(rest, i - run);
    }
    StepsJoin(ts, run, n);
  }

  lemma {:induction false} GroupMembers(g: seq<Transition>, n: nat, clock: Option<int>)
    requires GroupOk(g, n, clock)
    ensures forall i | 0 <= i < |g| ::
      && g[i].ordinal == n == g[i].timeNumerator && g[i].timeDenominator == g[0].timeDenominator > 0
      && (clock.Some? ==> g[i].timeDenominator == clock.value)
  {
    forall i | 0 <= i < |g| ensures g[i] in g {
    }
  }

  lemma {:induction false} StepsJoin(ts: seq<Transition>, run: nat, n: nat)
    requires 0 < run <= |ts| && (forall i | 0 <= i < run :: ts[i].ordinal == n)
    requires run < |ts| ==> ts[run].ordinal == n + 1
    requires forall i | 0 < i < |ts[run..]| ::
      SamePlace(ts[run..], i) || ts[run..][i].ordinal == ts[run..][i - 1].ordinal + 1
    ensures forall i | 0 < i < |ts| :: SamePlace(ts, i) || ts[i].ordinal == ts[i - 1].ordinal + 1
  {
    var rest := ts[run..];
    forall i | 0 < i < |ts| ensures SamePlace(ts, i) || ts[i].ordinal == ts[i - 1].ordinal + 1 {
      if i > run {
        assert ts[i] == rest[i - run] && ts[i - 1] == rest[i - run - 1];
        assert SamePlace(rest, i - run) || rest[i - run].ordinal == rest[i - run - 1].ordinal + 1;
      }
    }
  }

  lemma {:induction false} AcceptanceUnfolds(ts: seq<Transition>, n: nat, clock: Option<int>, ratio: Ratio)
    requires 0 <= ratio.numerator && ts != []
    ensures var g := ts[..RunLength(ts)];
      Publication(ts, n, clock, ratio).Some? <==>
        GroupOk(g, n, clock) && Publication(ts[RunLength(ts)..], n + 1, Some(g[0].timeDenominator), ratio).Some?
  {
    hide GroupOk, GroupEvents, RunLength;
  }

  // Publications are accepted exactly when the stream is in order.
  lemma {:induction false} PublicationAccepts(ts: seq<Transition>, n: nat, clock: Option<int>, ratio: Ratio)
    requires 0 <= ratio.numerator
    ensures Publication(ts, n, clock, ratio).Some? <==> StreamOk(ts, n, clock)
    decreases |ts|
  {
    if ts != [] {
      hide GroupOk, GroupEvents, RunLength, StreamOk, Publication;
      AcceptanceUnfolds(ts, n, clock, ratio);
      var g, rest := ts[..RunLength(ts)], ts[RunLength(ts)..];
      StreamSplits(ts, n, clock);
      if GroupOk(g, n, clock) {
        GroupClock(g, n, clock);
        PublicationAccepts(rest, n + 1, Some(g[0].timeDenominator), ratio);
      }
    }
  }
}
