// Inserting queries into an event stream at an exact rational rate: the running
// remainder of synthetic events and the closed form of publication groups.
module QuerySchedule {
  import opened Modular
  import opened Outcomes
  import opened Sequences

  datatype Event =
    | SetEvent(timestamp: real, row: int, col: int, value: int)
    | TickEvent(timestamp: real)
    | QueryEvent(timestamp: real)
    | VersionEvent(timestamp: real)

  datatype Ratio = Ratio(numerator: int, denominator: Positive)

  function Queries(timestamp: real, n: nat): (s: seq<Event>)
    ensures |s| == n
  {
    seq(n, _ => QueryEvent(timestamp))
  }

  function CountQueries(events: seq<Event>): nat {
    if events == [] then 0 else (if events[0].QueryEvent? then 1 else 0) + CountQueries(events[1..])
  }

  function CountSets(events: seq<Event>): nat {
    if events == [] then 0 else (if events[0].SetEvent? then 1 else 0) + CountSets(events[1..])
  }

  function CountTicks(events: seq<Event>): nat {
    if events == [] then 0 else (if events[0].TickEvent? then 1 else 0) + CountTicks(events[1..])
  }

  function WithoutQueries(events: seq<Event>): seq<Event> {
    if events == [] then []
    else (if events[0].QueryEvent? then [] else [events[0]]) + WithoutQueries(events[1..])
  }

  lemma {:induction false} Concatenation(a: seq<Event>, b: seq<Event>)
    ensures CountQueries(a + b) == CountQueries(a) + CountQueries(b)
    ensures CountSets(a + b) == CountSets(a) + CountSets(b)
    ensures CountTicks(a + b) == CountTicks(a) + CountTicks(b)
    ensures WithoutQueries(a + b) == WithoutQueries(a) + WithoutQueries(b)
    decreases |a|
  {
    if a == [] {
      assert a + b == b;
    } else {
      assert (a + b)[1..] == a[1..] + b;
      Concatenation(a[1..], b);
      WithoutQueriesStep(a, b);
    }
  }

  lemma {:induction false} WithoutQueriesStep(a: seq<Event>, b: seq<Event>)
    requires a != [] && WithoutQueries(a[1..] + b) == WithoutQueries(a[1..]) + WithoutQueries(b)
    ensures WithoutQueries(a + b) == WithoutQueries(a) + WithoutQueries(b)
  {
    hide CountQueries, CountSets, CountTicks;
    assert (a + b)[1..] == a[1..] + b;
    var head, mid, tail := if a[0].QueryEvent? then [] else [a[0]], WithoutQueries(a[1..]), WithoutQueries(b);
    assert WithoutQueries(a) == head + mid;
    assert WithoutQueries(a + b) == head + (mid + tail);
    AppendAssociates(head, mid, tail);
  }

  lemma {:induction false} OneEvent(e: Event)
    ensures CountQueries([e]) == (if e.QueryEvent? then 1 else 0)
    ensures CountSets([e]) == (if e.SetEvent? then 1 else 0)
    ensures WithoutQueries([e]) == if e.QueryEvent? then [] else [e]
  {
    assert [e][1..] == [];
  }

  lemma {:induction false} OnlyQueries(timestamp: real, n: nat)
    ensures CountQueries(Queries(timestamp, n)) == n
    ensures CountSets(Queries(timestamp, n)) == 0 == CountTicks(Queries(timestamp, n))
    ensures WithoutQueries(Queries(timestamp, n)) == []
    decreases n
  {
    if n > 0 {
      assert Queries(timestamp, n)[1..] == Queries(timestamp, n - 1);
      OnlyQueries(timestamp, n - 1);
    }
  }

  // ----- synthetic events: the running remainder -----

  // The queries due after one more SET, given the remainder so far.
  function Due(ratio: Ratio, remainder: nat): nat
    requires 0 <= ratio.numerator
  {
    (remainder + ratio.numerator) / ratio.denominator
  }

  function Carried(ratio: Ratio, remainder: nat): nat
    requires 0 <= ratio.numerator
  {
    (remainder + ratio.numerator) % ratio.denominator
  }

  function Schedule(events: seq<Event>, ratio: Ratio, remainder: nat): seq<Event>
    requires 0 <= ratio.numerator
    decreases |events|
  {
    if events == [] then []
    else if events[0].SetEvent? then
      [events[0]] + Queries(events[0].timestamp, Due(ratio, remainder))
      + Schedule(events[1..], ratio, Carried(ratio, remainder))
    else [events[0]] + Schedule(events[1..], ratio, remainder)
  }

  predicate NoQueries(events: seq<Event>) {
    forall e | e in events :: !e.QueryEvent?
  }

  method InsertQueriesIntoEvents(events: seq<Event>, ratio: Ratio) returns (r: Option<seq<Event>>)
    ensures r.Some? <==> 0 <= ratio.numerator && NoQueries(events)
    ensures r.Some? ==> r.value == Schedule(events, ratio, 0)
  {
    hide Queries, Schedule, Due, Carried;
    if ratio.numerator < 0 {
      return None;
    }
    var scheduled: seq<Event> := [];
    var remainder: nat := 0;
    for k := 0 to |events|
      invariant NoQueries(events[..k])
      invariant Schedule(events, ratio, 0) == scheduled + Schedule(events[k..], ratio, remainder)
    {
      var event := events[k];
      assert event in events;
      if event.QueryEvent? {
        return None;
      }
      assert events[..k + 1] == events[..k] + [event];
      ScheduleUnfolds(events, k, ratio, remainder);
      scheduled := scheduled + [event];
      if event.SetEvent? {
        remainder := remainder + ratio.numerator;
        var queryCount := remainder / ratio.denominator;
        remainder := remainder % ratio.denominator;
        scheduled := scheduled + Queries(event.timestamp, queryCount);
      }
    }
    assert events[..|events|] == events && events[|events|..] == [];
    ScheduleEnds(ratio, remainder);
    return Some(scheduled);
  }

  lemma {:induction false} ScheduleUnfolds(events: seq<Event>, k: nat, ratio: Ratio, remainder: nat)
    requires 0 <= ratio.numerator && k < |events|
    ensures var event, due := events[k], remainder + ratio.numerator;
      Schedule(events[k..], ratio, remainder)
      == if event.SetEvent? then
           [event] + Queries(event.timestamp, due / ratio.denominator)
           + Schedule(events[k + 1..], ratio, due % ratio.denominator)
         else [event] + Schedule(events[k + 1..], ratio, remainder)
  {
    hide Queries;
    assert events[k..][0] == events[k] && events[k..][1..] == events[k + 1..];
  }

  lemma {:induction false} ScheduleEnds(ratio: Ratio, remainder: nat)
    requires 0 <= ratio.numerator
    ensures Schedule([], ratio, remainder) == []
  {
  }

  // floor(n * ratio)
  function FloorOf(n: nat, ratio: Ratio): nat
    requires 0 <= ratio.numerator
  {
    n * ratio.numerator / ratio.denominator
  }

  function RemainderOf(n: nat, ratio: Ratio): nat
    requires 0 <= ratio.numerator
  {
    n * ratio.numerator % ratio.denominator
  }

  // The running remainder after n SETs is that of n * ratio, and the queries due
  // next are the difference of two floors.
  lemma {:induction false} RunningIsClosed(n: nat, ratio: Ratio)
    requires 0 <= ratio.numerator
    ensures Due(ratio, RemainderOf(n, ratio)) == FloorOf(n + 1, ratio) - FloorOf(n, ratio)
    ensures Carried(ratio, RemainderOf(n, ratio)) == RemainderOf(n + 1, ratio)
    ensures FloorOf(n, ratio) <= FloorOf(n + 1, ratio)
  {
    var d, a := ratio.denominator, n * ratio.numerator;
    var q, r := a / d, a % d;
    var q2, r2 := (r + ratio.numerator) / d, (r + ratio.numerator) % d;
    assert a == q * d + r;
    assert r + ratio.numerator == q2 * d + r2;
    assert (n + 1) * ratio.numerator == a + ratio.numerator == (q + q2) * d + r2;
    ModUnique((n + 1) * ratio.numerator, q + q2, r2, d);
  }

  lemma {:induction false} ScheduleAppend(a: seq<Event>, b: seq<Event>, ratio: Ratio, n: nat)
    requires 0 <= ratio.numerator
    ensures Schedule(a + b, ratio, RemainderOf(n, ratio))
         == Schedule(a, ratio, RemainderOf(n, ratio)) + Schedule(b, ratio, RemainderOf(n + CountSets(a), ratio))
    decreases |a|
  {
    hide Due, Carried, RemainderOf;
    if a == [] {
      assert a + b == b;
    } else {
      assert (a + b)[1..] == a[1..] + b;
      RunningIsClosed(n, ratio);
      ScheduleAppend(a[1..], b, ratio, if a[0].SetEvent? then n + 1 else n);
    }
  }

  // What one event and the queries due after it add.
  lemma {:induction false} Emitted(e: Event, due: nat, tail: seq<Event>)
    requires !e.QueryEvent?
    ensures CountQueries([e] + Queries(e.timestamp, due) + tail) == due + CountQueries(tail)
    ensures WithoutQueries([e] + Queries(e.timestamp, due) + tail) == [e] + WithoutQueries(tail)
    ensures [e] + Queries(e.timestamp, 0) + tail == [e] + tail
  {
    hide CountQueries, WithoutQueries, CountSets, CountTicks;
    OneEvent(e);
    OnlyQueries(e.timestamp, due);
    Concatenation([e], Queries(e.timestamp, due));
    Concatenation([e] + Queries(e.timestamp, due), tail);
    assert [e] + Queries(e.timestamp, 0) == [e];
  }

  // From n SETs on, the schedule emits the floors' difference and keeps the events.
  lemma {:induction false} ScheduleCounts(events: seq<Event>, ratio: Ratio, n: nat)
    requires 0 <= ratio.numerator && NoQueries(events)
    ensures CountQueries(Schedule(events, ratio, RemainderOf(n, ratio)))
         == FloorOf(n + CountSets(events), ratio) - FloorOf(n, ratio)
    ensures WithoutQueries(Schedule(events, ratio, RemainderOf(n, ratio))) == events
    decreases |events|
  {
    hide Due, Carried, RemainderOf, FloorOf, CountQueries, WithoutQueries, CountSets;
    if events == [] {
      NoEvents();
    } else {
      var e, rest := events[0], events[1..];
      assert e in events && forall x | x in rest :: x in events;
      assert [e] + rest == events;
      OneEvent(e);
      Concatenation([e], rest);
      if e.SetEvent? {
        RunningIsClosed(n, ratio);
        ScheduleCounts(rest, ratio, n + 1);
        Emitted(e, Due(ratio, RemainderOf(n, ratio)), Schedule(rest, ratio, RemainderOf(n + 1, ratio)));
      } else {
        ScheduleCounts(rest, ratio, n);
        Emitted(e, 0, Schedule(rest, ratio, RemainderOf(n, ratio)));
      }
    }
  }

  lemma {:induction false} NoEvents()
    ensures CountQueries([]) == 0 == CountSets([]) && WithoutQueries([]) == []
  {
  }

  // After the Nth SET exactly floor(N * ratio) queries have been emitted, for
  // every cut of the stream, and removing the queries returns the input.
  lemma {:induction false} ScheduleIsExact(events: seq<Event>, ratio: Ratio, k: nat)
    requires 0 <= ratio.numerator && NoQueries(events) && k <= |events|
    ensures Schedule(events[..k], ratio, 0) <= Schedule(events, ratio, 0)
    ensures CountQueries(Schedule(events[..k], ratio, 0)) == FloorOf(CountSets(events[..k]), ratio)
    ensures WithoutQueries(Schedule(events, ratio, 0)) == events
  {
    hide RemainderOf, FloorOf, Schedule, CountQueries, CountSets, WithoutQueries, NoQueries;
    NothingBefore(ratio);
    assert events == events[..k] + events[k..];
    PrefixHasNoQueries(events, k);
    ScheduleAppend(events[..k], events[k..], ratio, 0);
    ScheduleCounts(events[..k], ratio, 0);
    ScheduleCounts(events, ratio, 0);
  }

  lemma {:induction false} PrefixHasNoQueries(events: seq<Event>, k: nat)
    requires NoQueries(events) && k <= |events|
    ensures NoQueries(events[..k])
  {
    assert forall e | e in events[..k] :: e in events;
  }

  lemma {:induction false} NothingBefore(ratio: Ratio)
    requires 0 <= ratio.numerator
    ensures FloorOf(0, ratio) == 0 && RemainderOf(0, ratio) == 0
  {
    ModUnique(0, 0, 0, ratio.denominator);
  }

  // ----- the integer rate -----

  // Every query repeated k times, everything else once.
  function RepeatQueries(events: seq<Event>, k: nat): seq<Event>
    decreases |events|
  {
    if events == [] then []
    else
      (if events[0].QueryEvent? then Queries(events[0].timestamp, k) else [events[0]])
      + RepeatQueries(events[1..], k)
  }

  // The schedule at rate k is the schedule at rate one with every query repeated k times.
  lemma {:induction false} IntegerRateRepeats(events: seq<Event>, k: nat)
    requires NoQueries(events)
    ensures Schedule(events, Ratio(k, 1), 0) == RepeatQueries(Schedule(events, Ratio(1, 1), 0), k)
    decreases |events|
  {
    if events != [] {
      var e, rest := events[0], events[1..];
      assert e in events && forall x | x in rest :: x in events;
      IntegerRateRepeats(rest, k);
      var unit := Schedule(rest, Ratio(1, 1), 0);
      if e.SetEvent? {
        assert Due(Ratio(k, 1), 0) == k && Carried(Ratio(k, 1), 0) == 0;
        assert Due(Ratio(1, 1), 0) == 1 && Carried(Ratio(1, 1), 0) == 0;
        assert Queries(e.timestamp, 1) == [QueryEvent(e.timestamp)];
        assert Schedule(events, Ratio(1, 1), 0) == [e] + ([QueryEvent(e.timestamp)] + unit);
        assert ([e] + ([QueryEvent(e.timestamp)] + unit))[1..] == [QueryEvent(e.timestamp)] + unit;
        assert ([QueryEvent(e.timestamp)] + unit)[1..] == unit;
      } else {
        assert ([e] + unit)[1..] == unit;
      }
    }
  }

  // ----- publication transitions -----

  datatype Transition = Transition(
    ordinal: int, timeNumerator: int, timeDenominator: int, semantics: string,
    transitionOrdinal: int, cause: string, row: int, col: int, operation: string, after: int)

  const CLIPPED := "clipped-no-op"

  // The length of the run of equal ordinals at the front, as groupby takes it.
  function RunLength(ts: seq<Transition>): (n: nat)
    ensures n <= |ts|
    ensures ts != [] ==> 0 < n
    ensures forall i | 0 <= i < n :: ts[i].ordinal == ts[0].ordinal
  {
    if ts == [] then 0
    else if |ts| > 1 && ts[1].ordinal == ts[0].ordinal then 1 + RunLength(ts[1..])
    else 1
  }

  predicate OrderIs(g: seq<Transition>, order: seq<(int, string)>) {
    |g| == |order| && forall i | 0 <= i < |g| :: (g[i].transitionOrdinal, g[i].cause) == order[i]
  }

  // The checks on one group: its ordinal, its clock and its T1 or T2 shape.
  predicate GroupOk(g: seq<Transition>, n: nat, clock: Option<int>) {
    && g != []
    && (forall t | t in g :: t.ordinal == n && t.timeNumerator == n)
    && g[0].timeDenominator > 0
    && (forall t | t in g :: t.timeDenominator == g[0].timeDenominator)
    && (clock.Some? ==> clock.value == g[0].timeDenominator)
    && (if forall t | t in g :: t.semantics == "T1" then OrderIs(g, [(0, "admission")])
        else
          && (forall t | t in g :: t.semantics == "T2")
          && (OrderIs(g, [(1, "admission")]) || OrderIs(g, [(0, "expiry"), (1, "admission")])))
  }

  // SET events of the transitions that are not clipped no-ops.
  function SetsOf(g: seq<Transition>, timestamp: real): seq<Event> {
    if g == [] then []
    else
      (if g[0].operation == CLIPPED then [] else [SetEvent(timestamp, g[0].row, g[0].col, g[0].after)])
      + SetsOf(g[1..], timestamp)
  }

  function Timestamp(n: nat, denominator: int): real
    requires denominator > 0
  {
    (n as real) / (denominator as real)
  }

  // What one accepted group emits: its sets, one tick, and the queries due.
  function GroupEvents(g: seq<Transition>, n: nat, ratio: Ratio): seq<Event>
    requires g != [] && g[0].timeDenominator > 0 && 0 <= ratio.numerator
  {
    var timestamp := Timestamp(n, g[0].timeDenominator);
    RunningIsClosed(n, ratio);
    SetsOf(g, timestamp) + [TickEvent(timestamp)]
    + Queries(timestamp, FloorOf(n + 1, ratio) - FloorOf(n, ratio))
  }

  function Publication(ts: seq<Transition>, n: nat, clock: Option<int>, ratio: Ratio): Option<seq<Event>>
    requires 0 <= ratio.numerator
    decreases |ts|
  {
    if ts == [] then Some([])
    else
      var g := ts[..RunLength(ts)];
      if !GroupOk(g, n, clock) then None
      else
        Prefixed(GroupEvents(g, n, ratio),
                 Publication(ts[RunLength(ts)..], n + 1, Some(g[0].timeDenominator), ratio))
  }

  method InsertQueriesIntoPublication(ts: seq<Transition>, ratio: Ratio) returns (r: Option<seq<Event>>)
    ensures r == if 0 <= ratio.numerator then Publication(ts, 0, None, ratio) else None
  {
    hide GroupOk, Timestamp, SetsOf, Prefixed;
    if ratio.numerator < 0 {
      return None;
    }
    var scheduled: seq<Event> := [];
    var clock: Option<int> := None;
    var rest := ts;
    var n: nat := 0;
    PrefixedTwice([], [], Publication(ts, 0, None, ratio));
    while rest != []
      invariant Publication(ts, 0, None, ratio) == Prefixed(scheduled, Publication(rest, n, clock, ratio))
      decreases |rest|
    {
      var length := RunLength(rest);
      var g := rest[..length];
      if !GroupOk(g, n, clock) {
        PrefixedNone(scheduled);
        return None;
      }
      GroupClock(g, n, clock);
      clock := Some(g[0].timeDenominator);
      var timestamp := Timestamp(n, g[0].timeDenominator);
      RunningIsClosed(n, ratio);
      var queriesBefore := n * ratio.numerator / ratio.denominator;
      var queriesAfter := (n + 1) * ratio.numerator / ratio.denominator;
      var emitted := SetsOf(g, timestamp) + [TickEvent(timestamp)] + Queries(timestamp, queriesAfter - queriesBefore);
      PrefixedTwice(scheduled, emitted, Publication(rest[length..], n + 1, clock, ratio));
      scheduled := scheduled + emitted;
      rest := rest[length..];
      n := n + 1;
    }
    PrefixedNothing(scheduled);
    return Some(scheduled);
  }

  lemma {:induction false} GroupClock(g: seq<Transition>, n: nat, clock: Option<int>)
    requires GroupOk(g, n, clock)
    ensures g != [] && g[0].timeDenominator > 0
  {
  }

  lemma {:induction false} PrefixedNone(prefix: seq<Event>)
    ensures Prefixed(prefix, None) == None
  {
  }

  lemma {:induction false} PrefixedNothing(prefix: seq<Event>)
    ensures Prefixed(prefix, Some([])) == Some(prefix)
  {
    assert prefix + [] == prefix;
  }

  // The accepted transitions that change a coordinate, in order, with their group's time.
  function Change(t: Transition): seq<Event>
    requires t.timeDenominator > 0 && t.ordinal >= 0
  {
    if t.operation == CLIPPED then []
    else [SetEvent(Timestamp(t.ordinal, t.timeDenominator), t.row, t.col, t.after)]
  }

  function Changes(ts: seq<Transition>): seq<Event>
    requires forall t | t in ts :: t.timeDenominator > 0 && t.ordinal >= 0
    decreases |ts|
  {
    if ts == [] then [] else Change(ts[0]) + Changes(ts[1..])
  }

  function OnlySets(events: seq<Event>): seq<Event> {
    if events == [] then []
    else (if events[0].SetEvent? then [events[0]] else []) + OnlySets(events[1..])
  }

  function GroupCount(ts: seq<Transition>): nat
    decreases |ts|
  {
    if ts == [] then 0 else 1 + GroupCount(ts[RunLength(ts)..])
  }

  lemma {:induction false} SetsAppend(a: seq<Event>, b: seq<Event>)
    ensures OnlySets(a + b) == OnlySets(a) + OnlySets(b)
    decreases |a|
  {
    if a == [] {
      assert a + b == b;
    } else {
      assert (a + b)[1..] == a[1..] + b;
      SetsAppend(a[1..], b);
      AppendAssociates(if a[0].SetEvent? then [a[0]] else [], OnlySets(a[1..]), OnlySets(b));
    }
  }

  lemma {:induction false} NoSetsInQueries(timestamp: real, n: nat)
    ensures OnlySets(Queries(timestamp, n)) == []
    decreases n
  {
    if n > 0 {
      assert Queries(timestamp, n)[1..] == Queries(timestamp, n - 1);
      NoSetsInQueries(timestamp, n - 1);
    }
  }

  lemma {:induction false} SetsOfGroup(g: seq<Transition>, n: nat, d: int)
    requires d > 0 && forall t | t in g :: t.ordinal == n && t.timeDenominator == d
    ensures OnlySets(SetsOf(g, Timestamp(n, d))) == SetsOf(g, Timestamp(n, d)) == Changes(g)
    ensures CountTicks(SetsOf(g, Timestamp(n, d))) == 0 == CountQueries(SetsOf(g, Timestamp(n, d)))
    decreases |g|
  {
    if g != [] {
      assert g[0] in g && forall t | t in g[1..] :: t in g;
      SetsOfGroup(g[1..], n, d);
      var rest := SetsOf(g[1..], Timestamp(n, d));
      if g[0].operation != CLIPPED {
        assert SetsOf(g, Timestamp(n, d))[1..] == rest;
      } else {
        assert SetsOf(g, Timestamp(n, d)) == rest;
      }
    }
  }

  lemma {:induction false} ChangesAppend(a: seq<Transition>, b: seq<Transition>)
    requires forall t | t in a :: t.timeDenominator > 0 && t.ordinal >= 0
    requires forall t | t in b :: t.timeDenominator > 0 && t.ordinal >= 0
    ensures forall t | t in a + b :: t.timeDenominator > 0 && t.ordinal >= 0
    ensures Changes(a + b) == Changes(a) + Changes(b)
    decreases |a|
  {
    hide Change;
    if a == [] {
      assert a + b == b;
    } else {
      assert (a + b)[1..] == a[1..] + b;
      assert forall t | t in a[1..] :: t in a;
      ChangesAppend(a[1..], b);
      AppendAssociates(Change(a[0]), Changes(a[1..]), Changes(b));
    }
  }

  lemma {:induction false} GroupEffect(g: seq<Transition>, n: nat, clock: Option<int>, ratio: Ratio)
    requires GroupOk(g, n, clock) && 0 <= ratio.numerator
    ensures forall t | t in g :: t.timeDenominator > 0 && t.ordinal >= 0
    ensures var events := GroupEvents(g, n, ratio);
      && OnlySets(events) == Changes(g) && CountTicks(events) == 1
      && CountQueries(events) == FloorOf(n + 1, ratio) - FloorOf(n, ratio)
  {
    hide FloorOf, SetsOf, Queries, Changes, Timestamp, OnlySets, CountTicks, CountQueries;
    var d := g[0].timeDenominator;
    var timestamp := Timestamp(n, d);
    RunningIsClosed(n, ratio);
    var due := FloorOf(n + 1, ratio) - FloorOf(n, ratio);
    var sets, tick, queries := SetsOf(g, timestamp), [TickEvent(timestamp)], Queries(timestamp, due);
    SetsOfGroup(g, n, d);
    OnlyQueries(timestamp, due);
    NoSetsInQueries(timestamp, due);
    Concatenation(sets, tick);
    Concatenation(sets + tick, queries);
    SetsAppend(sets, tick);
    SetsAppend(sets + tick, queries);
    OneTick(timestamp);
  }

  // ----- cuts of a publication stream -----

  // Where the first k groups end.
  function CutAt(ts: seq<Transition>, k: nat): (c: nat)
    ensures c <= |ts|
    decreases k
  {
    if k == 0 || ts == [] then 0 else RunLength(ts) + CutAt(ts[RunLength(ts)..], k - 1)
  }

  // The first run is found in every prefix that contains it.
  lemma {:induction false} RunInPrefix(ts: seq<Transition>, c: nat)
    requires RunLength(ts) <= c <= |ts|
    ensures RunLength(ts[..c]) == RunLength(ts)
    decreases |ts|
  {
    if ts != [] && c > 1 && ts[1].ordinal == ts[0].ordinal {
      assert ts[..c][1..] == ts[1..][..c - 1];
      RunInPrefix(ts[1..], c - 1);
    }
  }

  // The first k groups of ts are its first group and the first k - 1 of the rest.
  lemma {:induction false} CutSplits(ts: seq<Transition>, k: nat)
    requires ts != [] && 0 < k
    ensures var run := RunLength(ts);
      var cut := ts[..CutAt(ts, k)];
      && run <= |cut| && RunLength(cut) == run
      && cut[..run] == ts[..run] && cut[run..] == ts[run..][..CutAt(ts[run..], k - 1)]
      && cut == ts[..run] + ts[run..][..CutAt(ts[run..], k - 1)]
  {
    var run, more := RunLength(ts), CutAt(ts[RunLength(ts)..], k - 1);
    assert CutAt(ts, k) == run + more;
    hide RunLength, CutAt;
    RunInPrefix(ts, run + more);
  }

  lemma {:induction false} NoGroups()
    ensures GroupCount([]) == 0
  {
  }

  lemma {:induction false} OneMoreGroup(ts: seq<Transition>)
    requires ts != []
    ensures GroupCount(ts) == 1 + GroupCount(ts[RunLength(ts)..])
  {
  }

  lemma {:induction false} PublicationUnfolds(ts: seq<Transition>, n: nat, clock: Option<int>, ratio: Ratio)
    requires 0 <= ratio.numerator && ts != [] && Publication(ts, n, clock, ratio).Some?
    ensures var g, rest := ts[..RunLength(ts)], ts[RunLength(ts)..];
      && GroupOk(g, n, clock) && g != [] && g[0].timeDenominator > 0
      && var tail := Publication(rest, n + 1, Some(g[0].timeDenominator), ratio);
         tail.Some? && Publication(ts, n, clock, ratio).value == GroupEvents(g, n, ratio) + tail.value
  {
  }

  lemma {:induction false} PublicationFolds(
    ts: seq<Transition>, n: nat, clock: Option<int>, ratio: Ratio)
    requires 0 <= ratio.numerator && ts != []
    requires GroupOk(ts[..RunLength(ts)], n, clock)
    requires Publication(ts[RunLength(ts)..], n + 1, Some(ts[0].timeDenominator), ratio).Some?
    ensures Publication(ts, n, clock, ratio)
         == Some(GroupEvents(ts[..RunLength(ts)], n, ratio)
                 + Publication(ts[RunLength(ts)..], n + 1, Some(ts[0].timeDenominator), ratio).value)
  {
  }

  // What a schedule of whole groups from group n on holds.
  ghost predicate ExactPublication(events: seq<Event>, ts: seq<Transition>, n: nat, ratio: Ratio)
    requires 0 <= ratio.numerator
  {
    && (forall t | t in ts :: t.timeDenominator > 0 && t.ordinal >= 0)
    && OnlySets(events) == Changes(ts)
    && CountTicks(events) == GroupCount(ts)
    && CountQueries(events) == FloorOf(n + GroupCount(ts), ratio) - FloorOf(n, ratio)
  }

  lemma {:induction false} GroupThenRest(
    g: seq<Transition>, rest: seq<Transition>, ts: seq<Transition>, tail: seq<Event>, n: nat,
    clock: Option<int>, ratio: Ratio)
    requires 0 <= ratio.numerator && ts != [] && g == ts[..RunLength(ts)] && rest == ts[RunLength(ts)..]
    requires GroupOk(g, n, clock) && ExactPublication(tail, rest, n + 1, ratio)
    ensures ExactPublication(GroupEvents(g, n, ratio) + tail, ts, n, ratio)
  {
    hide GroupOk, GroupEvents, FloorOf, OnlySets, CountTicks, CountQueries, CountSets, Changes, RunLength, GroupCount;
    GroupEffect(g, n, clock, ratio);
    var events := GroupEvents(g, n, ratio);
    assert ts == g + rest;
    ChangesAppend(g, rest);
    Concatenation(events, tail);
    SetsAppend(events, tail);
    OneMoreGroup(ts);
  }

  // At the k-th cut: the schedule of the first k groups is a prefix of the whole
  // one, keeps every change in order and drops only clipped no-ops, holds k ticks
  // and exactly floor((n + k) * ratio) - floor(n * ratio) queries.
  ghost predicate ExactCut(ts: seq<Transition>, n: nat, clock: Option<int>, ratio: Ratio, k: nat)
    requires 0 <= ratio.numerator && Publication(ts, n, clock, ratio).Some?
  {
    var cut := ts[..CutAt(ts, k)];
    var published := Publication(cut, n, clock, ratio);
    && GroupCount(cut) == k
    && published.Some? && published.value <= Publication(ts, n, clock, ratio).value
    && ExactPublication(published.value, cut, n, ratio)
  }

  // Every cut of every accepted stream is exact.
  lemma {:induction false} PublicationIsExact(
    ts: seq<Transition>, n: nat, clock: Option<int>, ratio: Ratio, k: nat)
    requires 0 <= ratio.numerator && Publication(ts, n, clock, ratio).Some? && k <= GroupCount(ts)
    ensures ExactCut(ts, n, clock, ratio, k)
    decreases k
  {
    hide GroupOk, GroupEvents, ExactCut, Publication, RunLength, GroupCount, CutAt;
    if k > 0 {
      NoGroups();
      PublicationUnfolds(ts, n, clock, ratio);
      OneMoreGroup(ts);
      var rest := ts[RunLength(ts)..];
      PublicationIsExact(rest, n + 1, Some(ts[0].timeDenominator), ratio, k - 1);
      CutStep(ts, n, clock, ratio, k);
    } else {
      NothingPublished(ts, n, clock, ratio);
    }
  }

  lemma {:induction false} CutStep(ts: seq<Transition>, n: nat, clock: Option<int>, ratio: Ratio, k: nat)
    requires 0 <= ratio.numerator && ts != [] && 0 < k && Publication(ts, n, clock, ratio).Some?
    requires Publication(ts[RunLength(ts)..], n + 1, Some(ts[0].timeDenominator), ratio).Some?
    requires ExactCut(ts[RunLength(ts)..], n + 1, Some(ts[0].timeDenominator), ratio, k - 1)
    ensures ExactCut(ts, n, clock, ratio, k)
  {
    hide GroupOk, GroupEvents, ExactPublication, Publication, CutAt, RunLength, FloorOf, GroupCount;
    PublicationUnfolds(ts, n, clock, ratio);
    CutSplits(ts, k);
    var run := RunLength(ts);
    var g, rest, cut := ts[..run], ts[run..], ts[..CutAt(ts, k)];
    assert cut[0] == g[0] == ts[0];
    PublicationFolds(cut, n, clock, ratio);
    OneMoreGroup(cut);
    GroupThenRest(g, cut[run..], cut, Publication(cut[run..], n + 1, Some(ts[0].timeDenominator), ratio).value, n, clock, ratio);
  }

  lemma {:induction false} NothingPublished(ts: seq<Transition>, n: nat, clock: Option<int>, ratio: Ratio)
    requires 0 <= ratio.numerator && Publication(ts, n, clock, ratio).Some?
    ensures ExactCut(ts, n, clock, ratio, 0)
  {
    assert ts[..CutAt(ts, 0)] == [];
  }

  // The last cut is the whole stream.
  lemma {:induction false} LastCut(ts: seq<Transition>)
    ensures ts[..CutAt(ts, GroupCount(ts))] == ts
    decreases |ts|
  {
    if ts != [] {
      var run := RunLength(ts);
      LastCut(ts[run..]);
      assert ts == ts[..run] + ts[run..];
      CutSplits(ts, GroupCount(ts));
    }
  }

  // ----- every position of a publication schedule -----

  // Before any event but a query, the queries emitted are exactly those due after
  // the ticks so far; before a tick, the changes are those up to its group.
  ghost predicate ExactAt(events: seq<Event>, ts: seq<Transition>, n: nat, ratio: Ratio, l: nat)
    requires 0 <= ratio.numerator && l <= |events|
    requires forall t | t in ts :: t.timeDenominator > 0 && t.ordinal >= 0
  {
    var ticks := CountTicks(events[..l]);
    && ticks <= GroupCount(ts)
    && (l == |events| || !events[l].QueryEvent? ==>
          CountQueries(events[..l]) == FloorOf(n + ticks, ratio) - FloorOf(n, ratio))
    && (l < |events| && events[l].TickEvent? ==>
          ticks < GroupCount(ts) && OnlySets(events[..l]) == Changes(ts[..CutAt(ts, ticks + 1)]))
  }

  lemma {:induction false} AllTimed(ts: seq<Transition>, n: nat, clock: Option<int>, ratio: Ratio)
    requires 0 <= ratio.numerator && Publication(ts, n, clock, ratio).Some?
    ensures forall t | t in ts :: t.timeDenominator > 0 && t.ordinal >= 0
  {
    hide Publication;
    PublicationIsExact(ts, n, clock, ratio, GroupCount(ts));
    LastCut(ts);
  }

  // Positions inside the events of one group: its sets, then its tick, then its queries.
  lemma {:induction false} InsideGroup(
    ts: seq<Transition>, n: nat, clock: Option<int>, ratio: Ratio, tail: seq<Event>, l: nat)
    requires 0 <= ratio.numerator && ts != [] && GroupOk(ts[..RunLength(ts)], n, clock)
    requires forall t | t in ts :: t.timeDenominator > 0 && t.ordinal >= 0
    requires l < |GroupEvents(ts[..RunLength(ts)], n, ratio)|
    ensures ExactAt(GroupEvents(ts[..RunLength(ts)], n, ratio) + tail, ts, n, ratio, l)
  {
    hide FloorOf, SetsOf, Queries, Changes, GroupOk, Timestamp, RunLength, OnlySets, CountTicks, CountQueries;
    var g := ts[..RunLength(ts)];
    GroupClocked(g, n, clock);
    var timestamp := Timestamp(n, g[0].timeDenominator);
    RunningIsClosed(n, ratio);
    var sets, tick := SetsOf(g, timestamp), [TickEvent(timestamp)];
    var queries := Queries(timestamp, FloorOf(n + 1, ratio) - FloorOf(n, ratio));
    var events := sets + tick + queries + tail;
    assert events == GroupEvents(g, n, ratio) + tail;
    OneMoreGroup(ts);
    FirstCut(ts);
    if l <= |sets| {
      assert events[..l] == sets[..l];
      SetsHoldNoTick(g, n, l);
      assert l == |sets| ==> events[..l] == sets;
      assert l < |sets| ==> events[l] == sets[l];
    } else {
      var q := l - |sets| - 1;
      assert events[..l] == sets + tick + queries[..q];
      assert events[l] == queries[q];
      SetsHoldNoTick(g, n, |sets|);
      assert sets[..|sets|] == sets;
      OneTick(timestamp);
      QueriesHoldNoTick(timestamp, |queries|, q);
      Concatenation(sets, tick);
      Concatenation(sets + tick, queries[..q]);
    }
  }

  lemma {:induction false} GroupClocked(g: seq<Transition>, n: nat, clock: Option<int>)
    requires GroupOk(g, n, clock)
    ensures g != [] && g[0].timeDenominator > 0
    ensures forall t | t in g :: t.ordinal == n && t.timeDenominator == g[0].timeDenominator
  {
  }

  lemma {:induction false} FirstCut(ts: seq<Transition>)
    ensures CutAt(ts, 1) == RunLength(ts)
  {
    assert CutAt(ts[RunLength(ts)..], 0) == 0;
  }

  lemma {:induction false} OneTick(timestamp: real)
    ensures CountTicks([TickEvent(timestamp)]) == 1 && CountQueries([TickEvent(timestamp)]) == 0
    ensures OnlySets([TickEvent(timestamp)]) == []
  {
    assert [TickEvent(timestamp)][1..] == [];
  }

  lemma {:induction false} NoTicksAmong(events: seq<Event>)
    requires forall e | e in events :: !e.TickEvent?
    ensures CountTicks(events) == 0
    decreases |events|
  {
    if events != [] {
      assert events[0] in events && forall e | e in events[1..] :: e in events;
      NoTicksAmong(events[1..]);
    }
  }

  lemma {:induction false} NoQueriesAmong(events: seq<Event>)
    requires NoQueries(events)
    ensures CountQueries(events) == 0
    decreases |events|
  {
    if events != [] {
      assert events[0] in events && forall e | e in events[1..] :: e in events;
      NoQueriesAmong(events[1..]);
    }
  }

  lemma {:induction false} SetsAreSets(g: seq<Transition>, timestamp: real)
    ensures forall e | e in SetsOf(g, timestamp) :: e.SetEvent?
    decreases |g|
  {
    if g != [] {
      SetsAreSets(g[1..], timestamp);
    }
  }

  lemma {:induction false} SetsHoldNoTick(g: seq<Transition>, n: nat, l: nat)
    requires g != [] && g[0].timeDenominator > 0 && l <= |SetsOf(g, Timestamp(n, g[0].timeDenominator))|
    requires forall t | t in g :: t.ordinal == n && t.timeDenominator == g[0].timeDenominator
    ensures var sets := SetsOf(g, Timestamp(n, g[0].timeDenominator));
      && CountTicks(sets[..l]) == 0 == CountQueries(sets[..l])
      && (forall i | 0 <= i < |sets| :: sets[i].SetEvent?)
      && OnlySets(sets) == Changes(g)
  {
    var sets := SetsOf(g, Timestamp(n, g[0].timeDenominator));
    SetsAreSets(g, Timestamp(n, g[0].timeDenominator));
    SetsOfGroup(g, n, g[0].timeDenominator);
    assert forall e | e in sets[..l] :: e in sets;
    NoTicksAmong(sets[..l]);
    NoQueriesAmong(sets[..l]);
  }

  lemma {:induction false} QueriesHoldNoTick(timestamp: real, count: nat, q: nat)
    requires q < count
    ensures CountTicks(Queries(timestamp, count)[..q]) == 0 && Queries(timestamp, count)[q].QueryEvent?
  {
    var queries := Queries(timestamp, count);
    assert forall e | e in queries[..q] :: e in queries;
    NoTicksAmong(queries[..q]);
  }

  // At every position of every accepted publication schedule.
  lemma {:induction false} PublicationOrder(
    ts: seq<Transition>, n: nat, clock: Option<int>, ratio: Ratio, l: nat)
    requires 0 <= ratio.numerator && Publication(ts, n, clock, ratio).Some?
    requires l <= |Publication(ts, n, clock, ratio).value|
    ensures forall t | t in ts :: t.timeDenominator > 0 && t.ordinal >= 0
    ensures ExactAt(Publication(ts, n, clock, ratio).value, ts, n, ratio, l)
    decreases |ts|
  {
    hide GroupOk, GroupEvents, Publication, ExactAt, RunLength, FloorOf;
    AllTimed(ts, n, clock, ratio);
    if ts == [] {
      EmptyOrder(n, clock, ratio, l);
    } else {
      PublicationUnfolds(ts, n, clock, ratio);
      var g, rest := ts[..RunLength(ts)], ts[RunLength(ts)..];
      var first := GroupEvents(g, n, ratio);
      var tail := Publication(rest, n + 1, Some(ts[0].timeDenominator), ratio).value;
      assert forall t | t in rest :: t in ts;
      if l < |first| {
        InsideGroup(ts, n, clock, ratio, tail, l);
      } else {
        PublicationOrder(rest, n + 1, Some(ts[0].timeDenominator), ratio, l - |first|);
        BeyondGroup(ts, n, clock, ratio, tail, l - |first|);
      }
    }
  }

  lemma {:induction false} EmptyOrder(n: nat, clock: Option<int>, ratio: Ratio, l: nat)
    requires 0 <= ratio.numerator && l <= |Publication([], n, clock, ratio).value|
    ensures ExactAt(Publication([], n, clock, ratio).value, [], n, ratio, l)
  {
  }

  lemma {:induction false} BeyondGroup(
    ts: seq<Transition>, n: nat, clock: Option<int>, ratio: Ratio, tail: seq<Event>, l: nat)
    requires 0 <= ratio.numerator && ts != [] && GroupOk(ts[..RunLength(ts)], n, clock) && l <= |tail|
    requires forall t | t in ts :: t.timeDenominator > 0 && t.ordinal >= 0
    requires forall t | t in ts[RunLength(ts)..] :: t.timeDenominator > 0 && t.ordinal >= 0
    requires ExactAt(tail, ts[RunLength(ts)..], n + 1, ratio, l)
    ensures var first := GroupEvents(ts[..RunLength(ts)], n, ratio);
      ExactAt(first + tail, ts, n, ratio, |first| + l)
  {
    hide FloorOf, GroupOk, GroupEvents, RunLength, OnlySets, CountTicks, CountQueries, Changes, GroupCount, CutAt;
    var g, rest := ts[..RunLength(ts)], ts[RunLength(ts)..];
    var first := GroupEvents(g, n, ratio);
    GroupEffect(g, n, clock, ratio);
    assert (first + tail)[..|first| + l] == first + tail[..l];
    Concatenation(first, tail[..l]);
    SetsAppend(first, tail[..l]);
    OneMoreGroup(ts);
    var ticks := CountTicks(tail[..l]);
    CutSplits(ts, ticks + 2);
    assert forall t | t in rest[..CutAt(rest, ticks + 1)] :: t in rest;
    ChangesAppend(g, rest[..CutAt(rest, ticks + 1)]);
  }

  // Both forms have emitted the same queries after the same number of accepted
  // events, wherever the two streams are cut.
  lemma {:induction false} FormsAgree(events: seq<Event>, ts: seq<Transition>, ratio: Ratio, c: nat, k: nat)
    requires 0 <= ratio.numerator && NoQueries(events) && c <= |events|
    requires Publication(ts, 0, None, ratio).Some? && k <= GroupCount(ts) && CountSets(events[..c]) == k
    ensures Publication(ts[..CutAt(ts, k)], 0, None, ratio).Some?
    ensures CountQueries(Publication(ts[..CutAt(ts, k)], 0, None, ratio).value)
         == CountQueries(Schedule(events[..c], ratio, 0)) == FloorOf(k, ratio)
  {
    hide Publication, Schedule;
    PublicationIsExact(ts, 0, None, ratio, k);
    ScheduleIsExact(events, ratio, c);
    NothingBefore(ratio);
  }
}
