// The integer-rate fast path: instead of replaying the windows of rate k, the
// result of rate one is scaled in its query-linear fields.
module QueryScaling {
  import opened Outcomes

  // A publication window: its query count and everything else about it.
  datatype Window<W> = Window(queryCount: nat, content: W)

  // Metric fields by name, overflow by row, rotation counts by exact index.
  datatype Simulation = Simulation(metrics: map<string, int>, overflowByRow: map<int, int>, rotations: map<int, int>)

  const QUERY_LINEAR_METRIC_FIELDS: set<string> := {
    "queries", "query_ciphertexts", "result_ciphertexts", "cc_multiplications", "relinearizations",
    "rotations", "additions", "plaintext_masks", "blinding_mask_ciphertexts",
    "blinding_dummy_ciphertexts", "blinding_encryptions", "blinding_additions", "decryptions",
    "client_merges", "mask_random_elements", "mask_mapped_elements", "client_reorder_elements"}

  // ----- the source's checks and scaling -----

  predicate QueryScaled<W(==)>(unit: seq<Window<W>>, scaled: seq<Window<W>>, multiplier: nat) {
    && |unit| == |scaled|
    && forall i | 0 <= i < |unit| :: unit[i].(queryCount := unit[i].queryCount * multiplier) == scaled[i]
  }

  method QueryScaledWindows<W(==)>(unit: seq<Window<W>>, scaled: seq<Window<W>>, multiplier: int)
    returns (r: Option<bool>)
    ensures r.Some? <==> multiplier >= 1
    ensures r.Some? ==> (r.value <==> QueryScaled(unit, scaled, multiplier))
    ensures r.Some? && |unit| == |scaled| ==> (r.value <==> forall i | 0 <= i < |unit| ::
      scaled[i] == Window(unit[i].queryCount * multiplier, unit[i].content))
    ensures r.Some? && r.value ==> |unit| == |scaled|
  {
    if multiplier < 1 {
      return None;
    }
    if |unit| != |scaled| {
      return Some(false);
    }
    for k := 0 to |unit|
      invariant forall i | 0 <= i < k ::
        unit[i].(queryCount := unit[i].queryCount * multiplier) == scaled[i]
    {
      if unit[k].(queryCount := unit[k].queryCount * multiplier) != scaled[k] {
        return Some(false);
      }
    }
    return Some(true);
  }

  function Factor(field: string, multiplier: nat): nat {
    if field in QUERY_LINEAR_METRIC_FIELDS then multiplier else 1
  }

  function ScaleMetrics(m: map<string, int>, multiplier: nat): map<string, int> {
    map field | field in m :: m[field] * Factor(field, multiplier)
  }

  function ScaleRotations(m: map<int, int>, multiplier: nat): map<int, int> {
    map index | index in m :: m[index] * multiplier
  }

  function ScaleSimulation(s: Simulation, multiplier: nat): Simulation {
    Simulation(ScaleMetrics(s.metrics, multiplier), s.overflowByRow, ScaleRotations(s.rotations, multiplier))
  }

  // ----- replaying windows -----

  function ValueAt<K>(m: map<K, int>, k: K): int {
    if k in m then m[k] else 0
  }

  function AddMaps<K>(a: map<K, int>, b: map<K, int>): map<K, int> {
    map k | k in a.Keys + b.Keys :: ValueAt(a, k) + ValueAt(b, k)
  }

  // Window costs add field by field and index by index.
  function Add(a: Simulation, b: Simulation): Simulation {
    Simulation(
      AddMaps(a.metrics, b.metrics), AddMaps(a.overflowByRow, b.overflowByRow), AddMaps(a.rotations, b.rotations))
  }

  const NO_COST := Simulation(map[], map[], map[])

  // The simulator as the script uses it: a state carried from window to window
  // and a cost per window, added up.
  function Replay<S, W>(step: (S, Window<W>) -> (S, Simulation), state: S, windows: seq<Window<W>>): Simulation
    decreases |windows|
  {
    if windows == [] then NO_COST
    else
      var (next, cost) := step(state, windows[0]);
      Add(cost, Replay(step, next, windows[1..]))
  }

  // With q times the queries: the listed fields and the rotation counts are q times
  // the other's, and every other field and the overflow are the same.
  ghost predicate PerQuery(cost: Simulation, one: Simulation, q: nat) {
    && (forall field: string | field in QUERY_LINEAR_METRIC_FIELDS ::
          ValueAt(cost.metrics, field) == q * ValueAt(one.metrics, field))
    && (forall field: string | field !in QUERY_LINEAR_METRIC_FIELDS ::
          ValueAt(cost.metrics, field) == ValueAt(one.metrics, field))
    && (forall index: int :: ValueAt(cost.rotations, index) == q * ValueAt(one.rotations, index))
    && cost.overflowByRow == one.overflowByRow
    && (q > 0 ==> cost.metrics.Keys == one.metrics.Keys && cost.rotations.Keys == one.rotations.Keys)
  }

  // Every value is the factor of its key times the other's.
  ghost predicate MapTimes<K(!new)>(a: map<K, int>, b: map<K, int>, factor: K -> nat) {
    forall key: K :: ValueAt(a, key) == factor(key) * ValueAt(b, key)
  }

  // k for the fields linear in queries, one for the others.
  function FieldFactor(k: nat): string -> nat {
    (field: string) => if field in QUERY_LINEAR_METRIC_FIELDS then k else 1
  }

  function SameFactor(k: nat): int -> nat {
    (index: int) => k
  }

  ghost predicate TimesQueries(scaled: Simulation, unit: Simulation, k: nat) {
    && MapTimes(scaled.metrics, unit.metrics, FieldFactor(k))
    && MapTimes(scaled.rotations, unit.rotations, SameFactor(k))
    && scaled.overflowByRow == unit.overflowByRow
    && (k > 0 ==> scaled.metrics.Keys == unit.metrics.Keys && scaled.rotations.Keys == unit.rotations.Keys)
  }

  // Queries do not steer the state, and each costs the same wherever the state and
  // the content of the window are the same.
  ghost predicate QueryLinear<S(!new), W(!new)>(step: (S, Window<W>) -> (S, Simulation)) {
    forall state: S, content: W, q: nat ::
      && step(state, Window(q, content)).0 == step(state, Window(1, content)).0
      && PerQuery(step(state, Window(q, content)).1, step(state, Window(1, content)).1, q)
  }

  lemma {:induction false} MetricsDistribute(a: map<string, int>, b: map<string, int>, multiplier: nat)
    ensures ScaleMetrics(AddMaps(a, b), multiplier) == AddMaps(ScaleMetrics(a, multiplier), ScaleMetrics(b, multiplier))
  {
    hide Factor;
    forall field | field in a.Keys + b.Keys
      ensures ScaleMetrics(AddMaps(a, b), multiplier)[field]
           == AddMaps(ScaleMetrics(a, multiplier), ScaleMetrics(b, multiplier))[field]
    {
      Distribute(ValueAt(a, field), ValueAt(b, field), Factor(field, multiplier));
    }
  }

  lemma {:induction false} RotationsDistribute(a: map<int, int>, b: map<int, int>, multiplier: nat)
    ensures ScaleRotations(AddMaps(a, b), multiplier)
         == AddMaps(ScaleRotations(a, multiplier), ScaleRotations(b, multiplier))
  {
    forall index | index in a.Keys + b.Keys
      ensures ScaleRotations(AddMaps(a, b), multiplier)[index]
           == AddMaps(ScaleRotations(a, multiplier), ScaleRotations(b, multiplier))[index]
    {
      Distribute(ValueAt(a, index), ValueAt(b, index), multiplier);
    }
  }

  lemma {:induction false} ScaleDistributes(a: Simulation, b: Simulation, multiplier: nat)
    ensures ScaleSimulation(Add(a, b), multiplier) == Add(ScaleSimulation(a, multiplier), ScaleSimulation(b, multiplier))
  {
    MetricsDistribute(a.metrics, b.metrics, multiplier);
    RotationsDistribute(a.rotations, b.rotations, multiplier);
  }

  lemma {:induction false} Distribute(a: int, b: int, k: nat)
    ensures (a + b) * k == a * k + b * k
  {
  }

  lemma {:induction false} PerQueryIsTimes(cost: Simulation, one: Simulation, q: nat)
    requires PerQuery(cost, one, q)
    ensures TimesQueries(cost, one, q)
  {
    hide ValueAt;
    var factor, same := FieldFactor(q), SameFactor(q);
    forall field: string ensures ValueAt(cost.metrics, field) == factor(field) * ValueAt(one.metrics, field) {
      if field in QUERY_LINEAR_METRIC_FIELDS {
        assert factor(field) == q;
      } else {
        assert factor(field) == 1;
      }
    }
    forall index: int ensures ValueAt(cost.rotations, index) == same(index) * ValueAt(one.rotations, index) {
      assert same(index) == q;
    }
  }

  lemma {:induction false} TimesIsPerQuery(cost: Simulation, one: Simulation, q: nat)
    requires TimesQueries(cost, one, q)
    ensures PerQuery(cost, one, q)
  {
    hide ValueAt;
    var factor, same := FieldFactor(q), SameFactor(q);
    forall field: string
      ensures field in QUERY_LINEAR_METRIC_FIELDS ==>
        ValueAt(cost.metrics, field) == q * ValueAt(one.metrics, field)
      ensures field !in QUERY_LINEAR_METRIC_FIELDS ==> ValueAt(cost.metrics, field) == ValueAt(one.metrics, field)
    {
      assert ValueAt(cost.metrics, field) == factor(field) * ValueAt(one.metrics, field);
    }
    forall index: int ensures ValueAt(cost.rotations, index) == q * ValueAt(one.rotations, index) {
      assert ValueAt(cost.rotations, index) == same(index) * ValueAt(one.rotations, index);
    }
  }

  lemma {:induction false} MapTimesTimes<K(!new)>(
    a: map<K, int>, b: map<K, int>, one: map<K, int>, q: K -> nat, k: K -> nat, qk: K -> nat)
    requires MapTimes(a, one, q) && MapTimes(b, one, qk) && forall key: K :: qk(key) == q(key) * k(key)
    ensures MapTimes(b, a, k)
  {
    hide ValueAt;
    forall key: K ensures ValueAt(b, key) == k(key) * ValueAt(a, key) {
      assert ValueAt(a, key) == q(key) * ValueAt(one, key);
      AssociateFactors(q(key), k(key), ValueAt(one, key));
    }
  }

  lemma {:induction false} AssociateFactors(q: nat, k: nat, value: int)
    ensures (q * k) * value == k * (q * value)
  {
  }

  lemma {:induction false} WindowScales<S(!new), W(!new)>(
    step: (S, Window<W>) -> (S, Simulation), state: S, unit: Window<W>, scaled: Window<W>, k: nat)
    requires QueryLinear(step) && 1 <= k && scaled == Window(unit.queryCount * k, unit.content)
    ensures step(state, scaled).0 == step(state, unit).0
    ensures TimesQueries(step(state, scaled).1, step(state, unit).1, k)
  {
    hide MapTimes, PerQuery;
    var q, content := unit.queryCount, unit.content;
    var one, a, b := step(state, Window(1, content)).1, step(state, unit).1, step(state, scaled).1;
    assert unit == Window(q, content) && scaled == Window(q * k, content);
    PerQueryIsTimes(a, one, q);
    PerQueryIsTimes(b, one, q * k);
    MapTimesTimes(a.metrics, b.metrics, one.metrics, FieldFactor(q), FieldFactor(k), FieldFactor(q * k));
    MapTimesTimes(a.rotations, b.rotations, one.rotations, SameFactor(q), SameFactor(k), SameFactor(q * k));
    if q > 0 {
      PositiveProduct(q, k);
    } else {
      assert scaled == unit;
    }
  }

  lemma {:induction false} PositiveProduct(q: nat, k: nat)
    requires 0 < q && 0 < k
    ensures 0 < q * k
  {
  }

  lemma {:induction false} AddedMaps<K(!new)>(
    a: map<K, int>, b: map<K, int>, a1: map<K, int>, b1: map<K, int>, factor: K -> nat)
    requires MapTimes(a, a1, factor) && MapTimes(b, b1, factor)
    ensures MapTimes(AddMaps(a, b), AddMaps(a1, b1), factor)
  {
    hide ValueAt, AddMaps;
    forall key: K ensures ValueAt(AddMaps(a, b), key) == factor(key) * ValueAt(AddMaps(a1, b1), key) {
      AddedValue(a, b, key);
      AddedValue(a1, b1, key);
      Distribute(ValueAt(a1, key), ValueAt(b1, key), factor(key));
    }
  }

  lemma {:induction false} AddedValue<K>(a: map<K, int>, b: map<K, int>, key: K)
    ensures ValueAt(AddMaps(a, b), key) == ValueAt(a, key) + ValueAt(b, key)
    ensures AddMaps(a, b).Keys == a.Keys + b.Keys
  {
  }

  lemma {:induction false} AddTimes(a: Simulation, b: Simulation, a1: Simulation, b1: Simulation, k: nat)
    requires 1 <= k && TimesQueries(a, a1, k) && TimesQueries(b, b1, k)
    ensures TimesQueries(Add(a, b), Add(a1, b1), k)
  {
    hide MapTimes, FieldFactor, SameFactor;
    AddedMaps(a.metrics, b.metrics, a1.metrics, b1.metrics, FieldFactor(k));
    AddedMaps(a.rotations, b.rotations, a1.rotations, b1.rotations, SameFactor(k));
  }

  lemma {:induction false} ScaledMap<K(!new)>(a: map<K, int>, b: map<K, int>, factor: K -> nat)
    requires a.Keys == b.Keys && MapTimes(a, b, factor)
    ensures a == map key | key in b :: b[key] * factor(key)
  {
    forall key | key in b ensures a[key] == b[key] * factor(key) {
      assert ValueAt(a, key) == factor(key) * ValueAt(b, key);
      Commutes(factor(key), b[key]);
    }
  }

  lemma {:induction false} Commutes(a: int, b: int)
    ensures a * b == b * a
  {
  }

  // Value by value it is the scaling the script applies.
  lemma {:induction false} TimesIsScale(scaled: Simulation, unit: Simulation, k: nat)
    requires 1 <= k && TimesQueries(scaled, unit, k)
    ensures scaled == ScaleSimulation(unit, k)
  {
    hide MapTimes;
    ScaledMap(scaled.metrics, unit.metrics, FieldFactor(k));
    ScaledMap(scaled.rotations, unit.rotations, SameFactor(k));
    assert scaled.metrics == ScaleMetrics(unit.metrics, k);
  }

  // The fast path is exact. Replaying the windows with k times the queries, which are
  // those the check accepts as scaled, gives k times the unit result in every listed
  // field and rotation count and the same elsewhere: the unit result as scaled.
  lemma {:induction false} ScalingIsReplay<S(!new), W(!new)>(
    step: (S, Window<W>) -> (S, Simulation), state: S,
    unit: seq<Window<W>>, scaled: seq<Window<W>>, multiplier: nat)
    requires QueryLinear(step) && 1 <= multiplier && |unit| == |scaled|
    requires forall i | 0 <= i < |unit| :: scaled[i] == Window(unit[i].queryCount * multiplier, unit[i].content)
    ensures QueryScaled(unit, scaled, multiplier)
    ensures PerQuery(Replay(step, state, scaled), Replay(step, state, unit), multiplier)
    ensures Replay(step, state, scaled) == ScaleSimulation(Replay(step, state, unit), multiplier)
    decreases |unit|
  {
    ReplayTimes(step, state, unit, scaled, multiplier);
    hide TimesQueries, Replay;
    TimesIsPerQuery(Replay(step, state, scaled), Replay(step, state, unit), multiplier);
    TimesIsScale(Replay(step, state, scaled), Replay(step, state, unit), multiplier);
  }

  lemma {:induction false} ReplayTimes<S(!new), W(!new)>(
    step: (S, Window<W>) -> (S, Simulation), state: S,
    unit: seq<Window<W>>, scaled: seq<Window<W>>, multiplier: nat)
    requires QueryLinear(step) && 1 <= multiplier && |unit| == |scaled|
    requires forall i | 0 <= i < |unit| :: scaled[i] == Window(unit[i].queryCount * multiplier, unit[i].content)
    ensures TimesQueries(Replay(step, state, scaled), Replay(step, state, unit), multiplier)
    decreases |unit|
  {
    hide TimesQueries, QueryLinear, Add;
    if unit == [] {
      NothingTimes(multiplier);
    } else {
      WindowScales(step, state, unit[0], scaled[0], multiplier);
      var next := step(state, unit[0]).0;
      ReplayTimes(step, next, unit[1..], scaled[1..], multiplier);
      AddTimes(
        step(state, scaled[0]).1, Replay(step, next, scaled[1..]), step(state, unit[0]).1, Replay(step, next, unit[1..]),
        multiplier);
    }
  }

  lemma {:induction false} NothingTimes(k: nat)
    ensures TimesQueries(NO_COST, NO_COST, k)
  {
  }
}
