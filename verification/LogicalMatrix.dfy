// The logical sparse matrix: a coordinate dictionary, its direct product with a
// vector, and the interpreter that builds it from update waves.
module LogicalMatrix {
  import opened Modular
  import opened Outcomes
  import opened Sequences

  type Coordinate = (nat, nat)
  type Matrix = map<Coordinate, int>

  datatype Entry = Entry(row: nat, column: nat, value: int)

  function Get(m: Matrix, at: Coordinate): int {
    if at in m then m[at] else 0
  }

  // ----- the direct product, column by column -----

  // sum over the first n columns of m[row, c] * x[c]
  function PartialRow(m: Matrix, x: seq<int>, row: nat, n: nat): int
    requires n <= |x|
  {
    if n == 0 then 0 else PartialRow(m, x, row, n - 1) + Get(m, (row, n - 1)) * x[n - 1]
  }

  function RowProduct(m: Matrix, x: seq<int>, row: nat): int {
    PartialRow(m, x, row, |x|)
  }

  lemma {:induction false} ChangedEntry(m: Matrix, m2: Matrix, x: seq<int>, row: nat, at: Coordinate, n: nat)
    requires n <= |x|
    requires forall c: Coordinate | c != at :: Get(m2, c) == Get(m, c)
    ensures PartialRow(m2, x, row, n) == PartialRow(m, x, row, n)
      + (if at.0 == row && at.1 < n then (Get(m2, at) - Get(m, at)) * x[at.1] else 0)
  {
    if n > 0 {
      ChangedEntry(m, m2, x, row, at, n - 1);
      if at == (row, n - 1) {
        assert Get(m2, at) * x[n - 1] == Get(m, at) * x[n - 1] + (Get(m2, at) - Get(m, at)) * x[n - 1];
      }
    }
  }

  lemma {:induction false} EmptyRow(x: seq<int>, row: nat, n: nat)
    requires n <= |x|
    ensures PartialRow(map[], x, row, n) == 0
  {
    if n > 0 {
      EmptyRow(x, row, n - 1);
    }
  }

  // The product of a union of coordinate-disjoint matrices is the sum of the products.
  lemma {:induction false} DisjointProductsAdd(base: Matrix, delta: Matrix, x: seq<int>, row: nat, n: nat)
    requires n <= |x| && base.Keys !! delta.Keys
    ensures PartialRow(base + delta, x, row, n) == PartialRow(base, x, row, n) + PartialRow(delta, x, row, n)
  {
    if n > 0 {
      DisjointProductsAdd(base, delta, x, row, n - 1);
      var at := (row, n - 1);
      assert !(at in base && at in delta);
      assert Get(base + delta, at) == Get(base, at) + Get(delta, at);
      assert (Get(base, at) + Get(delta, at)) * x[n - 1] == Get(base, at) * x[n - 1] + Get(delta, at) * x[n - 1];
    }
  }

  // ----- products of entry lists -----

  function EntrySum(entries: seq<Entry>, x: seq<int>, row: nat): int
    requires forall e | e in entries :: e.column < |x|
  {
    if entries == [] then 0
    else
      var e := entries[|entries| - 1];
      EntrySum(entries[..|entries| - 1], x, row) + if e.row == row then e.value * x[e.column] else 0
  }

  // The matrix an entry list denotes: repeated coordinates add.
  function Collect(entries: seq<Entry>): Matrix {
    if entries == [] then map[]
    else
      var e, m := entries[|entries| - 1], Collect(entries[..|entries| - 1]);
      m[(e.row, e.column) := Get(m, (e.row, e.column)) + e.value]
  }

  // Both denote the same coefficients.
  ghost predicate SameMatrix(m: Matrix, m2: Matrix) {
    forall at: Coordinate :: Get(m, at) == Get(m2, at)
  }

  lemma {:induction false} SameRows(m: Matrix, m2: Matrix, x: seq<int>, row: nat, n: nat)
    requires n <= |x| && SameMatrix(m, m2)
    ensures PartialRow(m, x, row, n) == PartialRow(m2, x, row, n)
  {
    if n > 0 {
      SameRows(m, m2, x, row, n - 1);
      assert Get(m, (row, n - 1)) == Get(m2, (row, n - 1));
    }
  }

  lemma {:induction false} CollectedProduct(entries: seq<Entry>, x: seq<int>, row: nat)
    requires forall e | e in entries :: e.column < |x|
    ensures EntrySum(entries, x, row) == RowProduct(Collect(entries), x, row)
  {
    if entries == [] {
      EmptyRow(x, row, |x|);
    } else {
      var e, init := entries[|entries| - 1], entries[..|entries| - 1];
      CollectedProduct(init, x, row);
      ChangedEntry(Collect(init), Collect(entries), x, row, (e.row, e.column), |x|);
    }
  }

  // ----- direct product over dictionary items in iteration order -----

  // The items of the dictionary, each coordinate once, in any order.
  ghost predicate Enumerates(items: seq<Entry>, m: Matrix) {
    && (forall i, j | 0 <= i < j < |items| :: (items[i].row, items[i].column) != (items[j].row, items[j].column))
    && (forall e | e in items :: (e.row, e.column) in m && m[(e.row, e.column)] == e.value)
    && (forall at | at in m :: exists e :: e in items && (e.row, e.column) == at)
  }

  lemma {:induction false} EnumerationCollects(items: seq<Entry>)
    requires forall i, j | 0 <= i < j < |items| :: (items[i].row, items[i].column) != (items[j].row, items[j].column)
    ensures forall e | e in items :: Get(Collect(items), (e.row, e.column)) == e.value
    ensures forall at: Coordinate | (forall e | e in items :: (e.row, e.column) != at) :: at !in Collect(items)
  {
    if items != [] {
      EnumerationCollects(items[..|items| - 1]);
    }
  }

  lemma {:induction false} EnumerationIsMatrix(items: seq<Entry>, m: Matrix)
    requires Enumerates(items, m)
    ensures SameMatrix(Collect(items), m)
  {
    EnumerationCollects(items);
    forall at: Coordinate ensures Get(Collect(items), at) == Get(m, at) {
      if at in m {
        var e :| e in items && (e.row, e.column) == at;
      }
    }
  }

  // The accumulation loop over the items, then one reduction per row. An index
  // outside the output or the vector ends it with None.
  method IndependentSpmv(items: seq<Entry>, vector: seq<int>, rows: nat, modulus: Positive)
    returns (r: Option<seq<int>>)
    ensures r.Some? <==> forall e | e in items :: e.row < rows && e.column < |vector|
    ensures r.Some? ==> |r.value| == rows
    ensures r.Some? ==> forall row | 0 <= row < rows ::
      r.value[row] == RowProduct(Collect(items), vector, row) % modulus
  {
    var output := new int[rows](_ => 0);
    for k := 0 to |items|
      invariant fresh(output) && output.Length == rows
      invariant forall e | e in items[..k] :: e.row < rows && e.column < |vector|
      invariant forall row | 0 <= row < rows :: output[row] == EntrySum(items[..k], vector, row)
    {
      var e := items[k];
      if e.row >= rows || e.column >= |vector| {
        return None;
      }
      assert items[..k + 1][..k] == items[..k];
      output[e.row] := output[e.row] + e.value * vector[e.column];
    }
    assert items[..|items|] == items;
    forall row | 0 <= row < rows
      ensures EntrySum(items, vector, row) == RowProduct(Collect(items), vector, row)
    {
      CollectedProduct(items, vector, row);
    }
    return Some(seq(rows, i requires 0 <= i < rows reads output => output[i] % modulus));
  }

  // The direct product does not depend on the iteration order of the dictionary.
  lemma {:induction false} ProductOfAnyEnumeration(items: seq<Entry>, m: Matrix, x: seq<int>, row: nat)
    requires Enumerates(items, m)
    ensures RowProduct(Collect(items), x, row) == RowProduct(m, x, row)
  {
    EnumerationIsMatrix(items, m);
    SameRows(Collect(items), m, x, row, |x|);
  }

  // ----- the delta interpreter -----

  datatype Update = Update(row: nat, column: nat, before: int, after: int)
  datatype Wave = Wave(updates: seq<Update>, overflow: seq<Entry>)

  function ApplyUpdate(m: Matrix, u: Update): Option<Matrix> {
    var at := (u.row, u.column);
    if Get(m, at) != u.before then None
    else if u.after == 0 then Some(m - {at})
    else Some(m[at := u.after])
  }

  function ApplyOverflow(m: Matrix, e: Entry): Option<Matrix> {
    var at := (e.row, e.column);
    if at in m || e.value == 0 then None else Some(m[at := e.value])
  }

  function ApplyUpdates(m: Matrix, updates: seq<Update>): Option<Matrix>
    decreases |updates|
  {
    if updates == [] then Some(m)
    else
      match ApplyUpdate(m, updates[0])
      case None => None
      case Some(next) => ApplyUpdates(next, updates[1..])
  }

  function ApplyOverflows(m: Matrix, overflow: seq<Entry>): Option<Matrix>
    decreases |overflow|
  {
    if overflow == [] then Some(m)
    else
      match ApplyOverflow(m, overflow[0])
      case None => None
      case Some(next) => ApplyOverflows(next, overflow[1..])
  }

  function Interpret(m: Matrix, waves: seq<Wave>): Option<Matrix>
    decreases |waves|
  {
    if waves == [] then Some(m)
    else
      match ApplyUpdates(m, waves[0].updates)
      case None => None
      case Some(updated) =>
        match ApplyOverflows(updated, waves[0].overflow)
        case None => None
        case Some(next) => Interpret(next, waves[1..])
  }

  method InterpretLogicalDelta(waves: seq<Wave>) returns (r: Option<Matrix>)
    ensures r == Interpret(map[], waves)
    ensures r.Some? <==> HistoryAgrees(Writes(waves))
    ensures r.Some? ==> HoldsHistory(r.value, Writes(waves))
  {
    InterpretIsHistory(waves);
    var logical: Matrix := map[];
    for i := 0 to |waves|
      invariant Interpret(map[], waves) == Interpret(logical, waves[i..])
    {
      assert waves[i..][0] == waves[i] && waves[i..][1..] == waves[i + 1..];
      var updates, overflow := waves[i].updates, waves[i].overflow;
      ghost var start := logical;
      for j := 0 to |updates|
        invariant ApplyUpdates(start, updates) == ApplyUpdates(logical, updates[j..])
      {
        assert updates[j..][0] == updates[j] && updates[j..][1..] == updates[j + 1..];
        var at := (updates[j].row, updates[j].column);
        if (if at in logical then logical[at] else 0) != updates[j].before {
          return None;
        }
        if updates[j].after == 0 {
          logical := logical - {at};
        } else {
          logical := logical[at := updates[j].after];
        }
      }
      ghost var updated := logical;
      for j := 0 to |overflow|
        invariant ApplyOverflows(updated, overflow) == ApplyOverflows(logical, overflow[j..])
      {
        assert overflow[j..][0] == overflow[j] && overflow[j..][1..] == overflow[j + 1..];
        var at := (overflow[j].row, overflow[j].column);
        if at in logical || overflow[j].value == 0 {
          return None;
        }
        logical := logical[at := overflow[j].value];
      }
    }
    return Some(logical);
  }

  // ----- acceptance and contents, from the history of writes -----

  // A write replaces `before` by `after`; an overflow term replaces nothing.
  datatype Write = Write(at: Coordinate, before: int, after: int, overflow: bool)

  function WritesOf(wave: Wave): (s: seq<Write>)
    ensures |s| == |wave.updates| + |wave.overflow|
  {
    seq(|wave.updates|, i requires 0 <= i < |wave.updates| =>
      var u := wave.updates[i]; Write((u.row, u.column), u.before, u.after, false))
    + seq(|wave.overflow|, i requires 0 <= i < |wave.overflow| =>
      var e := wave.overflow[i]; Write((e.row, e.column), 0, e.value, true))
  }

  function Writes(waves: seq<Wave>): seq<Write>
    decreases |waves|
  {
    if waves == [] then [] else WritesOf(waves[0]) + Writes(waves[1..])
  }

  // What the last of the first k writes to the coordinate left there, 0 if none.
  function History(writes: seq<Write>, k: nat, at: Coordinate): int
    requires k <= |writes|
  {
    if k == 0 then 0
    else if writes[k - 1].at == at then writes[k - 1].after
    else History(writes, k - 1, at)
  }

  // Every write finds what it declares, and no overflow term is zero.
  predicate HistoryAgrees(writes: seq<Write>) {
    forall k | 0 <= k < |writes| ::
      && History(writes, k, writes[k].at) == writes[k].before
      && (writes[k].overflow ==> writes[k].after != 0)
  }

  // The dictionary holds the final values, and no coordinate whose value is zero.
  ghost predicate HoldsHistory(m: Matrix, writes: seq<Write>) {
    forall at: Coordinate ::
      && Get(m, at) == History(writes, |writes|, at)
      && (at in m <==> History(writes, |writes|, at) != 0)
  }

  function ApplyWrite(m: Matrix, w: Write): Option<Matrix> {
    if w.overflow then ApplyOverflow(m, Entry(w.at.0, w.at.1, w.after))
    else ApplyUpdate(m, Update(w.at.0, w.at.1, w.before, w.after))
  }

  function ApplyWrites(m: Matrix, writes: seq<Write>): Option<Matrix>
    decreases |writes|
  {
    if writes == [] then Some(m)
    else
      match ApplyWrite(m, writes[0])
      case None => None
      case Some(next) => ApplyWrites(next, writes[1..])
  }

  lemma {:induction false} ApplyWritesAppend(m: Matrix, a: seq<Write>, b: seq<Write>)
    ensures ApplyWrites(m, a + b)
         == match ApplyWrites(m, a) { case None => None case Some(mid) => ApplyWrites(mid, b) }
    decreases |a|
  {
    if a == [] {
      assert a + b == b;
    } else {
      assert (a + b)[1..] == a[1..] + b;
      var next := ApplyWrite(m, a[0]);
      if next.Some? {
        ApplyWritesAppend(next.value, a[1..], b);
      }
    }
  }

  lemma {:induction false} UpdatesAreWrites(m: Matrix, updates: seq<Update>)
    ensures ApplyWrites(m, WritesOf(Wave(updates, []))) == ApplyUpdates(m, updates)
    decreases |updates|
  {
    if updates != [] {
      assert WritesOf(Wave(updates, []))[1..] == WritesOf(Wave(updates[1..], []));
      var next := ApplyUpdate(m, updates[0]);
      if next.Some? {
        UpdatesAreWrites(next.value, updates[1..]);
      }
    }
  }

  lemma {:induction false} OverflowsAreWrites(m: Matrix, overflow: seq<Entry>)
    ensures ApplyWrites(m, WritesOf(Wave([], overflow))) == ApplyOverflows(m, overflow)
    decreases |overflow|
  {
    if overflow != [] {
      assert WritesOf(Wave([], overflow))[1..] == WritesOf(Wave([], overflow[1..]));
      var next := ApplyOverflow(m, overflow[0]);
      if next.Some? {
        OverflowsAreWrites(next.value, overflow[1..]);
      }
    }
  }

  lemma {:induction false} WavesAreWrites(m: Matrix, waves: seq<Wave>)
    ensures Interpret(m, waves) == ApplyWrites(m, Writes(waves))
    decreases |waves|
  {
    if waves != [] {
      hide ApplyWrites, ApplyUpdates, ApplyOverflows, WritesOf;
      var w := waves[0];
      var a, b := WritesOf(Wave(w.updates, [])), WritesOf(Wave([], w.overflow));
      assert WritesOf(w) == a + b by { WaveSplits(w); }
      AppendAssociates(a, b, Writes(waves[1..]));
      ApplyWritesAppend(m, a, b + Writes(waves[1..]));
      UpdatesAreWrites(m, w.updates);
      var updated := ApplyUpdates(m, w.updates);
      if updated.Some? {
        ApplyWritesAppend(updated.value, b, Writes(waves[1..]));
        OverflowsAreWrites(updated.value, w.overflow);
        var next := ApplyOverflows(updated.value, w.overflow);
        if next.Some? {
          WavesAreWrites(next.value, waves[1..]);
        }
      }
    } else {
      assert ApplyWrites(m, []) == Some(m);
    }
  }

  lemma {:induction false} WaveSplits(w: Wave)
    ensures WritesOf(w) == WritesOf(Wave(w.updates, [])) + WritesOf(Wave([], w.overflow))
  {
  }

  // One more write, on a dictionary that holds the history so far.
  lemma {:induction false} WriteExtends(m: Matrix, writes: seq<Write>, w: Write)
    requires HoldsHistory(m, writes) && (w.overflow ==> w.before == 0)
    ensures var next := ApplyWrite(m, w);
      && (next.Some? <==> History(writes, |writes|, w.at) == w.before && (w.overflow ==> w.after != 0))
      && (next.Some? ==> HoldsHistory(next.value, writes + [w]))
  {
    var next, longer := ApplyWrite(m, w), writes + [w];
    assert Get(m, w.at) == History(writes, |writes|, w.at);
    if next.Some? {
      forall at: Coordinate
        ensures Get(next.value, at) == History(longer, |longer|, at)
        ensures at in next.value <==> History(longer, |longer|, at) != 0
      {
        HistoryOfPrefix(writes, w, |writes|, at);
        assert Get(m, at) == History(writes, |writes|, at);
      }
    }
  }

  lemma {:induction false} HistoryOfPrefix(writes: seq<Write>, w: Write, k: nat, at: Coordinate)
    requires k <= |writes|
    ensures History(writes + [w], k, at) == History(writes, k, at)
  {
    if k > 0 {
      HistoryOfPrefix(writes, w, k - 1, at);
    }
  }

  lemma {:induction false} AgreesSnoc(writes: seq<Write>, w: Write)
    ensures HistoryAgrees(writes + [w]) <==>
      && HistoryAgrees(writes)
      && History(writes, |writes|, w.at) == w.before && (w.overflow ==> w.after != 0)
  {
    var longer := writes + [w];
    forall k: nat, at: Coordinate | k <= |writes| ensures History(longer, k, at) == History(writes, k, at) {
      HistoryOfPrefix(writes, w, k, at);
    }
    assert longer[|writes|] == w;
    assert forall k | 0 <= k < |writes| :: longer[k] == writes[k];
  }

  lemma {:induction false} WritesAreHistory(writes: seq<Write>)
    requires forall w | w in writes :: w.overflow ==> w.before == 0
    ensures ApplyWrites(map[], writes).Some? <==> HistoryAgrees(writes)
    ensures ApplyWrites(map[], writes).Some? ==> HoldsHistory(ApplyWrites(map[], writes).value, writes)
    decreases |writes|
  {
    if writes != [] {
      hide ApplyWrite, HistoryAgrees, HoldsHistory;
      var init, w := writes[..|writes| - 1], writes[|writes| - 1];
      assert writes == init + [w] && w in writes;
      WritesAreHistory(init);
      ApplyWritesAppend(map[], init, [w]);
      AgreesSnoc(init, w);
      var mid := ApplyWrites(map[], init);
      if mid.Some? {
        WriteExtends(mid.value, init, w);
        assert [w][1..] == [];
      }
    }
  }

  lemma {:induction false} OverflowsReplaceNothing(waves: seq<Wave>)
    ensures forall w | w in Writes(waves) :: w.overflow ==> w.before == 0
    decreases |waves|
  {
    if waves != [] {
      OverflowsReplaceNothing(waves[1..]);
    }
  }

  // Waves are accepted exactly when every update declares the value the last
  // earlier write left, and every overflow term is nonzero and lands on nothing;
  // the dictionary then holds the last value written to every coordinate.
  lemma {:induction false} InterpretIsHistory(waves: seq<Wave>)
    ensures Interpret(map[], waves).Some? <==> HistoryAgrees(Writes(waves))
    ensures Interpret(map[], waves).Some? ==> HoldsHistory(Interpret(map[], waves).value, Writes(waves))
  {
    hide Interpret, HistoryAgrees, HoldsHistory, ApplyWrites;
    OverflowsReplaceNothing(waves);
    WavesAreWrites(map[], waves);
    WritesAreHistory(Writes(waves));
  }

  // ----- the case -----

  // The dictionary of the case: base entries (the last of a repeated coordinate
  // wins) joined with the delta, which must not share a coordinate with them.
  function Dictionary(entries: seq<Entry>): Matrix {
    if entries == [] then map[]
    else
      var e := entries[|entries| - 1];
      Dictionary(entries[..|entries| - 1])[(e.row, e.column) := e.value]
  }

  function CaseMatrix(base: seq<Entry>, waves: seq<Wave>): Option<Matrix> {
    match Interpret(map[], waves)
    case None => None
    case Some(delta) =>
      if Dictionary(base).Keys !! delta.Keys then Some(Dictionary(base) + delta) else None
  }

  // The value of the last base entry at the coordinate.
  function LastEntry(entries: seq<Entry>, k: nat, at: Coordinate): Option<int>
    requires k <= |entries|
  {
    if k == 0 then None
    else if (entries[k - 1].row, entries[k - 1].column) == at then Some(entries[k - 1].value)
    else LastEntry(entries, k - 1, at)
  }

  lemma {:induction false} LastEntryOfPrefix(entries: seq<Entry>, k: nat, j: nat, at: Coordinate)
    requires j <= k <= |entries|
    ensures LastEntry(entries[..k], j, at) == LastEntry(entries, j, at)
  {
    if j > 0 {
      LastEntryOfPrefix(entries, k, j - 1, at);
    }
  }

  lemma {:induction false} DictionaryHolds(entries: seq<Entry>, at: Coordinate)
    ensures match LastEntry(entries, |entries|, at)
            case None => at !in Dictionary(entries)
            case Some(value) => at in Dictionary(entries) && Dictionary(entries)[at] == value
  {
    if entries != [] {
      var n := |entries| - 1;
      DictionaryHolds(entries[..n], at);
      LastEntryOfPrefix(entries, n, n, at);
    }
  }

  // A case is accepted exactly when its waves are and every base coordinate ends
  // with nothing in them; it then holds the base value, or the waves' last value.
  lemma {:induction false} CaseIsBaseAndHistory(base: seq<Entry>, waves: seq<Wave>)
    ensures CaseMatrix(base, waves).Some? <==>
      && HistoryAgrees(Writes(waves))
      && forall e | e in base :: History(Writes(waves), |Writes(waves)|, (e.row, e.column)) == 0
    ensures CaseMatrix(base, waves).Some? ==> forall at: Coordinate ::
      Get(CaseMatrix(base, waves).value, at)
      == match LastEntry(base, |base|, at)
         case Some(value) => value
         case None => History(Writes(waves), |Writes(waves)|, at)
  {
    hide HistoryAgrees, Interpret, Writes, History;
    InterpretIsHistory(waves);
    BaseCoordinates(base);
    if Interpret(map[], waves).Some? {
      var delta, writes := Interpret(map[], waves).value, Writes(waves);
      assert forall at: Coordinate :: at in delta <==> History(writes, |writes|, at) != 0;
      if CaseMatrix(base, waves).Some? {
        forall e | e in base ensures History(writes, |writes|, (e.row, e.column)) == 0 {
          assert (e.row, e.column) in Dictionary(base);
        }
        forall at: Coordinate
          ensures Get(CaseMatrix(base, waves).value, at)
               == match LastEntry(base, |base|, at)
                  case Some(value) => value
                  case None => History(writes, |writes|, at)
        {
          DictionaryHolds(base, at);
          assert Get(delta, at) == History(writes, |writes|, at);
        }
      }
    }
  }

  lemma {:induction false} BaseCoordinates(base: seq<Entry>)
    ensures forall at: Coordinate :: at in Dictionary(base) <==> exists e :: e in base && (e.row, e.column) == at
  {
    if base != [] {
      BaseCoordinates(base[..|base| - 1]);
      assert base == base[..|base| - 1] + [base[|base| - 1]];
    }
  }

  predicate StoresNoZero(m: Matrix) {
    forall at | at in m :: m[at] != 0
  }

  function UpdateChange(updates: seq<Update>, x: seq<int>, row: nat): int
    requires forall u | u in updates :: u.column < |x|
    decreases |updates|
  {
    if updates == [] then 0
    else
      (if updates[0].row == row then (updates[0].after - updates[0].before) * x[updates[0].column] else 0)
      + UpdateChange(updates[1..], x, row)
  }

  function OverflowChange(overflow: seq<Entry>, x: seq<int>, row: nat): int
    requires forall e | e in overflow :: e.column < |x|
    decreases |overflow|
  {
    if overflow == [] then 0
    else
      (if overflow[0].row == row then overflow[0].value * x[overflow[0].column] else 0)
      + OverflowChange(overflow[1..], x, row)
  }

  predicate WithinVector(waves: seq<Wave>, n: nat) {
    forall w | w in waves ::
      && (forall u | u in w.updates :: u.column < n)
      && (forall e | e in w.overflow :: e.column < n)
  }

  function WaveChange(waves: seq<Wave>, x: seq<int>, row: nat): int
    requires WithinVector(waves, |x|)
    decreases |waves|
  {
    if waves == [] then 0
    else
      UpdateChange(waves[0].updates, x, row) + OverflowChange(waves[0].overflow, x, row)
      + WaveChange(waves[1..], x, row)
  }

  lemma {:induction false} UpdatesEffect(m: Matrix, updates: seq<Update>, x: seq<int>, row: nat)
    requires StoresNoZero(m) && ApplyUpdates(m, updates).Some?
    requires forall u | u in updates :: u.column < |x|
    ensures StoresNoZero(ApplyUpdates(m, updates).value)
    ensures RowProduct(ApplyUpdates(m, updates).value, x, row)
         == RowProduct(m, x, row) + UpdateChange(updates, x, row)
    decreases |updates|
  {
    if updates != [] {
      var u := updates[0];
      var next := ApplyUpdate(m, u).value;
      ChangedEntry(m, next, x, row, (u.row, u.column), |x|);
      UpdatesEffect(next, updates[1..], x, row);
    }
  }

  lemma {:induction false} OverflowsEffect(m: Matrix, overflow: seq<Entry>, x: seq<int>, row: nat)
    requires StoresNoZero(m) && ApplyOverflows(m, overflow).Some?
    requires forall e | e in overflow :: e.column < |x|
    ensures StoresNoZero(ApplyOverflows(m, overflow).value)
    ensures RowProduct(ApplyOverflows(m, overflow).value, x, row)
         == RowProduct(m, x, row) + OverflowChange(overflow, x, row)
    decreases |overflow|
  {
    if overflow != [] {
      var e := overflow[0];
      var next := ApplyOverflow(m, e).value;
      ChangedEntry(m, next, x, row, (e.row, e.column), |x|);
      OverflowsEffect(next, overflow[1..], x, row);
    }
  }

  // Every accepted run of waves keeps the dictionary free of stored zeros and
  // moves each row product by exactly the declared changes.
  lemma {:induction false} WavesEffect(m: Matrix, waves: seq<Wave>, x: seq<int>, row: nat)
    requires StoresNoZero(m) && Interpret(m, waves).Some? && WithinVector(waves, |x|)
    ensures StoresNoZero(Interpret(m, waves).value)
    ensures RowProduct(Interpret(m, waves).value, x, row) == RowProduct(m, x, row) + WaveChange(waves, x, row)
    decreases |waves|
  {
    if waves != [] {
      var updated := ApplyUpdates(m, waves[0].updates).value;
      var next := ApplyOverflows(updated, waves[0].overflow).value;
      UpdatesEffect(m, waves[0].updates, x, row);
      OverflowsEffect(updated, waves[0].overflow, x, row);
      WavesEffect(next, waves[1..], x, row);
    }
  }

  // The product of a case: the base product plus everything the waves declare.
  lemma {:induction false} CaseProduct(base: seq<Entry>, waves: seq<Wave>, x: seq<int>, row: nat)
    requires CaseMatrix(base, waves).Some? && WithinVector(waves, |x|)
    ensures RowProduct(CaseMatrix(base, waves).value, x, row)
         == RowProduct(Dictionary(base), x, row) + WaveChange(waves, x, row)
  {
    var delta := Interpret(map[], waves).value;
    WavesEffect(map[], waves, x, row);
    EmptyRow(x, row, |x|);
    DisjointProductsAdd(Dictionary(base), delta, x, row, |x|);
  }
}
