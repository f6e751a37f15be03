// Cell paths of the experiment grid and the aggregation of shards over it.
module CellPaths {
  import opened Outcomes
  import opened Sequences
  import opened Naming

  // A nonnegative fraction in lowest terms, as the numerator and denominator kept.
  datatype Fraction = Fraction(numerator: nat, denominator: nat)

  function FractionToken(f: Fraction): string {
    "n" + Decimal(f.numerator) + "d" + Decimal(f.denominator)
  }

  function RhoId(f: Fraction): string { "rho-" + FractionToken(f) }

  function FreshnessId(f: Fraction): string { "freshness-" + FractionToken(f) + "s" }

  // The empty name and "." add no path segment.
  predicate AddsNoSegment(name: string) { name == "" || name == "." }

  // The posix text of workload / freshness / rho.
  function CellPath(workload: string, freshness: Fraction, rho: Fraction): string {
    (if AddsNoSegment(workload) then "" else workload + "/") + FreshnessId(freshness) + "/" + RhoId(rho)
  }

  // ----- injectivity -----

  // Splitting at the last occurrence of a character is unique.
  lemma {:induction false} LastSplit(a: string, x: string, b: string, y: string, c: char)
    requires a + [c] + x == b + [c] + y && c !in x && c !in y
    ensures a == b && x == y
  {
    var s := a + [c] + x;
    assert s[|a|] == c && s[|b|] == c;
    assert forall i | |a| < i < |s| :: s[i] == x[i - |a| - 1] && s[i] != c;
    assert forall i | |b| < i < |s| :: s[i] == y[i - |b| - 1] && s[i] != c;
    assert a == s[..|a|] && b == s[..|b|];
    assert x == s[|a| + 1..] && y == s[|b| + 1..];
  }

  lemma {:induction false} DecimalHasNo(n: nat, c: char)
    requires !IsDigit(c)
    ensures c !in Decimal(n)
  {
  }

  lemma {:induction false} TokenInjective(f: Fraction, g: Fraction)
    requires FractionToken(f) == FractionToken(g)
    ensures f == g
  {
    DecimalHasNo(f.denominator, 'd');
    DecimalHasNo(g.denominator, 'd');
    LastSplit("n" + Decimal(f.numerator), Decimal(f.denominator), "n" + Decimal(g.numerator), Decimal(g.denominator), 'd');
    DecimalInjective(f.denominator, g.denominator);
    assert Decimal(f.numerator) == ("n" + Decimal(f.numerator))[1..];
    assert Decimal(g.numerator) == ("n" + Decimal(g.numerator))[1..];
    DecimalInjective(f.numerator, g.numerator);
  }

  // A token reads as a fraction: an 'n', the digits of the numerator, the only
  // 'd', the digits of the denominator.
  predicate ReadsAs(token: string, f: Fraction) {
    exists d | 1 < d < |token| - 1 ::
      && token[0] == 'n' && token[d] == 'd'
      && (forall i | 0 < i < |token| && i != d :: IsDigit(token[i]))
      && TextValue(token[1..d]) == f.numerator && TextValue(token[d + 1..]) == f.denominator
  }

  lemma {:induction false} TokenReads(f: Fraction)
    ensures ReadsAs(FractionToken(f), f)
    ensures forall g | ReadsAs(FractionToken(f), g) :: g == f
  {
    var above, below := Decimal(f.numerator), Decimal(f.denominator);
    var token, d := FractionToken(f), 1 + |above|;
    DecimalValue(f.numerator);
    DecimalValue(f.denominator);
    hide Decimal, TextValue;
    assert token[1..d] == above && token[d + 1..] == below;
    assert token[0] == 'n' && token[d] == 'd';
    forall i | 0 < i < |token| && i != d ensures IsDigit(token[i]) {
      assert token[i] == if i < d then above[i - 1] else below[i - d - 1];
    }
    forall g | ReadsAs(token, g) ensures g == f {
      var e :| 1 < e < |token| - 1 && token[e] == 'd'
        && TextValue(token[1..e]) == g.numerator && TextValue(token[e + 1..]) == g.denominator;
      assert e == d;
    }
  }

  // The path names the workload, then the freshness, then rho, each fraction by a token that reads as it.
  lemma {:induction false} CellPathReads(workload: string, freshness: Fraction, rho: Fraction)
    returns (interval: string, ratio: string)
    ensures ReadsAs(interval, freshness) && ReadsAs(ratio, rho)
    ensures var cell := "freshness-" + interval + "s/rho-" + ratio;
      CellPath(workload, freshness, rho) == if workload == "" || workload == "." then cell else workload + "/" + cell
  {
    TokenReads(freshness);
    TokenReads(rho);
    interval, ratio := FractionToken(freshness), FractionToken(rho);
    hide ReadsAs, FractionToken;
    var cell := "freshness-" + interval + "s/rho-" + ratio;
    assert FreshnessId(freshness) + "/" + RhoId(rho) == cell;
    if !AddsNoSegment(workload) {
      assert workload + "/" + FreshnessId(freshness) + "/" + RhoId(rho) == workload + "/" + cell;
    }
  }

  lemma {:induction false} IdsHaveNoSlash(f: Fraction)
    ensures '/' !in RhoId(f) && '/' !in FreshnessId(f)
  {
    DecimalHasNo(f.numerator, '/');
    DecimalHasNo(f.denominator, '/');
    hide Decimal;
  }

  lemma {:induction false} RhoInjective(f: Fraction, g: Fraction)
    requires RhoId(f) == RhoId(g)
    ensures f == g
  {
    assert FractionToken(f) == RhoId(f)[4..] && FractionToken(g) == RhoId(g)[4..];
    TokenInjective(f, g);
  }

  lemma {:induction false} FreshnessInjective(f: Fraction, g: Fraction)
    requires FreshnessId(f) == FreshnessId(g)
    ensures f == g
  {
    var a, b := FreshnessId(f), FreshnessId(g);
    assert FractionToken(f) == a[10..|a| - 1] && FractionToken(g) == b[10..|b| - 1];
    TokenInjective(f, g);
  }

  // What precedes the rho segment.
  function Prefix(workload: string, freshness: Fraction): string {
    (if AddsNoSegment(workload) then "" else workload + "/") + FreshnessId(freshness)
  }

  lemma {:induction false} PrefixInjective(w: string, f: Fraction, v: string, g: Fraction)
    requires '/' !in w && '/' !in v && Prefix(w, f) == Prefix(v, g)
    ensures f == g && (w == v || (AddsNoSegment(w) && AddsNoSegment(v)))
  {
    hide FreshnessId;
    IdsHaveNoSlash(f);
    IdsHaveNoSlash(g);
    if !AddsNoSegment(w) && !AddsNoSegment(v) {
      LastSplit(w, FreshnessId(f), v, FreshnessId(g), '/');
      FreshnessInjective(f, g);
    } else if AddsNoSegment(w) && AddsNoSegment(v) {
      assert "" + FreshnessId(f) == FreshnessId(f) && "" + FreshnessId(g) == FreshnessId(g);
      FreshnessInjective(f, g);
    } else {
      SlashTells(w, f, v, g);
    }
  }

  // A prefix with a workload segment has a slash, one without has none.
  lemma {:induction false} SlashTells(w: string, f: Fraction, v: string, g: Fraction)
    requires AddsNoSegment(w) != AddsNoSegment(v)
    ensures Prefix(w, f) != Prefix(v, g)
  {
    hide FreshnessId;
    IdsHaveNoSlash(f);
    IdsHaveNoSlash(g);
    if AddsNoSegment(w) {
      assert '/' !in Prefix(w, f) && Prefix(v, g)[|v|] == '/';
    } else {
      assert '/' !in Prefix(v, g) && Prefix(w, f)[|w|] == '/';
    }
  }

  // For slash-free workload names, two cells share a path exactly when they are
  // the same cell, up to the two names that add no path segment.
  lemma {:induction false} CellPathInjective(w: string, f: Fraction, r: Fraction, v: string, g: Fraction, q: Fraction)
    requires '/' !in w && '/' !in v
    ensures CellPath(w, f, r) == CellPath(v, g, q)
      <==> f == g && r == q && (w == v || (AddsNoSegment(w) && AddsNoSegment(v)))
  {
    hide FreshnessId, RhoId;
    IdsHaveNoSlash(r);
    IdsHaveNoSlash(q);
    assert CellPath(w, f, r) == Prefix(w, f) + "/" + RhoId(r);
    assert CellPath(v, g, q) == Prefix(v, g) + "/" + RhoId(q);
    if CellPath(w, f, r) == CellPath(v, g, q) {
      LastSplit(Prefix(w, f), RhoId(r), Prefix(v, g), RhoId(q), '/');
      RhoInjective(r, q);
      PrefixInjective(w, f, v, g);
    }
  }

  // The empty name and "." are both slash-free and do collide.
  lemma {:induction false} UnnamedWorkloadsCollide(f: Fraction, r: Fraction)
    ensures CellPath("", f, r) == CellPath(".", f, r)
  {
    CellPathInjective("", f, r, ".", f, r);
  }

  // ----- aggregation -----

  datatype ExperimentPlan = ExperimentPlan(workloads: seq<string>, freshness: seq<Fraction>, ratios: seq<Fraction>)

  datatype Shard = Shard(workload: string, freshness: Fraction, cells: seq<string>)

  function ExpectedCells(workload: string, freshness: Fraction, ratios: seq<Fraction>): (s: seq<string>)
    ensures |s| == |ratios|
  {
    seq(|ratios|, i requires 0 <= i < |ratios| => CellPath(workload, freshness, ratios[i]))
  }

  // A shard names a planned workload and freshness and holds their cells in grid order.
  ghost predicate ShardOk(s: Shard, plan: ExperimentPlan) {
    && s.workload in plan.workloads && s.freshness in plan.freshness
    && s.cells == ExpectedCells(s.workload, s.freshness, plan.ratios)
    && NoRepeat(s.cells)
  }

  function Keys(shards: seq<Shard>): (s: seq<(string, Fraction)>)
    ensures |s| == |shards|
  {
    seq(|shards|, i requires 0 <= i < |shards| => (shards[i].workload, shards[i].freshness))
  }

  function AllCells(shards: seq<Shard>): seq<string> {
    if shards == [] then [] else AllCells(shards[..|shards| - 1]) + shards[|shards| - 1].cells
  }

  ghost function Product(workloads: set<string>, freshness: set<Fraction>): set<(string, Fraction)> {
    set w, f | w in workloads && f in freshness :: (w, f)
  }

  // Shards tile the plan: all acceptable, keys distinct and exactly the product.
  ghost predicate Tiles(shards: seq<Shard>, plan: ExperimentPlan) {
    && (forall s | s in shards :: ShardOk(s, plan))
    && NoRepeat(Keys(shards))
    && ToSet(Keys(shards)) == Product(ToSet(plan.workloads), ToSet(plan.freshness))
  }

  predicate CellsAre(shards: seq<Shard>, plan: ExperimentPlan, k: nat)
    requires k < |shards|
  {
    var s := shards[k];
    s.workload in plan.workloads && s.freshness in plan.freshness
    && s.cells == ExpectedCells(s.workload, s.freshness, plan.ratios)
  }

  // The cell count of the whole grid, and no cell twice.
  ghost predicate FinalCheck(cells: seq<string>, plan: ExperimentPlan) {
    |cells| == |plan.workloads| * |plan.freshness| * |plan.ratios| && NoRepeat(cells)
  }

  method NoDuplicates(cells: seq<string>) returns (b: bool)
    ensures b <==> NoRepeat(cells)
  {
    var seen: set<string> := {};
    for k := 0 to |cells|
      invariant seen == ToSet(cells[..k]) && NoRepeat(cells[..k])
    {
      assert cells[..k + 1] == cells[..k] + [cells[k]];
      if cells[k] in seen {
        return false;
      }
      seen := seen + {cells[k]};
    }
    assert cells[..|cells|] == cells;
    return true;
  }

  // Validates every shard, its key, the product and, last, the cells of the suite.
  method AggregateShards(shards: seq<Shard>, plan: ExperimentPlan) returns (r: Option<seq<string>>)
    ensures r.Some? <==> Tiles(shards, plan) && FinalCheck(AllCells(shards), plan)
    ensures r.Some? ==> r.value == AllCells(shards)
  {
    hide ExpectedCells;
    var shardKeys: set<(string, Fraction)> := {};
    var cells: seq<string> := [];
    for k := 0 to |shards|
      invariant forall i | 0 <= i < k :: ShardOk(shards[i], plan)
      invariant shardKeys == ToSet(Keys(shards)[..k]) && NoRepeat(Keys(shards)[..k])
      invariant cells == AllCells(shards[..k])
    {
      var shard := shards[k];
      assert shard in shards;
      if !CellsAre(shards, plan, k) {
        return None;
      }
      var unique := NoDuplicates(shard.cells);
      if !unique {
        return None;
      }
      var key := (shard.workload, shard.freshness);
      assert Keys(shards)[..k + 1] == Keys(shards)[..k] + [key];
      if key in shardKeys {
        ghost var i :| 0 <= i < k && Keys(shards)[..k][i] == key;
        assert Keys(shards)[i] == Keys(shards)[k];
        return None;
      }
      shardKeys := shardKeys + {key};
      assert shards[..k + 1][..k] == shards[..k];
      cells := cells + shard.cells;
    }
    assert shards[..|shards|] == shards && Keys(shards)[..|shards|] == Keys(shards);
    var expected := set w, f | w in plan.workloads && f in plan.freshness :: (w, f);
    assert expected == Product(ToSet(plan.workloads), ToSet(plan.freshness));
    if shardKeys != expected {
      return None;
    }
    var uniqueCells := NoDuplicates(cells);
    if |cells| != |plan.workloads| * |plan.freshness| * |plan.ratios| || !uniqueCells {
      return None;
    }
    return Some(cells);
  }

  // ----- the final check cannot fail -----

  predicate PlainNames(plan: ExperimentPlan) {
    forall w | w in plan.workloads :: '/' !in w && !AddsNoSegment(w)
  }

  ghost function Column(w: string, freshness: set<Fraction>): set<(string, Fraction)> {
    set f | f in freshness :: (w, f)
  }

  lemma {:induction false} ProductGrows(workloads: set<string>, w: string, freshness: set<Fraction>)
    requires w !in workloads
    ensures Product(workloads + {w}, freshness) == Product(workloads, freshness) + Column(w, freshness)
    ensures Product(workloads, freshness) !! Column(w, freshness)
  {
  }

  lemma {:induction false} LastIsNew(workloads: seq<string>)
    requires NoRepeat(workloads) && workloads != []
    ensures var init, last := workloads[..|workloads| - 1], workloads[|workloads| - 1];
      NoRepeat(init) && last !in ToSet(init) && ToSet(workloads) == ToSet(init) + {last}
  {
    assert workloads == workloads[..|workloads| - 1] + [workloads[|workloads| - 1]];
  }

  lemma {:induction false} ProductOfNothing(freshness: set<Fraction>)
    ensures Product(ToSet([]), freshness) == {}
  {
  }

  lemma {:induction false} SizeOfProduct(workloads: seq<string>, freshness: set<Fraction>)
    requires NoRepeat(workloads)
    ensures |Product(ToSet(workloads), freshness)| == |workloads| * |freshness|
  {
    hide *;
    if workloads == [] {
      ProductOfNothing(freshness);
    } else {
      var n := |workloads| - 1;
      var init, last := workloads[..n], workloads[n];
      LastIsNew(workloads);
      SizeOfProduct(init, freshness);
      ProductGrows(ToSet(init), last, freshness);
      SizeOfColumn(last, freshness);
      OneMoreRow(n, |freshness|);
    }
  }

  lemma {:induction false} OneMoreRow(n: nat, m: nat)
    ensures (n + 1) * m == n * m + m
  {
  }

  lemma {:induction false} SizeOfColumn(w: string, freshness: set<Fraction>)
    ensures |Column(w, freshness)| == |freshness|
  {
    if freshness != {} {
      var g :| g in freshness;
      SizeOfColumn(w, freshness - {g});
      assert Column(w, freshness) == Column(w, freshness - {g}) + {(w, g)};
    }
  }

  lemma {:induction false} CellCount(shards: seq<Shard>, plan: ExperimentPlan)
    requires forall s | s in shards :: ShardOk(s, plan)
    ensures |AllCells(shards)| == |shards| * |plan.ratios|
  {
    if shards != [] {
      var n := |shards| - 1;
      assert shards[n] in shards;
      CellCount(shards[..n], plan);
      assert |shards| * |plan.ratios| == n * |plan.ratios| + |plan.ratios|;
    }
  }

  // Cell j of shard i is the cell of its workload, freshness and the j-th ratio.
  lemma {:induction false} CellPlace(shards: seq<Shard>, plan: ExperimentPlan, i: nat, j: nat)
    requires (forall s | s in shards :: ShardOk(s, plan)) && i < |shards| && j < |plan.ratios|
    ensures var at := i * |plan.ratios| + j;
      && at < |AllCells(shards)| == |shards| * |plan.ratios|
      && AllCells(shards)[at] == CellPath(shards[i].workload, shards[i].freshness, plan.ratios[j])
  {
    hide CellPath;
    var n := |shards| - 1;
    assert shards[n] in shards;
    CellCount(shards, plan);
    CellCount(shards[..n], plan);
    if i < n {
      CellPlace(shards[..n], plan, i, j);
    }
  }

  lemma {:induction false} CellOwner(shards: seq<Shard>, cell: string)
    requires cell in AllCells(shards)
    ensures exists s :: s in shards && cell in s.cells
  {
    var n := |shards| - 1;
    if cell in shards[n].cells {
      assert shards[n] in shards;
    } else {
      CellOwner(shards[..n], cell);
      var s :| s in shards[..n] && cell in s.cells;
      assert s in shards;
    }
  }

  // Cells of shards with different keys are different.
  lemma {:induction false} ShardsShareNoCell(s: Shard, t: Shard, plan: ExperimentPlan, cell: string)
    requires ShardOk(s, plan) && ShardOk(t, plan) && PlainNames(plan)
    requires (s.workload, s.freshness) != (t.workload, t.freshness)
    ensures !(cell in s.cells && cell in t.cells)
  {
    if cell in s.cells && cell in t.cells {
      var i :| 0 <= i < |s.cells| && s.cells[i] == cell;
      var j :| 0 <= j < |t.cells| && t.cells[j] == cell;
      CellPathInjective(s.workload, s.freshness, plan.ratios[i], t.workload, t.freshness, plan.ratios[j]);
    }
  }

  lemma {:induction false} CellsDistinct(shards: seq<Shard>, plan: ExperimentPlan)
    requires PlainNames(plan) && NoRepeat(Keys(shards))
    requires forall s | s in shards :: ShardOk(s, plan)
    ensures NoRepeat(AllCells(shards))
  {
    if shards != [] {
      var n := |shards| - 1;
      var init, last := shards[..n], shards[n];
      assert last in shards;
      assert Keys(init) == Keys(shards)[..n];
      CellsDistinct(init, plan);
      forall cell | cell in AllCells(init) ensures cell !in last.cells {
        CellOwner(init, cell);
        var s :| s in init && cell in s.cells;
        var k :| 0 <= k < n && init[k] == s;
        assert Keys(shards)[k] != Keys(shards)[n];
        ShardsShareNoCell(s, last, plan, cell);
      }
      NoRepeatAppend(AllCells(init), last.cells);
    }
  }

  // For any plan without duplicates and with plain workload names, shards that
  // tile the plan always pass the final count and uniqueness check.
  lemma {:induction false} FinalCheckCannotFail(shards: seq<Shard>, plan: ExperimentPlan)
    requires NoRepeat(plan.workloads) && NoRepeat(plan.freshness) && PlainNames(plan)
    requires Tiles(shards, plan)
    ensures |shards| == |plan.workloads| * |plan.freshness|
    ensures FinalCheck(AllCells(shards), plan)
  {
    hide ShardOk;
    SizeOfSet(Keys(shards));
    SizeOfSet(plan.freshness);
    SizeOfProduct(plan.workloads, ToSet(plan.freshness));
    CellCount(shards, plan);
    CellsDistinct(shards, plan);
  }
}
