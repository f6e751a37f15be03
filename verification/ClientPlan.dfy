// The client's key-generation plans: what it derives from a catalog, what it
// refuses to construct, and why the runner takes every plan it does construct.
module ClientPlan {
  import opened Outcomes
  import opened Sequences
  import opened RotationKeys

  // ----- exact indices, as the client checks them -----

  // Nonempty, sorted without repetition, nonzero, inside the row, and with as many
  // residues as members.
  predicate StrictExactIndices(indices: seq<int>, n: nat)
    requires 0 < n
  {
    && indices != [] && indices == SortedUnique(indices)
    && (forall i | 0 <= i < |indices| :: indices[i] != 0 && -(n as int) < indices[i] < n)
    && |ResiduesOf(indices, n)| == |indices|
  }

  function ResiduesOf(indices: seq<int>, n: nat): set<int>
    requires 0 < n
  {
    set x | x in indices :: x % n
  }

  function ResidueList(indices: seq<int>, n: nat): (s: seq<int>)
    requires 0 < n
    ensures |s| == |indices|
  {
    seq(|indices|, i requires 0 <= i < |indices| => indices[i] % n)
  }

  lemma {:induction false} ResidueCount(indices: seq<int>, n: nat)
    requires 0 < n
    ensures |ResiduesOf(indices, n)| == |indices| <==> NoRepeat(ResidueList(indices, n))
  {
    var residues := ResidueList(indices, n);
    forall x ensures x in ResiduesOf(indices, n) <==> x in ToSet(residues) {
      if i :| 0 <= i < |residues| && residues[i] == x {
        assert indices[i] in indices;
      }
      if y :| y in indices && y % n == x {
        var i :| 0 <= i < |indices| && indices[i] == y;
        assert residues[i] == x;
      }
    }
    assert ResiduesOf(indices, n) == ToSet(residues);
    SizeOfSet(residues);
  }

  // The client and the runner accept the same index lists.
  lemma {:induction false} StrictIndicesAgree(indices: seq<int>, n: nat)
    requires 0 < n
    ensures StrictExactIndices(indices, n) <==> IndicesOk(indices, n)
  {
    hide SortedUnique, ResiduesOf;
    var residues := ResidueList(indices, n);
    ResidueCount(indices, n);
    if IndicesOk(indices, n) {
      IncreasingUnique(indices, SortedUnique(indices));
      forall i, j | 0 <= i < j < |indices| ensures residues[i] != residues[j] {
        assert indices[i] % n != indices[j] % n;
      }
    }
    if StrictExactIndices(indices, n) {
      assert Increasing(indices);
      forall i, j | 0 <= i < j < |indices| ensures indices[i] % n != indices[j] % n {
        assert residues[i] != residues[j];
      }
    }
  }

  // ----- plans -----

  function CaseIds(required: seq<int>): (s: seq<string>)
    ensures |s| == |required|
  {
    seq(|required|, i requires 0 <= i < |required| => CaseId(required[i]))
  }

  // What the constructor of a plan object checks; no other plan exists on the client.
  predicate PlanConstructs(plan: KeyGenerationPlan, n: nat)
    requires 0 < n
  {
    match plan
    case QueryDerived(coverage, required, _) =>
      (coverage == EXACT_CATALOG || coverage == MINIMUM_COVER) && StrictExactIndices(required, n)
    case Day2(required, planned, caseIds, effectiveSlots, direct, decompositions, sourcesBound) =>
      && sourcesBound && effectiveSlots == n && direct && decompositions == 0
      && StrictExactIndices(required, n) && planned == required && caseIds == CaseIds(required)
  }

  // The distinct catalog indices, or index one when there is none.
  function DerivedPlan(catalog: seq<CatalogEntry>): KeyGenerationPlan {
    var required := SortedUnique(Indices(catalog));
    if required == [] then QueryDerived(MINIMUM_COVER, [1], true) else QueryDerived(EXACT_CATALOG, required, true)
  }

  function ChosenPlan(catalog: seq<CatalogEntry>, supplied: Option<KeyGenerationPlan>): KeyGenerationPlan {
    if supplied.None? then DerivedPlan(catalog) else supplied.value
  }

  // The derived plan is always constructed. A supplied one has to cover the
  // catalog, and one of the derived schema to be the derived one.
  predicate PlanTaken(catalog: seq<CatalogEntry>, supplied: Option<KeyGenerationPlan>, n: nat)
    requires 0 < n
  {
    && PlanConstructs(DerivedPlan(catalog), n)
    && (supplied.Some? ==>
         && PlanConstructs(supplied.value, n)
         && (forall e | e in catalog :: e.openfheIndex in supplied.value.required)
         && (supplied.value.QueryDerived? ==> supplied.value == DerivedPlan(catalog)))
  }

  // ----- the derived indices are the catalog's -----

  predicate HasIndex(catalog: seq<CatalogEntry>, x: int) {
    exists e | e in catalog :: e.openfheIndex == x
  }

  lemma {:induction false} IndexMembers(catalog: seq<CatalogEntry>, x: int)
    ensures x in SortedUnique(Indices(catalog)) <==> HasIndex(catalog, x)
    ensures (exists i :: 0 <= i < |catalog| && catalog[i].openfheIndex == x) <==> HasIndex(catalog, x)
  {
    hide SortedUnique;
    if i :| 0 <= i < |catalog| && catalog[i].openfheIndex == x {
      assert catalog[i] in catalog;
    }
    if e :| e in catalog && e.openfheIndex == x {
      var i :| 0 <= i < |catalog| && catalog[i] == e;
      assert catalog[i].openfheIndex == x;
    }
  }

  ghost predicate ApartModulo(catalog: seq<CatalogEntry>, n: nat)
    requires 0 < n
  {
    forall e, f | e in catalog && f in catalog && e.openfheIndex != f.openfheIndex ::
      e.openfheIndex % n != f.openfheIndex % n
  }

  lemma {:induction false} DerivedIndicesOk(catalog: seq<CatalogEntry>, required: seq<int>, n: nat)
    requires 0 < n && required != [] && Increasing(required)
    requires forall x :: x in required <==> HasIndex(catalog, x)
    ensures IndicesOk(required, n) <==>
      && (forall e | e in catalog :: IndexOk(e.openfheIndex, n))
      && ApartModulo(catalog, n)
  {
    if IndicesOk(required, n) {
      forall e | e in catalog ensures IndexOk(e.openfheIndex, n) {
        assert HasIndex(catalog, e.openfheIndex);
      }
      forall e, f | e in catalog && f in catalog && e.openfheIndex != f.openfheIndex
        ensures e.openfheIndex % n != f.openfheIndex % n
      {
        ResiduesApart(required, catalog, e, f, n);
      }
    }
    if ApartModulo(catalog, n) && forall e | e in catalog :: IndexOk(e.openfheIndex, n) {
      forall i | 0 <= i < |required| ensures IndexOk(required[i], n) {
        assert HasIndex(catalog, required[i]);
      }
      forall i, j | 0 <= i < j < |required| ensures required[i] % n != required[j] % n {
        assert HasIndex(catalog, required[i]) && HasIndex(catalog, required[j]);
      }
    }
  }

  lemma {:induction false} ResiduesApart(
    required: seq<int>, catalog: seq<CatalogEntry>, e: CatalogEntry, f: CatalogEntry, n: nat)
    requires 0 < n && IndicesOk(required, n) && (forall x :: x in required <==> HasIndex(catalog, x))
    requires e in catalog && f in catalog && e.openfheIndex != f.openfheIndex
    ensures e.openfheIndex % n != f.openfheIndex % n
  {
    assert HasIndex(catalog, e.openfheIndex) && HasIndex(catalog, f.openfheIndex);
    var i :| 0 <= i < |required| && required[i] == e.openfheIndex;
    var j :| 0 <= j < |required| && required[j] == f.openfheIndex;
    if j < i {
      assert required[j] % n != required[i] % n;
    }
  }

  // The client constructs the derived plan exactly when every rotation is nonzero
  // and inside the row, and different ones differ modulo the row.
  lemma {:induction false} DerivedPlanConstructsIff(catalog: seq<CatalogEntry>, n: nat)
    requires 1 < n
    ensures PlanConstructs(DerivedPlan(catalog), n) <==>
      && (forall e | e in catalog :: IndexOk(e.openfheIndex, n))
      && ApartModulo(catalog, n)
  {
    hide SortedUnique, Indices, StrictExactIndices, IndicesOk, IndexOk, ApartModulo;
    var required := SortedUnique(Indices(catalog));
    assert required == [] || required[0] in required;
    forall x ensures x in required <==> HasIndex(catalog, x) {
      IndexMembers(catalog, x);
    }
    if catalog == [] {
      NoRotations(n);
    } else {
      assert catalog[0] in catalog;
      assert HasIndex(catalog, catalog[0].openfheIndex);
      StrictIndicesAgree(required, n);
      DerivedIndicesOk(catalog, required, n);
    }
  }

  lemma {:induction false} NoRotations(n: nat)
    requires 1 < n
    ensures StrictExactIndices([1], n) && IndicesOk([1], n) && ApartModulo([], n)
  {
    StrictIndicesAgree([1], n);
  }

  // ----- the runner takes the client's plan -----

  lemma {:induction false} SameIndices(a: seq<CatalogEntry>, b: seq<CatalogEntry>, x: int)
    requires forall e :: e in a <==> e in b
    ensures HasIndex(a, x) <==> HasIndex(b, x)
  {
  }

  lemma {:induction false} DerivedPlanPasses(catalog: seq<CatalogEntry>, sorted: seq<CatalogEntry>, n: nat)
    requires 1 < n && PlanConstructs(DerivedPlan(catalog), n)
    requires |sorted| == |catalog| && forall x :: x in sorted <==> x in catalog
    ensures KeyPlanOk(DerivedPlan(catalog), sorted, n)
  {
    hide SortedUnique, Indices, StrictExactIndices, IndicesOk;
    var required := SortedUnique(Indices(catalog));
    StrictIndicesAgree(DerivedPlan(catalog).required, n);
    assert required == [] || required[0] in required;
    forall x ensures x in required <==> HasIndex(catalog, x) {
      IndexMembers(catalog, x);
    }
    if catalog != [] {
      assert catalog[0] in catalog;
      assert HasIndex(catalog, catalog[0].openfheIndex);
      forall x ensures x in required <==> exists i :: 0 <= i < |sorted| && sorted[i].openfheIndex == x {
        IndexMembers(sorted, x);
        SameIndices(sorted, catalog, x);
      }
    }
  }

  // Whatever the catalog, a plan the client takes, derived or supplied, passes the
  // runner's check of key plans.
  lemma {:induction false} ClientPlanPasses(
    catalog: seq<CatalogEntry>, sorted: seq<CatalogEntry>, supplied: Option<KeyGenerationPlan>, n: nat)
    requires 1 < n && PlanTaken(catalog, supplied, n)
    requires |sorted| == |catalog| && forall x :: x in sorted <==> x in catalog
    ensures KeyPlanOk(ChosenPlan(catalog, supplied), sorted, n)
  {
    hide DerivedPlan, StrictExactIndices, IndicesOk;
    if supplied.None? || supplied.value.QueryDerived? {
      DerivedPlanPasses(catalog, sorted, n);
    } else {
      StrictIndicesAgree(supplied.value.required, n);
      forall i | 0 <= i < |sorted| ensures sorted[i].openfheIndex in supplied.value.required {
        assert sorted[i] in catalog;
      }
    }
  }
}
