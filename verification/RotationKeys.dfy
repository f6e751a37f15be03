// Rotation catalog and key-generation plan: what the request checks accept, and
// that no accepted program ever asks for a rotation without a generated key.
module RotationKeys {
  import opened Modular
  import opened Lanes
  import opened CloudProgram
  import opened Outcomes
  import opened Sequences
  import opened Request
  import opened Naming

  const MIN_INT64 := -0x8000_0000_0000_0000

  datatype CatalogEntry = CatalogEntry(logicalShift: int, openfheIndex: int)

  // ----- the rotation catalog -----

  predicate CatalogEntryOk(e: CatalogEntry, slotCount: nat) {
    && InInt64(e.logicalShift) && InInt64(e.openfheIndex)
    && e.logicalShift != 0 && e.logicalShift != MIN_INT64
    && e.openfheIndex != 0 && Abs(e.openfheIndex) < slotCount
  }

  ghost predicate CatalogOk(catalog: seq<CatalogEntry>, slotCount: nat) {
    && (forall i | 0 <= i < |catalog| :: CatalogEntryOk(catalog[i], slotCount))
    && (forall i, j | 0 <= i < j < |catalog| :: catalog[i].logicalShift < catalog[j].logicalShift)
  }

  method ParseRotationCatalog(catalog: seq<CatalogEntry>, slotCount: nat) returns (r: Option<map<int, int>>)
    requires slotCount <= 0x7fff_ffff
    ensures r.Some? <==> CatalogOk(catalog, slotCount)
    ensures r.Some? ==> forall l :: l in r.value <==> exists i :: 0 <= i < |catalog| && catalog[i].logicalShift == l
    ensures r.Some? ==> forall i | 0 <= i < |catalog| ::
      catalog[i].logicalShift in r.value && r.value[catalog[i].logicalShift] == catalog[i].openfheIndex
  {
    hide InInt64, CatalogEntryOk;
    var rotations: map<int, int> := map[];
    var previousLogical := MIN_INT64;
    for k := 0 to |catalog|
      invariant forall i | 0 <= i < k :: CatalogEntryOk(catalog[i], slotCount)
      invariant forall i, j | 0 <= i < j < k :: catalog[i].logicalShift < catalog[j].logicalShift
      invariant previousLogical == if k == 0 then MIN_INT64 else catalog[k - 1].logicalShift
      invariant MIN_INT64 <= previousLogical
      invariant forall l :: l in rotations <==> exists i :: 0 <= i < k && catalog[i].logicalShift == l
      invariant forall i | 0 <= i < k :: rotations[catalog[i].logicalShift] == catalog[i].openfheIndex
    {
      var e := catalog[k];
      EntryChecks(e, slotCount);
      if !InInt64(e.logicalShift) || !InInt64(e.openfheIndex) {
        return None;
      }
      if e.logicalShift == 0 || e.openfheIndex == 0 || e.logicalShift <= previousLogical
         || e.openfheIndex == MIN_INT64 {
        return None;
      }
      var magnitude := if e.openfheIndex < 0 then -e.openfheIndex else e.openfheIndex;
      if magnitude >= slotCount {
        return None;
      }
      previousLogical := e.logicalShift;
      rotations := rotations[e.logicalShift := e.openfheIndex];
    }
    return Some(rotations);
  }

  lemma {:induction false} EntryChecks(e: CatalogEntry, slotCount: nat)
    ensures CatalogEntryOk(e, slotCount) <==>
      && InInt64(e.logicalShift) && InInt64(e.openfheIndex) && e.logicalShift != 0 && e.openfheIndex != 0
      && MIN_INT64 < e.logicalShift && Abs(e.openfheIndex) < slotCount
    ensures InInt64(e.openfheIndex) && Abs(e.openfheIndex) < slotCount <= 0x7fff_ffff ==> e.openfheIndex != MIN_INT64
  {
  }

  // ----- exact rotation indices -----

  predicate IndexOk(index: int, rowSize: nat) {
    index != 0 && Abs(index) < rowSize
  }

  // Strictly increasing, nonzero, inside the row, pairwise distinct modulo the row.
  ghost predicate IndicesOk(indices: seq<int>, rowSize: nat)
    requires 0 < rowSize
  {
    && indices != []
    && (forall i | 0 <= i < |indices| :: IndexOk(indices[i], rowSize))
    && (forall i, j | 0 <= i < j < |indices| :: indices[i] < indices[j])
    && (forall i, j | 0 <= i < j < |indices| :: indices[i] % rowSize != indices[j] % rowSize)
  }

  // ((index % rowSize) + rowSize) % rowSize with the truncating remainder.
  lemma {:induction false} ResidueIsEuclidean(index: int, rowSize: nat)
    requires 0 < rowSize
    ensures (TruncatedRemainder(TruncatedRemainder(index, rowSize) + rowSize, rowSize)) == index % rowSize
  {
    var t := TruncatedRemainder(index, rowSize);
    NormalizeModIsResidue(index, rowSize);
    if t < 0 {
      ModSmall(t + rowSize, rowSize);
    } else {
      ModUnique(t + rowSize, 1, t, rowSize);
    }
  }

  method ParseExactRotationIndices(values: seq<int>, rowSize: nat) returns (r: Option<seq<int>>)
    requires 0 < rowSize <= 0x7fff_ffff
    ensures r.Some? <==> IndicesOk(values, rowSize)
    ensures r.Some? ==> r.value == values
  {
    if values == [] {
      return None;
    }
    var result: seq<int> := [];
    var residues: set<int> := {};
    var previous := MIN_INT64;
    for k := 0 to |values|
      invariant result == values[..k]
      invariant forall i | 0 <= i < k :: IndexOk(values[i], rowSize)
      invariant forall i, j | 0 <= i < j < k :: values[i] < values[j]
      invariant forall i, j | 0 <= i < j < k :: values[i] % rowSize != values[j] % rowSize
      invariant previous == if k == 0 then MIN_INT64 else values[k - 1]
      invariant forall x :: x in residues <==> exists i :: 0 <= i < k && values[i] % rowSize == x
    {
      var index := values[k];
      if !InInt64(index) {
        return None;
      }
      var residue := TruncatedRemainder(TruncatedRemainder(index, rowSize) + rowSize, rowSize);
      ResidueIsEuclidean(index, rowSize);
      if index == 0 || Abs(index) >= rowSize || index <= previous {
        return None;
      }
      if residue in residues {
        return None;
      }
      residues := residues + {residue};
      previous := index;
      result := result + [index];
    }
    return Some(result);
  }

  // ----- the key-generation plan -----

  // Sorted and without repetition, as the library sort and unique leave it.
  function SortedUnique(values: seq<int>): (s: seq<int>)
    ensures Increasing(s)
    ensures forall x :: x in s <==> x in values
  {
    if values == [] then [] else InsertIndex(SortedUnique(values[1..]), values[0])
  }

  function InsertIndex(s: seq<int>, x: int): (r: seq<int>)
    requires Increasing(s)
    ensures Increasing(r)
    ensures forall y :: y in r <==> y == x || y in s
  {
    if s == [] || x < s[0] then [x] + s
    else if x == s[0] then s
    else
      var rest := InsertIndex(s[1..], x);
      assert forall j | 0 <= j < |rest| :: rest[j] in rest && s[0] < rest[j];
      [s[0]] + rest
  }

  datatype KeyGenerationPlan =
    | QueryDerived(coverage: string, required: seq<int>, sourceMatches: bool)
    | Day2(required: seq<int>, planned: seq<int>, caseIds: seq<string>, effectiveSlots: nat,
           direct: bool, decompositions: nat, sourcesBound: bool)

  const MINIMUM_COVER := "minimum-nonempty-program-cover"
  const EXACT_CATALOG := "exact-program-rotation-catalog"

  // "index=" followed by the signed decimal.
  function CaseId(index: int): string {
    "index=" + if index < 0 then "-" + Decimal(-index) else Decimal(index)
  }

  // The text after "index=" reads as the index, with a minus sign only below zero.
  lemma {:induction false} CaseIdReads(index: int)
    ensures var text := CaseId(index);
      && |text| > 6 && text[..6] == "index="
      && var digits := if index < 0 then text[7..] else text[6..];
         && (index < 0 ==> text[6] == '-') && digits != ""
         && (forall c | c in digits :: IsDigit(c)) && TextValue(digits) == Abs(index)
  {
    var digits := Decimal(Abs(index));
    DecimalValue(Abs(index));
    if index < 0 {
      assert CaseId(index)[7..] == digits;
    } else {
      assert CaseId(index)[6..] == digits;
    }
  }

  // The required indices are the catalog's, each once.
  ghost predicate ExactlyTheCatalog(required: seq<int>, catalog: seq<CatalogEntry>) {
    forall x :: x in required <==> exists i :: 0 <= i < |catalog| && catalog[i].openfheIndex == x
  }

  function Indices(catalog: seq<CatalogEntry>): (s: seq<int>)
    ensures |s| == |catalog| && ExactlyTheCatalog(s, catalog)
  {
    var s := seq(|catalog|, i requires 0 <= i < |catalog| => catalog[i].openfheIndex);
    assert forall i | 0 <= i < |catalog| :: s[i] == catalog[i].openfheIndex && s[i] in s;
    s
  }

  ghost predicate KeyPlanOk(plan: KeyGenerationPlan, catalog: seq<CatalogEntry>, rowSize: nat)
    requires 0 < rowSize
  {
    match plan
    case QueryDerived(coverage, required, sourceMatches) =>
      && sourceMatches && IndicesOk(required, rowSize)
      && (if catalog == [] then coverage == MINIMUM_COVER && required == [1]
          else coverage == EXACT_CATALOG && ExactlyTheCatalog(required, catalog))
    case Day2(required, planned, caseIds, effectiveSlots, direct, decompositions, sourcesBound) =>
      && sourcesBound && effectiveSlots == rowSize && direct && decompositions == 0
      && IndicesOk(required, rowSize) && planned == required
      && |caseIds| == |required| && (forall i | 0 <= i < |required| :: caseIds[i] == CaseId(required[i]))
      && (forall i | 0 <= i < |catalog| :: catalog[i].openfheIndex in required)
  }

  // A derived plan generates no key that its catalog does not use, and each once;
  // so a catalog has one accepted list.
  lemma {:induction false} DerivedPlanIsExact(plan: KeyGenerationPlan, catalog: seq<CatalogEntry>, rowSize: nat)
    requires 0 < rowSize && plan.QueryDerived? && KeyPlanOk(plan, catalog, rowSize)
    ensures catalog == [] ==> plan.required == [1]
    ensures catalog != [] ==> plan.required == SortedUnique(Indices(catalog))
    ensures forall x | x in plan.required :: catalog == [] || exists e | e in catalog :: e.openfheIndex == x
  {
    if catalog != [] {
      IncreasingUnique(plan.required, SortedUnique(Indices(catalog)));
      forall x | x in plan.required ensures exists e | e in catalog :: e.openfheIndex == x {
        var i :| 0 <= i < |catalog| && catalog[i].openfheIndex == x;
        assert catalog[i] in catalog;
      }
    }
  }

  // The accepted plan's required indices: what EvalRotateKeyGen generates keys for.
  method ParseKeyGenerationPlan(plan: KeyGenerationPlan, catalog: seq<CatalogEntry>, rowSize: nat)
    returns (r: Option<seq<int>>)
    requires 1 < rowSize <= 0x7fff_ffff
    ensures r.Some? <==> KeyPlanOk(plan, catalog, rowSize)
    ensures r.Some? ==> r.value == plan.required && IndicesOk(r.value, rowSize)
  {
    match plan
    case QueryDerived(coverage, requiredValues, sourceMatches) =>
      if !sourceMatches {
        return None;
      }
      var required := ParseExactRotationIndices(requiredValues, rowSize);
      if required.None? {
        return None;
      }
      var values := Indices(catalog);
      var expected := SortedUnique(values);
      assert catalog == [] || values[0] in values;
      assert expected == [] || expected[0] in expected;
      if expected == [] {
        expected := [1];
        if coverage != MINIMUM_COVER {
          return None;
        }
      } else {
        if coverage != EXACT_CATALOG {
          return None;
        }
      }
      if required.value != expected {
        assert catalog != [] ==> !ExactlyTheCatalog(requiredValues, catalog) by {
          if catalog != [] && ExactlyTheCatalog(requiredValues, catalog) {
            IncreasingUnique(requiredValues, expected);
          }
        }
        return None;
      }
      return required;
    case Day2(requiredValues, plannedValues, caseIds, effectiveSlots, direct, decompositions, sourcesBound) =>
      if !sourcesBound || effectiveSlots != rowSize || !direct || decompositions != 0 {
        return None;
      }
      var required := ParseExactRotationIndices(requiredValues, rowSize);
      if required.None? {
        return None;
      }
      var planned := ParseExactRotationIndices(plannedValues, rowSize);
      if planned.None? || planned.value != required.value || |caseIds| != |required.value| {
        return None;
      }
      for k := 0 to |caseIds|
        invariant forall i | 0 <= i < k :: caseIds[i] == CaseId(requiredValues[i])
      {
        if caseIds[k] != CaseId(required.value[k]) {
          return None;
        }
      }
      for k := 0 to |catalog|
        invariant forall i | 0 <= i < k :: catalog[i].openfheIndex in requiredValues
      {
        if catalog[k].openfheIndex !in required.value {
          return None;
        }
      }
      return required;
  }

  // ----- no accepted rotation lacks a key -----

  // The environment the checked request fixes.
  ghost predicate CheckedEnv(env: Env, catalog: seq<CatalogEntry>, plan: KeyGenerationPlan, slotCount: nat) {
    && 1 < env.rowSize && slotCount <= env.rowSize
    && CatalogOk(catalog, slotCount) && KeyPlanOk(plan, catalog, env.rowSize)
    && (forall l :: l in env.rotations <==> exists i :: 0 <= i < |catalog| && catalog[i].logicalShift == l)
    && (forall i | 0 <= i < |catalog| :: env.rotations[catalog[i].logicalShift] == catalog[i].openfheIndex)
    && (forall x :: x in env.keys <==> x in plan.required)
  }

  // Under either plan schema, every catalog rotation has a generated key.
  lemma {:induction false} CatalogHasKeys(
    env: Env, catalog: seq<CatalogEntry>, plan: KeyGenerationPlan, slotCount: nat, logical: int)
    requires CheckedEnv(env, catalog, plan, slotCount) && logical in env.rotations
    ensures env.rotations[logical] in env.keys
    ensures IndexOk(env.rotations[logical], env.rowSize)
  {
    var i :| 0 <= i < |catalog| && catalog[i].logicalShift == logical;
    assert CatalogEntryOk(catalog[i], slotCount);
    if plan.QueryDerived? {
      assert catalog[i].openfheIndex in plan.required;
    }
  }

  // No program of an accepted request fails for a missing rotation key.
  lemma {:induction false} NoMissingKey(
    env: Env, st: State, nodes: seq<Node>, catalog: seq<CatalogEntry>, plan: KeyGenerationPlan, slotCount: nat)
    requires CheckedEnv(env, catalog, plan, slotCount)
    ensures Run(env, st, nodes) != Failure(MissingRotationKey)
    decreases |nodes|
  {
    if nodes != [] {
      if nodes[0].Rotate? && nodes[0].logicalShift in env.rotations {
        CatalogHasKeys(env, catalog, plan, slotCount, nodes[0].logicalShift);
      }
      hide CheckedEnv;
      var stepped := Step(env, st, nodes[0]);
      if stepped.Success? {
        NoMissingKey(env, stepped.value, nodes[1..], catalog, plan, slotCount);
      }
    }
  }

  // Without the cover requirement of the plans the run can miss a key.
  lemma {:induction false} UncoveredCatalogMissesKey()
    ensures var env := Env(4, 5, map[1 := 1], {2}, map[]);
      var input := Ciphertext(Packed([1, 0, 0, 0], [0, 0, 0, 0]), 2);
      Run(env, State(map["x" := input], {"x"}, [], NO_OPERATIONS), [Rotate("y", "x", 1, 1)])
      == Failure(MissingRotationKey)
  {
  }
}
