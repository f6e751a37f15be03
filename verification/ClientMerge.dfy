// The client's reconstruction: returned lanes are added per logical row, reduced
// and centred; and why that is the direct sparse product.
module ClientMerge {
  import opened Modular
  import opened Lanes
  import opened Reduction
  import opened Placement
  import opened PackedComponent
  import opened LogicalMatrix
  import opened CloudProgram

  // A segment start and the logical row that owns the segment.
  type Owner = (nat, nat)

  // A placed component; its segments are `width` lanes wide.
  datatype Component = Component(
    name: string, width: Positive, terms: seq<Term>, owners: seq<Owner>, mask: seq<int>)

  // ----- the merge loop -----

  // What the merge of one decrypted share leaves in a row that held acc.
  function MergedRow(owners: seq<Owner>, lanes: seq<int>, row: nat, acc: int, p: Positive): int {
    if owners == [] then acc
    else
      var last := owners[|owners| - 1];
      var before := MergedRow(owners[..|owners| - 1], lanes, row, acc, p);
      if last.1 == row then (before + NormalizeMod(At(lanes, last.0), p)) % p else before
  }

  predicate OwnersWithin(owners: seq<Owner>, lanes: nat, rows: nat) {
    forall o | o in owners :: o.0 < lanes && o.1 < rows
  }

  // modularResult[logical] accumulates the normalised lane of every mapped start;
  // an index outside either array is refused.
  method MergeShare(modularResult: array<int>, owners: seq<Owner>, lanes: seq<int>, p: Positive)
    returns (ok: bool)
    modifies modularResult
    ensures ok <==> OwnersWithin(owners, |lanes|, modularResult.Length)
    ensures ok ==> forall row | 0 <= row < modularResult.Length ::
      modularResult[row] == MergedRow(owners, lanes, row, old(modularResult[row]), p)
  {
    for k := 0 to |owners|
      invariant OwnersWithin(owners[..k], |lanes|, modularResult.Length)
      invariant forall row | 0 <= row < modularResult.Length ::
        modularResult[row] == MergedRow(owners[..k], lanes, row, old(modularResult[row]), p)
    {
      var o := owners[k];
      assert o in owners;
      if o.0 >= |lanes| || o.1 >= modularResult.Length {
        return false;
      }
      assert owners[..k + 1][..k] == owners[..k];
      modularResult[o.1] := (modularResult[o.1] + NormalizeMod(lanes[o.0], p)) % p;
    }
    assert owners[..|owners|] == owners;
    return true;
  }

  // ----- sums over owners -----

  // The mask values a component adds to a row.
  function OwnedMask(owners: seq<Owner>, mask: seq<int>, row: nat): int {
    if owners == [] then 0
    else
      var last := owners[|owners| - 1];
      OwnedMask(owners[..|owners| - 1], mask, row) + if last.1 == row then At(mask, last.0) else 0
  }

  // The term totals of the segments a component maps to a row.
  function OwnedTerms(owners: seq<Owner>, terms: seq<Term>, query: seq<int>, width: Positive, row: nat): int {
    if owners == [] then 0
    else
      var last := owners[|owners| - 1];
      OwnedTerms(owners[..|owners| - 1], terms, query, width, row)
      + if last.1 == row then WindowTotal(terms, query, last.0, width) else 0
  }

  // The lanes of a share at the mapped starts: segment terms plus mask, as residues.
  predicate ShareLanes(
    lanes: seq<int>, owners: seq<Owner>, terms: seq<Term>, query: seq<int>, mask: seq<int>,
    width: Positive, p: Positive)
  {
    forall o | o in owners ::
      NormalizeMod(At(lanes, o.0), p) == (At(mask, o.0) + WindowTotal(terms, query, o.0, width)) % p
  }

  lemma {:induction false} MergedRowAdds(
    owners: seq<Owner>, lanes: seq<int>, terms: seq<Term>, query: seq<int>, mask: seq<int>,
    width: Positive, row: nat, acc: int, sum: int, p: Positive)
    requires ShareLanes(lanes, owners, terms, query, mask, width, p)
    requires acc == sum % p
    ensures MergedRow(owners, lanes, row, acc, p)
         == (sum + OwnedTerms(owners, terms, query, width, row) + OwnedMask(owners, mask, row)) % p
  {
    if owners != [] {
      var n := |owners| - 1;
      var last, init := owners[n], owners[..n];
      assert last in owners;
      MergedRowAdds(init, lanes, terms, query, mask, width, row, acc, sum, p);
      if last.1 == row {
        var before := sum + OwnedTerms(init, terms, query, width, row) + OwnedMask(init, mask, row);
        ModAdd(before, At(mask, last.0) + WindowTotal(terms, query, last.0, width), p);
      }
    }
  }

  // ----- ownership: each segment belongs to one row -----

  predicate DistinctStarts(owners: seq<Owner>) {
    forall i, j | 0 <= i < j < |owners| :: owners[i].0 != owners[j].0
  }

  function SegmentOf(slot: nat, width: Positive): nat { slot / width * width }

  // Every mapped start is aligned, and every term lies in a mapped segment.
  predicate Owns(owners: seq<Owner>, terms: seq<Term>, width: Positive) {
    && DistinctStarts(owners)
    && (forall o | o in owners :: o.0 % width == 0)
    && (forall t | t in terms :: exists o :: o in owners && o.0 == SegmentOf(t.slot, width))
  }

  function OwnerRow(owners: seq<Owner>, start: nat): nat {
    if owners == [] then 0
    else if owners[|owners| - 1].0 == start then owners[|owners| - 1].1
    else OwnerRow(owners[..|owners| - 1], start)
  }

  // The matrix entries a component places, each in the row that owns its segment.
  function EntriesOf(c: Component): (es: seq<Entry>)
    ensures |es| == |c.terms|
  {
    seq(|c.terms|, i requires 0 <= i < |c.terms| =>
      Entry(OwnerRow(c.owners, SegmentOf(c.terms[i].slot, c.width)), c.terms[i].column, c.terms[i].value))
  }

  lemma {:induction false} InSegment(slot: nat, start: nat, width: Positive)
    requires start % width == 0
    ensures start <= slot < start + width <==> start == SegmentOf(slot, width)
  {
    var q := slot / width;
    assert slot == q * width + slot % width;
    if start <= slot < start + width {
      assert start == (start / width) * width;
      ModUnique(slot, start / width, slot - start, width);
    }
  }

  // One more term adds its product to the row that owns its segment, once.
  lemma {:induction false} OneMoreTerm(
    owners: seq<Owner>, init: seq<Term>, t: Term, query: seq<int>, width: Positive, row: nat)
    requires DistinctStarts(owners) && forall o | o in owners :: o.0 % width == 0
    ensures var start := SegmentOf(t.slot, width);
      OwnedTerms(owners, init + [t], query, width, row) == OwnedTerms(owners, init, query, width, row)
      + if (exists o :: o in owners && o.0 == start) && OwnerRow(owners, start) == row
        then t.value * At(query, t.column) else 0
  {
    var start := SegmentOf(t.slot, width);
    if owners != [] {
      var n := |owners| - 1;
      var last, rest := owners[n], owners[..n];
      assert last in owners;
      OneMoreTerm(rest, init, t, query, width, row);
      assert (init + [t])[..|init|] == init;
      InSegment(t.slot, last.0, width);
      assert last.0 == start ==> forall o | o in rest :: o.0 != start;
      assert forall o | o in owners :: o == last || o in rest;
    }
  }

  lemma {:induction false} NoTermsNoTotals(owners: seq<Owner>, query: seq<int>, width: Positive, row: nat)
    ensures OwnedTerms(owners, [], query, width, row) == 0
  {
    if owners != [] {
      NoTermsNoTotals(owners[..|owners| - 1], query, width, row);
    }
  }

  // Segment totals regrouped: the owned segments of a row hold exactly its entries.
  lemma {:induction false} OwnedTermsAreEntries(
    c: Component, query: seq<int>, row: nat)
    requires Owns(c.owners, c.terms, c.width)
    requires forall t | t in c.terms :: t.column < |query|
    ensures forall e | e in EntriesOf(c) :: e.column < |query|
    ensures OwnedTerms(c.owners, c.terms, query, c.width, row) == EntrySum(EntriesOf(c), query, row)
    decreases |c.terms|
  {
    if c.terms == [] {
      NoTermsNoTotals(c.owners, query, c.width, row);
    } else {
      var n := |c.terms| - 1;
      var t, init := c.terms[n], c.(terms := c.terms[..n]);
      assert t in c.terms;
      assert forall u | u in init.terms :: u in c.terms;
      OwnedTermsAreEntries(init, query, row);
      assert EntriesOf(c)[..n] == EntriesOf(init);
      assert init.terms + [t] == c.terms;
      OneMoreTerm(c.owners, init.terms, t, query, c.width, row);
    }
  }

  // ----- all components -----

  // The row after merging the shares of all components in order, from zero.
  function MergedAll(components: seq<Component>, shares: seq<seq<int>>, row: nat, p: Positive): int
    requires |components| == |shares|
  {
    if components == [] then 0
    else
      var n := |components| - 1;
      MergedRow(components[n].owners, shares[n], row, MergedAll(components[..n], shares[..n], row, p), p)
  }

  function AllEntries(components: seq<Component>): seq<Entry> {
    if components == [] then []
    else
      var n := |components| - 1;
      AllEntries(components[..n]) + EntriesOf(components[n])
  }

  function TotalMask(components: seq<Component>, row: nat): int {
    if components == [] then 0
    else
      var n := |components| - 1;
      TotalMask(components[..n], row) + OwnedMask(components[n].owners, components[n].mask, row)
  }

  // The masks of the shares that meet in a row cancel; a row with one share has a zero mask.
  predicate ZeroSumMasks(components: seq<Component>, rows: nat, p: Positive) {
    forall row | 0 <= row < rows :: TotalMask(components, row) % p == 0
  }

  predicate WellPlaced(c: Component, shape: Shape, query: seq<int>) {
    && AllAdmissible(shape, query, c.terms)
    && DistinctSlots(c.terms)
    && Owns(c.owners, c.terms, c.width)
    && (forall o | o in c.owners :: o.0 < shape.rowSize)
    && |c.mask| == 2 * shape.rowSize
  }

  lemma {:induction false} EntrySumAppend(a: seq<Entry>, b: seq<Entry>, x: seq<int>, row: nat)
    requires forall e | e in a :: e.column < |x|
    requires forall e | e in b :: e.column < |x|
    ensures EntrySum(a + b, x, row) == EntrySum(a, x, row) + EntrySum(b, x, row)
    decreases |b|
  {
    if b == [] {
      assert a + b == a;
    } else {
      var n := |b| - 1;
      assert (a + b)[..|a| + n] == a + b[..n];
      EntrySumAppend(a, b[..n], x, row);
    }
  }

  // `lanes` is a decrypted share of the component.
  predicate IsShare(lanes: seq<int>, c: Component, query: seq<int>, p: Positive) {
    ShareLanes(lanes, c.owners, c.terms, query, c.mask, c.width, p)
  }

  // Merging one share adds the component's entries and masks to the row.
  lemma {:induction false} MergeOneShare(
    c: Component, lanes: seq<int>, shape: Shape, query: seq<int>, row: nat, acc: int, sum: int, p: Positive)
    requires WellPlaced(c, shape, query) && IsShare(lanes, c, query, p) && acc == sum % p
    ensures forall e | e in EntriesOf(c) :: e.column < |query|
    ensures MergedRow(c.owners, lanes, row, acc, p)
         == (sum + EntrySum(EntriesOf(c), query, row) + OwnedMask(c.owners, c.mask, row)) % p
  {
    hide MergedRow, EntrySum, OwnedMask, WindowTotal;
    OwnedTermsAreEntries(c, query, row);
    MergedRowAdds(c.owners, lanes, c.terms, query, c.mask, c.width, row, acc, sum, p);
  }

  lemma {:induction false} MergedAllAdds(
    components: seq<Component>, shares: seq<seq<int>>, shape: Shape, query: seq<int>, row: nat, p: Positive)
    requires |components| == |shares|
    requires forall k | 0 <= k < |components| :: WellPlaced(components[k], shape, query)
    requires forall k | 0 <= k < |components| :: IsShare(shares[k], components[k], query, p)
    ensures forall e | e in AllEntries(components) :: e.column < |query|
    ensures MergedAll(components, shares, row, p)
         == (EntrySum(AllEntries(components), query, row) + TotalMask(components, row)) % p
  {
    hide WellPlaced, IsShare, MergedRow, EntriesOf, OwnedMask;
    if components == [] {
      ModSmall(0, p);
    } else {
      var n := |components| - 1;
      var c := components[n];
      MergedAllAdds(components[..n], shares[..n], shape, query, row, p);
      MergeOneShare(
        c, shares[n], shape, query, row, MergedAll(components[..n], shares[..n], row, p),
        EntrySum(AllEntries(components[..n]), query, row) + TotalMask(components[..n], row), p);
      EntrySumAppend(AllEntries(components[..n]), EntriesOf(c), query, row);
    }
  }

  // The placed components hold the matrix m: repeated coordinates, in one or
  // several components, add.
  ghost predicate Holds(components: seq<Component>, m: Matrix) {
    SameMatrix(Collect(AllEntries(components)), m)
  }

  // The merged row is the direct product mod p exactly when its masks cancel.
  lemma {:induction false} MergeIsExactIff(
    components: seq<Component>, shares: seq<seq<int>>, shape: Shape, query: seq<int>, m: Matrix,
    row: nat, p: Positive)
    requires |components| == |shares|
    requires forall k | 0 <= k < |components| :: WellPlaced(components[k], shape, query)
    requires forall k | 0 <= k < |components| :: IsShare(shares[k], components[k], query, p)
    requires Holds(components, m)
    ensures MergedAll(components, shares, row, p) == RowProduct(m, query, row) % p
      <==> TotalMask(components, row) % p == 0
  {
    hide WellPlaced, IsShare, MergedAll;
    var entries := AllEntries(components);
    MergedAllAdds(components, shares, shape, query, row, p);
    CollectedProduct(entries, query, row);
    SameRows(Collect(entries), m, query, row, |query|);
    ModCancels(EntrySum(entries, query, row), TotalMask(components, row), p);
  }

  lemma {:induction false} ModCancels(a: int, b: int, p: Positive)
    ensures (a + b) % p == a % p <==> b % p == 0
  {
    ModAdd(a, b, p);
    ModSmall(a % p, p);
    ModAdd(-a, a + b, p);
    ModAdd(-a, a, p);
    assert -a + (a + b) == b && -a + a == 0;
    ModSmall(0, p);
  }

  // Reconstruction: with cancelling masks the merged row is the direct product mod p.
  lemma {:induction false} MergeIsDirectProduct(
    components: seq<Component>, shares: seq<seq<int>>, shape: Shape, query: seq<int>, m: Matrix,
    rows: nat, row: nat, p: Positive)
    requires |components| == |shares| && row < rows
    requires forall k | 0 <= k < |components| :: WellPlaced(components[k], shape, query)
    requires forall k | 0 <= k < |components| :: IsShare(shares[k], components[k], query, p)
    requires ZeroSumMasks(components, rows, p) && Holds(components, m)
    ensures MergedAll(components, shares, row, p) == RowProduct(m, query, row) % p
  {
    hide WellPlaced, IsShare, MergedAll, RowProduct;
    MergeIsExactIff(components, shares, shape, query, m, row, p);
  }

  // The decrypted page of a well-placed component is a share in the sense above.
  lemma {:induction false} PageIsShare(env: Env, c: Component, shape: Shape, query: seq<int>, m: nat)
    requires c.width == Pow2(m) && shape.rowSize == env.rowSize && env.rowSize % Pow2(m) == 0
    requires WellPlaced(c, shape, query)
    ensures IsShare(
              Decrypt(PageOf(env, c.terms, query, c.mask, m), env.rowSize, env.modulus), c, query, env.modulus)
  {
    hide PageOf, Decrypt, WindowTotal;
    var lanes := Decrypt(PageOf(env, c.terms, query, c.mask, m), env.rowSize, env.modulus);
    forall o | o in c.owners
      ensures NormalizeMod(At(lanes, o.0), env.modulus)
           == (At(c.mask, o.0) + WindowTotal(c.terms, query, o.0, c.width)) % env.modulus
    {
      PageLanes(env, c.terms, query, c.mask, m, o.0);
      DecryptThenNormalize(PageOf(env, c.terms, query, c.mask, m), env.rowSize, env.modulus, o.0);
    }
  }
}
