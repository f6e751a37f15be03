// Placing matrix terms into 127-of-128 lane segments, gathering the query by
// true global column, and what a segment of the placed lanes adds up to.
module Placement {
  import opened Modular
  import opened Lanes
  import opened Reduction

  // The lane geometry: lanes of the first row, segment width, payload lanes per segment.
  datatype Shape = Shape(rowSize: nat, width: Positive, payload: nat)

  datatype Term = Term(slot: nat, column: nat, value: int)

  predicate InPayload(shape: Shape, slot: nat) {
    slot < shape.rowSize && slot % shape.width < shape.payload
  }

  predicate Admissible(shape: Shape, query: seq<int>, t: Term) {
    InPayload(shape, t.slot) && t.column < |query|
  }

  // The value and query vectors of one component, written in place.
  class ComponentInput {
    const values: array<int>
    const alignedQuery: array<int>

    constructor (batch: nat)
      ensures fresh(values) && fresh(alignedQuery) && values != alignedQuery
      ensures values[..] == Zeros(batch) && alignedQuery[..] == Zeros(batch)
    {
      values := new int[batch](_ => 0);
      alignedQuery := new int[batch](_ => 0);
    }

    // A slot outside the payload is refused before any write; an unknown global
    // column is noticed only after the value lane was written.
    method PutTerm(shape: Shape, query: seq<int>, t: Term) returns (ok: bool)
      requires values != alignedQuery && values.Length == alignedQuery.Length && shape.rowSize <= values.Length
      modifies values, alignedQuery
      ensures ok <==> Admissible(shape, query, t)
      ensures values[..] == if InPayload(shape, t.slot) then old(values[..])[t.slot := t.value] else old(values[..])
      ensures alignedQuery[..]
           == if ok then old(alignedQuery[..])[t.slot := query[t.column]] else old(alignedQuery[..])
    {
      if t.slot >= shape.rowSize || t.slot % shape.width >= shape.payload {
        return false;
      }
      values[t.slot] := t.value;
      if t.column >= |query| {
        return false;
      }
      alignedQuery[t.slot] := query[t.column];
      return true;
    }
  }

  function Zeros(n: nat): (s: seq<int>)
    ensures |s| == n
  {
    seq(n, _ => 0)
  }

  predicate AllAdmissible(shape: Shape, query: seq<int>, terms: seq<Term>) {
    forall t | t in terms :: Admissible(shape, query, t)
  }

  // The lanes after putting the terms in order.
  function PlacedValues(terms: seq<Term>, batch: nat): (s: seq<int>)
    ensures |s| == batch
  {
    if terms == [] then Zeros(batch)
    else
      var t, before := terms[|terms| - 1], PlacedValues(terms[..|terms| - 1], batch);
      if t.slot < batch then before[t.slot := t.value] else before
  }

  function PlacedQuery(terms: seq<Term>, query: seq<int>, batch: nat): (s: seq<int>)
    ensures |s| == batch
  {
    if terms == [] then Zeros(batch)
    else
      var t, before := terms[|terms| - 1], PlacedQuery(terms[..|terms| - 1], query, batch);
      if t.slot < batch && t.column < |query| then before[t.slot := query[t.column]] else before
  }

  method MakeComponent(shape: Shape, query: seq<int>, terms: seq<Term>)
    returns (ok: bool, component: ComponentInput)
    ensures fresh(component) && fresh(component.values) && fresh(component.alignedQuery)
    ensures ok <==> AllAdmissible(shape, query, terms)
    ensures ok ==> component.values[..] == PlacedValues(terms, 2 * shape.rowSize)
    ensures ok ==> component.alignedQuery[..] == PlacedQuery(terms, query, 2 * shape.rowSize)
    ensures ok ==> forall lane | 0 <= lane < 2 * shape.rowSize
        && (shape.rowSize <= lane || shape.payload <= lane % shape.width) ::
      component.values[lane] == 0 == component.alignedQuery[lane]
  {
    component := new ComponentInput(2 * shape.rowSize);
    for k := 0 to |terms|
      invariant fresh(component.values) && fresh(component.alignedQuery)
      invariant component.values != component.alignedQuery
      invariant AllAdmissible(shape, query, terms[..k])
      invariant component.values[..] == PlacedValues(terms[..k], 2 * shape.rowSize)
      invariant component.alignedQuery[..] == PlacedQuery(terms[..k], query, 2 * shape.rowSize)
    {
      ok := component.PutTerm(shape, query, terms[k]);
      if !ok {
        assert terms[k] in terms;
        return;
      }
      assert terms[..k + 1][..k] == terms[..k];
      assert terms[..k + 1] == terms[..k] + [terms[k]];
    }
    assert terms[..|terms|] == terms;
    forall lane | 0 <= lane < 2 * shape.rowSize
        && (shape.rowSize <= lane || shape.payload <= lane % shape.width)
      ensures component.values[..][lane] == 0 == component.alignedQuery[..][lane]
    {
      OutsidePayload(shape, query, terms, lane);
    }
    ok := true;
  }

  // ----- what the placed lanes add up to -----

  predicate DistinctSlots(terms: seq<Term>) {
    forall i, j | 0 <= i < j < |terms| :: terms[i].slot != terms[j].slot
  }

  // The contribution of the terms placed in the window [start, start + width).
  function WindowTotal(terms: seq<Term>, query: seq<int>, start: nat, width: nat): int {
    if terms == [] then 0
    else
      var t := terms[|terms| - 1];
      WindowTotal(terms[..|terms| - 1], query, start, width)
      + if start <= t.slot < start + width then t.value * At(query, t.column) else 0
  }

  function Products(a: seq<int>, b: seq<int>): (s: seq<int>)
    requires |a| == |b|
    ensures |s| == |a|
  {
    seq(|a|, i requires 0 <= i < |a| => a[i] * b[i])
  }

  lemma {:induction false} SumOfUpdate(s: seq<int>, i: nat, v: int)
    requires i < |s|
    ensures SumOf(s[i := v]) == SumOf(s) - s[i] + v
  {
    var n := |s| - 1;
    if i == n {
      assert s[i := v][..n] == s[..n];
    } else {
      assert s[i := v][..n] == s[..n][i := v];
      SumOfUpdate(s[..n], i, v);
    }
  }

  lemma {:induction false} SumOfZeros(n: nat)
    ensures SumOf(Zeros(n)) == 0
  {
    if n > 0 {
      assert Zeros(n)[..n - 1] == Zeros(n - 1);
      SumOfZeros(n - 1);
    }
  }

  lemma {:induction false} UnusedLane(terms: seq<Term>, query: seq<int>, batch: nat, lane: nat)
    requires lane < batch && forall t | t in terms :: t.slot != lane
    ensures PlacedValues(terms, batch)[lane] == 0 && PlacedQuery(terms, query, batch)[lane] == 0
  {
    if terms != [] {
      assert terms[|terms| - 1] in terms;
      UnusedLane(terms[..|terms| - 1], query, batch, lane);
    }
  }

  // The last lanes of each segment and the whole second row are never written.
  lemma {:induction false} OutsidePayload(shape: Shape, query: seq<int>, terms: seq<Term>, lane: nat)
    requires AllAdmissible(shape, query, terms) && lane < 2 * shape.rowSize
    requires shape.rowSize <= lane || shape.payload <= lane % shape.width
    ensures PlacedValues(terms, 2 * shape.rowSize)[lane] == 0
    ensures PlacedQuery(terms, query, 2 * shape.rowSize)[lane] == 0
  {
    UnusedLane(terms, query, 2 * shape.rowSize, lane);
  }

  // Of several terms for one slot the last one stays.
  lemma {:induction false} LastTermStays(terms: seq<Term>, query: seq<int>, batch: nat, k: nat)
    requires k < |terms| && terms[k].slot < batch && terms[k].column < |query|
    requires forall l | k < l < |terms| :: terms[l].slot != terms[k].slot
    ensures PlacedValues(terms, batch)[terms[k].slot] == terms[k].value
    ensures PlacedQuery(terms, query, batch)[terms[k].slot] == query[terms[k].column]
    decreases |terms|
  {
    if k < |terms| - 1 {
      LastTermStays(terms[..|terms| - 1], query, batch, k);
    }
  }

  // A payload lane can be used: a single term there is accepted, and kept.
  lemma {:induction false} PayloadLaneHoldsTerm(shape: Shape, query: seq<int>, t: Term)
    requires t.slot < shape.rowSize && t.slot % shape.width < shape.payload && t.column < |query|
    ensures AllAdmissible(shape, query, [t])
    ensures PlacedValues([t], 2 * shape.rowSize)[t.slot] == t.value
    ensures PlacedQuery([t], query, 2 * shape.rowSize)[t.slot] == query[t.column]
  {
    assert [t][..0] == [];
  }

  // With distinct slots, the lane products of a window sum to the window's terms.
  lemma {:induction false} PlacedWindow(terms: seq<Term>, query: seq<int>, batch: nat, start: nat, width: nat)
    requires DistinctSlots(terms) && start + width <= batch
    requires forall t | t in terms :: t.column < |query| && t.slot < batch
    ensures SumOf(Products(PlacedValues(terms, batch), PlacedQuery(terms, query, batch))[start..start + width])
         == WindowTotal(terms, query, start, width)
  {
    var after := Products(PlacedValues(terms, batch), PlacedQuery(terms, query, batch));
    if terms == [] {
      assert after[start..start + width] == Zeros(width);
      SumOfZeros(width);
    } else {
      var n := |terms| - 1;
      var t, init := terms[n], terms[..n];
      assert t in terms;
      var before := Products(PlacedValues(init, batch), PlacedQuery(init, query, batch));
      PlacedWindow(init, query, batch, start, width);
      UnusedLane(init, query, batch, t.slot);
      assert after == before[t.slot := t.value * query[t.column]];
      if start <= t.slot < start + width {
        assert after[start..start + width]
            == before[start..start + width][t.slot - start := t.value * query[t.column]];
        SumOfUpdate(before[start..start + width], t.slot - start, t.value * query[t.column]);
      } else {
        assert after[start..start + width] == before[start..start + width];
      }
    }
  }

  // ----- the same sum in residues -----

  lemma {:induction false} SumOfResidues(a: seq<int>, b: seq<int>, p: Positive)
    requires |a| == |b| && forall i | 0 <= i < |a| :: a[i] == b[i] % p
    ensures SumOf(a) % p == SumOf(b) % p
  {
    if a != [] {
      var n := |a| - 1;
      SumOfResidues(a[..n], b[..n], p);
      ModAdd(SumOf(a[..n]), a[n], p);
      ModAdd(SumOf(b[..n]), b[n], p);
      ModAdd(SumOf(b[..n]), b[n], p);
    }
  }

  // The encrypted product row holds the lane products modulo p.
  lemma {:induction false} EncryptedProducts(values: seq<int>, query: seq<int>, n: nat, p: Positive)
    requires |values| == |query| && n <= |values|
    ensures var product := EvalMultNoRelin(Encrypt(values, n, p), Encrypt(query, n, p), n, p).lanes.first;
      |product| == n && forall i | 0 <= i < n :: product[i] == Products(values, query)[i] % p
  {
    var product := EvalMultNoRelin(Encrypt(values, n, p), Encrypt(query, n, p), n, p).lanes.first;
    forall i | 0 <= i < n ensures product[i] == Products(values, query)[i] % p {
      ModMul(values[i], query[i], p);
    }
  }
}
