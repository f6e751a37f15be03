// The whole-query witness: base operands reduced by the star, delta operands by
// the ladder, reconstructed together.
module WholeQuery {
  import opened Modular
  import opened Lanes
  import opened Reduction
  import opened Naming
  import opened Outcomes
  import opened CloudProgram
  import opened EmittedRun
  import opened Placement
  import opened PackedComponent
  import opened LogicalMatrix
  import opened ClientMerge

  // Operands 0 and 1 belong to the base component, later ones to the delta.
  const BASE_OPERANDS := 2

  // One at every selected leader.
  function Selection(leaders: seq<nat>, batch: nat): (s: seq<int>)
    ensures |s| == batch
  {
    seq(batch, i => if i in leaders then 1 else 0)
  }

  function ReducedOperand(ordinal: nat, source: Ciphertext, rotations: seq<nat>, n: nat, p: Positive): Ciphertext {
    if ordinal < BASE_OPERANDS then
      Ciphertext(
        Packed(Star(source.lanes.first, source.lanes.first, rotations, n, p),
               Star(source.lanes.second, source.lanes.second, rotations, n, p)),
        source.elements)
    else LadderOf(source, rotations, n, p)
  }

  function OperandProduct(values: seq<int>, aligned: seq<int>, n: nat, p: Positive): Ciphertext {
    Relinearized(EvalMultNoRelin(Encrypt(values, n, p), Encrypt(aligned, n, p), n, p))
  }

  // ----- the trace of an operand -----

  datatype OperandIds = OperandIds(valueId: string, queryId: string, f1mId: string, resultId: string)

  // Six digits with leading zeros; longer numbers have no such form.
  function Ordinal(value: nat): string
    requires |Decimal(value)| <= 6
  {
    seq(6 - |Decimal(value)|, _ => '0') + Decimal(value)
  }

  predicate LabelFits(value: nat) { |Decimal(value)| <= 6 }

  // The number in the label of the k-th sum: its position for a base operand, the
  // width of its window for a delta operand.
  function SumNumber(ordinal: nat, k: nat, rotation: nat): nat {
    if ordinal < BASE_OPERANDS then k + 1 else 2 * rotation
  }

  predicate LabelsFit(ordinal: nat, rotations: seq<nat>, k: nat) {
    && LabelFits(ordinal)
    && forall i | 0 <= i < |rotations| :: LabelFits(rotations[i]) && LabelFits(SumNumber(ordinal, k + i, rotations[i]))
  }

  function RotateLabel(ordinal: nat, rotation: nat): string
    requires LabelFits(ordinal) && LabelFits(rotation)
  {
    "ssa-rotate-" + Ordinal(ordinal) + "-" + Ordinal(rotation)
  }

  function SumLabel(ordinal: nat, k: nat, rotation: nat): string
    requires LabelFits(ordinal) && LabelFits(SumNumber(ordinal, k, rotation))
  {
    (if ordinal < BASE_OPERANDS then "ssa-column-sum-" else "ssa-segment-sum-")
    + Ordinal(ordinal) + "-" + Ordinal(SumNumber(ordinal, k, rotation))
  }

  // Base operands rotate the relinearised product, delta operands the running sum.
  function RungAt(ordinal: nat, source: string, accumulated: string, r: nat, k: nat): seq<Node>
    requires LabelFits(ordinal) && LabelFits(r) && LabelFits(SumNumber(ordinal, k, r))
  {
    [Rotate(RotateLabel(ordinal, r), if ordinal < BASE_OPERANDS then source else accumulated, r, r),
     AddCiphertexts(SumLabel(ordinal, k, r), accumulated, RotateLabel(ordinal, r))]
  }

  function RungNodes(ordinal: nat, source: string, accumulated: string, rotations: seq<nat>, k: nat): seq<Node>
    requires LabelsFit(ordinal, rotations, k)
    decreases |rotations|
  {
    if rotations == [] then []
    else
      RungAt(ordinal, source, accumulated, rotations[0], k)
      + RungNodes(ordinal, source, SumLabel(ordinal, k, rotations[0]), rotations[1..], k + 1)
  }

  function LastSum(ordinal: nat, accumulated: string, rotations: seq<nat>, k: nat): string
    requires LabelsFit(ordinal, rotations, k)
  {
    if rotations == [] then accumulated
    else SumLabel(ordinal, k + |rotations| - 1, rotations[|rotations| - 1])
  }

  function ProductNodes(ordinal: nat, ids: OperandIds): seq<Node>
    requires LabelFits(ordinal)
  {
    [MultiplyCiphertexts("ssa-product-" + Ordinal(ordinal), ids.valueId, ids.queryId),
     Relinearize("ssa-relinearized-" + Ordinal(ordinal), "ssa-product-" + Ordinal(ordinal))]
  }

  function MaskedNodes(ordinal: nat, ids: OperandIds, accumulated: string): seq<Node>
    requires LabelFits(ordinal)
  {
    [MultiplyPlaintextMask("ssa-selected-" + Ordinal(ordinal), accumulated, "pt-selection-" + Ordinal(ordinal)),
     AddF1MMask("ssa-masked-" + Ordinal(ordinal), "ssa-selected-" + Ordinal(ordinal), ids.f1mId, OPAQUE_ZERO_SUM),
     ReturnResult(ids.resultId, "ssa-masked-" + Ordinal(ordinal))]
  }

  function OperandNodes(ordinal: nat, ids: OperandIds, rotations: seq<nat>): seq<Node>
    requires LabelsFit(ordinal, rotations, 0)
  {
    var relinearized := "ssa-relinearized-" + Ordinal(ordinal);
    ProductNodes(ordinal, ids) + RungNodes(ordinal, relinearized, relinearized, rotations, 0)
    + MaskedNodes(ordinal, ids, LastSum(ordinal, relinearized, rotations, 0))
  }

  // ----- the hand-executed operand -----

  method EvaluateOperand(
    ordinal: nat, n: nat, p: Positive, ids: OperandIds, values: seq<int>, aligned: seq<int>, f1mValues: seq<int>,
    rotations: seq<nat>, leaders: seq<nat>)
    returns (r: Option<Ciphertext>, trace: seq<Node>, unrelinearizedElements: nat, relinearizedElements: nat)
    ensures r.Some? <==> LabelsFit(ordinal, rotations, 0) && forall leader | leader in leaders :: leader < 2 * n
    ensures r.Some? ==> r.value == EvalAdd(
      EvalMultPlain(ReducedOperand(ordinal, OperandProduct(values, aligned, n, p), rotations, n, p),
                    Pack(Selection(leaders, 2 * n), n), n, p),
      Encrypt(f1mValues, n, p), n, p)
    ensures r.Some? ==> trace == OperandNodes(ordinal, ids, rotations)
    ensures r.Some? ==> unrelinearizedElements == 3 && relinearizedElements == 2
  {
    hide Encrypt, RungNodes, Ordinal, LastSum;
    trace, unrelinearizedElements, relinearizedElements := [], 0, 0;
    if !LabelFits(ordinal) {
      return None, trace, unrelinearizedElements, relinearizedElements;
    }
    var selection := SelectLeaders(leaders, n);
    if selection.None? {
      return None, trace, unrelinearizedElements, relinearizedElements;
    }
    EncryptedElements(values, n, p);
    EncryptedElements(aligned, n, p);
    var product := EvalMultNoRelin(Encrypt(values, n, p), Encrypt(aligned, n, p), n, p);
    unrelinearizedElements := product.elements;
    var relinearized := Relinearized(product);
    relinearizedElements := relinearized.elements;
    trace := ProductNodes(ordinal, ids);
    var reduced, rungs, last := ReduceOperand(
      ordinal, relinearized, "ssa-relinearized-" + Ordinal(ordinal), rotations, n, p);
    if reduced.None? {
      return None, trace, unrelinearizedElements, relinearizedElements;
    }
    var selected := EvalMultPlain(reduced.value, Pack(selection.value, n), n, p);
    trace := trace + rungs + MaskedNodes(ordinal, ids, last);
    r := Some(EvalAdd(selected, Encrypt(f1mValues, n, p), n, p));
  }

  lemma {:induction false} EncryptedElements(values: seq<int>, n: nat, p: Positive)
    ensures Encrypt(values, n, p).elements == 2
  {
  }

  method SelectLeaders(leaders: seq<nat>, n: nat) returns (r: Option<seq<int>>)
    ensures r.Some? <==> forall leader | leader in leaders :: leader < 2 * n
    ensures r.Some? ==> r.value == Selection(leaders, 2 * n)
  {
    var selection := new int[2 * n](_ => 0);
    for k := 0 to |leaders|
      invariant forall leader | leader in leaders[..k] :: leader < 2 * n
      invariant forall i | 0 <= i < 2 * n :: selection[i] == if i in leaders[..k] then 1 else 0
    {
      assert leaders[k] in leaders;
      if leaders[k] >= 2 * n {
        return None;
      }
      selection[leaders[k]] := 1;
      assert leaders[..k + 1] == leaders[..k] + [leaders[k]];
    }
    assert leaders[..|leaders|] == leaders;
    return Some(selection[..]);
  }

  // The rotation loop: base operands rotate the relinearised product itself,
  // delta operands rotate what has been accumulated so far.
  method ReduceOperand(ordinal: nat, source: Ciphertext, sourceId: string, rotations: seq<nat>, n: nat, p: Positive)
    returns (r: Option<Ciphertext>, trace: seq<Node>, accumulatedId: string)
    requires LabelFits(ordinal)
    ensures r.Some? <==> LabelsFit(ordinal, rotations, 0)
    ensures r.Some? ==> r.value == ReducedOperand(ordinal, source, rotations, n, p)
    ensures r.Some? ==> trace == RungNodes(ordinal, sourceId, sourceId, rotations, 0)
    ensures r.Some? ==> accumulatedId == LastSum(ordinal, sourceId, rotations, 0)
  {
    hide AddRows, RotateRow, Ordinal, RungNodes, LastSum, Decimal;
    var accumulated := source;
    accumulatedId, trace := sourceId, [];
    RungsSoFar(ordinal, sourceId, sourceId, rotations, 0);
    for k := 0 to |rotations|
      invariant ordinal < BASE_OPERANDS ==> ReducedOperand(ordinal, source, rotations, n, p) == Ciphertext(
        Packed(Star(accumulated.lanes.first, source.lanes.first, rotations[k..], n, p),
               Star(accumulated.lanes.second, source.lanes.second, rotations[k..], n, p)), accumulated.elements)
      invariant ordinal >= BASE_OPERANDS ==>
        ReducedOperand(ordinal, source, rotations, n, p) == LadderOf(accumulated, rotations[k..], n, p)
      invariant accumulated.elements == source.elements
      invariant LabelsFit(ordinal, rotations[..k], 0)
      invariant trace == RungNodes(ordinal, sourceId, sourceId, rotations[..k], 0)
      invariant accumulatedId == LastSum(ordinal, sourceId, rotations[..k], 0)
    {
      assert rotations[k..][0] == rotations[k] && rotations[k..][1..] == rotations[k + 1..];
      var rotation := rotations[k];
      if !LabelFits(rotation) || !LabelFits(SumNumber(ordinal, k, rotation)) {
        return None, trace, accumulatedId;
      }
      assert rotations[..k + 1] == rotations[..k] + [rotation];
      OneMoreRung(ordinal, sourceId, sourceId, rotations[..k], rotation, 0);
      var rotated := EvalRotate(if ordinal < BASE_OPERANDS then source else accumulated, rotation, n);
      var rotatedId, sumId := RotateLabel(ordinal, rotation), SumLabel(ordinal, k, rotation);
      trace := trace + [
        Rotate(rotatedId, if ordinal < BASE_OPERANDS then sourceId else accumulatedId, rotation, rotation),
        AddCiphertexts(sumId, accumulatedId, rotatedId)];
      accumulated := EvalAdd(accumulated, rotated, n, p);
      accumulatedId := sumId;
    }
    assert rotations[..|rotations|] == rotations;
    return Some(accumulated), trace, accumulatedId;
  }

  lemma {:induction false} RungsSoFar(ordinal: nat, source: string, accumulated: string, rotations: seq<nat>, k: nat)
    requires LabelFits(ordinal)
    ensures LabelsFit(ordinal, rotations[..0], k)
    ensures RungNodes(ordinal, source, accumulated, rotations[..0], k) == []
    ensures LastSum(ordinal, accumulated, rotations[..0], k) == accumulated
  {
  }

  // The list one rotation longer ends in one more rung on the last sum.
  lemma {:induction false} OneMoreRung(
    ordinal: nat, source: string, accumulated: string, rotations: seq<nat>, r: nat, k: nat)
    requires LabelsFit(ordinal, rotations, k) && LabelFits(r) && LabelFits(SumNumber(ordinal, k + |rotations|, r))
    ensures LabelsFit(ordinal, rotations + [r], k)
    ensures var last := LastSum(ordinal, accumulated, rotations, k);
      RungNodes(ordinal, source, accumulated, rotations + [r], k)
      == RungNodes(ordinal, source, accumulated, rotations, k) + RungAt(ordinal, source, last, r, k + |rotations|)
    ensures LastSum(ordinal, accumulated, rotations + [r], k) == SumLabel(ordinal, k + |rotations|, r)
    decreases |rotations|
  {
    hide Ordinal, Decimal, RungNodes, SumLabel, RotateLabel;
    var longer := rotations + [r];
    UnfoldRungs(ordinal, source, accumulated, longer, k);
    if rotations == [] {
      assert longer == [r] && longer[1..] == [];
      RungsSoFar(ordinal, source, accumulated, rotations, k);
      assert rotations[..0] == rotations;
      RungsSoFar(ordinal, source, SumLabel(ordinal, k, r), longer[1..], k + 1);
      assert longer[1..][..0] == longer[1..];
    } else {
      UnfoldRungs(ordinal, source, accumulated, rotations, k);
      assert longer[1..] == rotations[1..] + [r] && longer[0] == rotations[0];
      var sum := SumLabel(ordinal, k, rotations[0]);
      OneMoreRung(ordinal, source, sum, rotations[1..], r, k + 1);
      RestLast(ordinal, accumulated, sum, rotations, k);
    }
  }

  lemma {:induction false} UnfoldRungs(
    ordinal: nat, source: string, accumulated: string, rotations: seq<nat>, k: nat)
    requires rotations != [] && LabelsFit(ordinal, rotations, k)
    ensures LabelsFit(ordinal, rotations[1..], k + 1)
    ensures RungNodes(ordinal, source, accumulated, rotations, k)
         == RungAt(ordinal, source, accumulated, rotations[0], k)
            + RungNodes(ordinal, source, SumLabel(ordinal, k, rotations[0]), rotations[1..], k + 1)
  {
  }

  lemma {:induction false} RestLast(ordinal: nat, accumulated: string, sum: string, rotations: seq<nat>, k: nat)
    requires rotations != [] && LabelsFit(ordinal, rotations, k) && LabelsFit(ordinal, rotations[1..], k + 1)
    requires sum == SumLabel(ordinal, k, rotations[0])
    ensures LastSum(ordinal, sum, rotations[1..], k + 1) == LastSum(ordinal, accumulated, rotations, k)
  {
    hide Ordinal, Decimal;
  }

  // The rotations reduce windows of width w: 1, ..., w-1 for a base operand,
  // 1, 2, ..., 2^(m-1) with w = 2^m for a delta operand.
  predicate ReducesWindows(ordinal: nat, rotations: seq<nat>, w: nat, m: nat) {
    if ordinal < BASE_OPERANDS then 0 < w && rotations == Consecutive(1, w - 1)
    else w == Pow2(m) && rotations == PowersOfTwo(0, m)
  }

  lemma {:induction false} OperandHoldsWindows(ordinal: nat, row: seq<int>, rotations: seq<nat>, w: nat, m: nat, p: Positive)
    requires ReducesWindows(ordinal, rotations, w, m) && Residues(row, p)
    ensures HoldsWindows(
              if ordinal < BASE_OPERANDS then Star(row, row, rotations, |row|, p)
              else Ladder(row, rotations, |row|, p), row, w, p)
  {
    if ordinal < BASE_OPERANDS {
      StarComputesWindows(row, w, p);
    } else {
      LadderComputesWindows(row, m, p);
    }
  }

  // Either reduction leaves the terms of the window at its leader.
  lemma {:induction false} OperandWindow(
    ordinal: nat, n: nat, p: Positive, terms: seq<Term>, query: seq<int>, rotations: seq<nat>,
    w: nat, m: nat, start: nat)
    requires ReducesWindows(ordinal, rotations, w, m) && start + w <= n && 0 < w
    requires DistinctSlots(terms) && forall t | t in terms :: t.column < |query| && t.slot < n
    ensures At(ReducedOperand(
                 ordinal, OperandProduct(PlacedValues(terms, 2 * n), PlacedQuery(terms, query, 2 * n), n, p),
                 rotations, n, p).lanes.first, start)
         == WindowTotal(terms, query, start, w) % p
  {
    hide Star, Ladder, HoldsWindows, WindowTotal, PlacedValues, PlacedQuery;
    var row := ProductRow(terms, query, n, p);
    OperandHoldsWindows(ordinal, row, rotations, w, m, p);
    ReducedWindow(
      n, p, terms, query,
      if ordinal < BASE_OPERANDS then Star(row, row, rotations, n, p) else Ladder(row, rotations, n, p), w, start);
  }

  // What EvaluateOperand returns for a placed component.
  function OperandPage(
    ordinal: nat, n: nat, p: Positive, c: Component, query: seq<int>, rotations: seq<nat>, leaders: seq<nat>)
    : Ciphertext
  {
    EvalAdd(
      EvalMultPlain(
        ReducedOperand(
          ordinal, OperandProduct(PlacedValues(c.terms, 2 * n), PlacedQuery(c.terms, query, 2 * n), n, p),
          rotations, n, p),
        Pack(Selection(leaders, 2 * n), n), n, p),
      Encrypt(c.mask, n, p), n, p)
  }

  lemma {:induction false} OperandLane(
    ordinal: nat, n: nat, p: Positive, c: Component, query: seq<int>, rotations: seq<nat>, leaders: seq<nat>,
    start: nat)
    requires start < n && start in leaders
    ensures var reduced := At(ReducedOperand(
          ordinal, OperandProduct(PlacedValues(c.terms, 2 * n), PlacedQuery(c.terms, query, 2 * n), n, p),
          rotations, n, p).lanes.first, start);
      NormalizeMod(At(Decrypt(OperandPage(ordinal, n, p, c, query, rotations, leaders), n, p), start), p)
      == (reduced % p + At(c.mask, start) % p) % p
  {
    hide ReducedOperand, OperandProduct;
    var page := OperandPage(ordinal, n, p, c, query, rotations, leaders);
    assert Canonical(page.lanes, n, p);
    DecryptThenNormalize(page, n, p, start);
  }

  // Every operand, star or ladder, is a share of its component at every mapped leader.
  lemma {:induction false} OperandIsShare(
    ordinal: nat, p: Positive, c: Component, shape: Shape, query: seq<int>, rotations: seq<nat>,
    leaders: seq<nat>, m: nat)
    requires WellPlaced(c, shape, query) && ReducesWindows(ordinal, rotations, c.width, m)
    requires forall o | o in c.owners :: o.0 in leaders && o.0 + c.width <= shape.rowSize
    ensures IsShare(
              Decrypt(OperandPage(ordinal, shape.rowSize, p, c, query, rotations, leaders), shape.rowSize, p),
              c, query, p)
  {
    hide ReducedOperand, OperandProduct, OperandPage, Decrypt, Selection, WindowTotal, NormalizeMod;
    var n := shape.rowSize;
    var lanes := Decrypt(OperandPage(ordinal, n, p, c, query, rotations, leaders), n, p);
    forall o | o in c.owners
      ensures NormalizeMod(At(lanes, o.0), p) == (At(c.mask, o.0) + WindowTotal(c.terms, query, o.0, c.width)) % p
    {
      var total := WindowTotal(c.terms, query, o.0, c.width);
      OperandLane(ordinal, n, p, c, query, rotations, leaders, o.0);
      OperandWindow(ordinal, n, p, c.terms, query, rotations, c.width, m, o.0);
      ModAdd(total, 0, p);
      ModAdd(total, At(c.mask, o.0), p);
    }
  }

  // Any number of operands, the first two base operands of any window width and
  // the later ones delta operands of any ladder depth, reconstruct the direct product.
  lemma {:induction false} WholeQueryIsDirectProduct(
    components: seq<Component>, rotations: seq<seq<nat>>, leaders: seq<seq<nat>>, depths: seq<nat>,
    shape: Shape, query: seq<int>, matrix: Matrix, rows: nat, row: nat, p: Positive)
    requires |components| == |rotations| == |leaders| == |depths| && row < rows
    requires forall k | 0 <= k < |components| ::
      && WellPlaced(components[k], shape, query)
      && ReducesWindows(k, rotations[k], components[k].width, depths[k])
      && forall o | o in components[k].owners ::
           o.0 in leaders[k] && o.0 + components[k].width <= shape.rowSize
    requires ZeroSumMasks(components, rows, p) && Holds(components, matrix)
    ensures var shares := seq(|components|, k requires 0 <= k < |components| =>
        Decrypt(OperandPage(k, shape.rowSize, p, components[k], query, rotations[k], leaders[k]), shape.rowSize, p));
      MergedAll(components, shares, row, p) == RowProduct(matrix, query, row) % p
  {
    hide WellPlaced, IsShare, OperandPage, Decrypt, MergedAll;
    var shares := seq(|components|, k requires 0 <= k < |components| =>
      Decrypt(OperandPage(k, shape.rowSize, p, components[k], query, rotations[k], leaders[k]), shape.rowSize, p));
    forall k | 0 <= k < |components| ensures IsShare(shares[k], components[k], query, p) {
      OperandIsShare(k, p, components[k], shape, query, rotations[k], leaders[k], depths[k]);
    }
    MergeIsDirectProduct(components, shares, shape, query, matrix, rows, row, p);
  }
}
