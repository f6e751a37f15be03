// One packed component: the hand-executed circuit with its trace, and the
// lanes of the page it returns.
module PackedComponent {
  import opened Modular
  import opened Lanes
  import opened Reduction
  import opened Naming
  import opened CloudProgram
  import opened Emitter
  import opened EmittedRun
  import opened Placement

  // One at every segment start of the first row.
  function StartMask(n: nat, width: Positive): (s: seq<int>)
    ensures |s| == 2 * n
  {
    seq(2 * n, i => if i < n && i % width == 0 then 1 else 0)
  }

  method MakeStartMask(shape: Shape) returns (mask: array<int>)
    ensures fresh(mask) && mask[..] == StartMask(shape.rowSize, shape.width)
  {
    mask := new int[2 * shape.rowSize](_ => 0);
    var start: nat := 0;
    ghost var segment := 0;
    while start < shape.rowSize
      invariant start == segment * shape.width
      invariant forall i | 0 <= i < mask.Length :: mask[i] == if i < start then StartMask(shape.rowSize, shape.width)[i] else 0
    {
      mask[start] := 1;
      forall i | start <= i < start + shape.width && i < shape.rowSize
        ensures StartMask(shape.rowSize, shape.width)[i] == if i == start then 1 else 0
      {
        ModUnique(i, segment, i - start, shape.width);
      }
      start := start + shape.width;
      segment := segment + 1;
    }
  }

  // The hand-executed circuit of one component computes the same page as the
  // composition the interpreter reaches, and its trace is the emitted program.
  method EvaluateComponent(
    shape: Shape, p: Positive, component: string, input: ComponentInput, startMask: seq<int>,
    maskValues: seq<int>, rotations: seq<nat>)
    returns (masked: Ciphertext, unrelinearizedElements: nat, productElements: nat, trace: seq<Node>)
    ensures masked == ComponentResult(
              Env(shape.rowSize, p, map[], {}, map[]),
              Encrypt(input.values[..], shape.rowSize, p), Encrypt(input.alignedQuery[..], shape.rowSize, p),
              Encrypt(maskValues, shape.rowSize, p), Pack(startMask, shape.rowSize), rotations)
    ensures trace == NodesOf(NamesOf(component), rotations)
    ensures unrelinearizedElements == 3 && productElements == 2
  {
    hide Text, Decimal, NamesOf, Prologue, Epilogue, LadderNodes, LastReduced;
    var n := shape.rowSize;
    var valueCiphertext := Encrypt(input.values[..], n, p);
    var queryCiphertext := Encrypt(input.alignedQuery[..], n, p);
    var encryptedMask := Encrypt(maskValues, n, p);
    ghost var name := NamesOf(component);
    PrologueText(component);

    var product := EvalMultNoRelin(valueCiphertext, queryCiphertext, n, p);
    unrelinearizedElements := product.elements;
    var relinearized := Relinearized(product);
    productElements := relinearized.elements;
    var productId := component + "-product";
    var reducedId := component + "-relinearized";
    trace := [MultiplyCiphertexts(productId, component + "-values", component + "-query"),
              Relinearize(reducedId, productId)];
    var reduced := relinearized;
    var span: nat := 1;
    ghost var suffix := Relin;
    assert rotations[0..] == rotations;
    for i := 0 to |rotations|
      invariant reducedId == name(suffix)
      invariant trace + LadderNodes(name, suffix, span, rotations[i..])
             == Prologue(name) + LadderNodes(name, Relin, 1, rotations)
      invariant LastReduced(suffix, span, rotations[i..]) == LastReduced(Relin, 1, rotations)
      invariant LadderOf(reduced, rotations[i..], n, p) == LadderOf(relinearized, rotations, n, p)
    {
      RungText(component, suffix, span, rotations, i);
      LadderAt(reduced, rotations, i, n, p);
      var rotation := rotations[i];
      var rotated := EvalRotate(reduced, rotation, n);
      var rotatedId := component + "-rotate-" + Decimal(rotation);
      trace := trace + [Rotate(rotatedId, reducedId, rotation, rotation)];
      reduced := EvalAdd(reduced, rotated, n, p);
      var summedId := component + "-sum-" + Decimal(span + rotation);
      trace := trace + [AddCiphertexts(summedId, reducedId, rotatedId)];
      reducedId := summedId;
      span := span + rotation;
      suffix := Sum(span);
    }
    NoMoreRungs(name, suffix, span, rotations[|rotations|..]);
    EpilogueText(component, suffix);
    var unblinded := EvalMultPlain(reduced, Pack(startMask, n), n, p);
    masked := EvalAdd(unblinded, encryptedMask, n, p);
    trace := trace + [
      MultiplyPlaintextMask(component + "-selected", reducedId, SEGMENT_STARTS),
      AddF1MMask(component + "-masked", component + "-selected", component + "-f1m-mask", OPAQUE_ZERO_SUM),
      ReturnResult(component + "-page-000000", component + "-masked")];
  }

  lemma {:induction false} LadderAt(c: Ciphertext, rotations: seq<nat>, i: nat, n: nat, p: Positive)
    requires i < |rotations|
    ensures LadderOf(c, rotations[i..], n, p)
         == LadderOf(EvalAdd(c, EvalRotate(c, rotations[i], n), n, p), rotations[i + 1..], n, p)
  {
    assert rotations[i..][0] == rotations[i] && rotations[i..][1..] == rotations[i + 1..];
  }

  // ----- the lanes of the returned page -----

  // The page of a component placed from `terms`, masked by `mask`, with the ladder of depth m.
  function PageOf(env: Env, terms: seq<Term>, query: seq<int>, mask: seq<int>, m: nat): Ciphertext {
    var batch := 2 * env.rowSize;
    ComponentResult(
      env,
      Encrypt(PlacedValues(terms, batch), env.rowSize, env.modulus),
      Encrypt(PlacedQuery(terms, query, batch), env.rowSize, env.modulus),
      Encrypt(mask, env.rowSize, env.modulus),
      Pack(StartMask(env.rowSize, Pow2(m)), env.rowSize),
      PowersOfTwo(0, m))
  }

  // The product row of the encrypted placement.
  function ProductRow(terms: seq<Term>, query: seq<int>, n: nat, p: Positive): (r: seq<int>)
    ensures |r| == n
  {
    EvalMultNoRelin(
      Encrypt(PlacedValues(terms, 2 * n), n, p), Encrypt(PlacedQuery(terms, query, 2 * n), n, p), n, p).lanes.first
  }

  // A lane that holds a window of the product row holds the terms placed in it.
  lemma {:induction false} ReducedWindow(
    n: nat, p: Positive, terms: seq<Term>, query: seq<int>, reduced: seq<int>, w: nat, start: nat)
    requires DistinctSlots(terms) && forall t | t in terms :: t.column < |query| && t.slot < n
    requires HoldsWindows(reduced, ProductRow(terms, query, n, p), w, p) && 0 < w && start + w <= n
    ensures Residues(ProductRow(terms, query, n, p), p)
    ensures reduced[start] == WindowTotal(terms, query, start, w) % p
  {
    var values, aligned := PlacedValues(terms, 2 * n), PlacedQuery(terms, query, 2 * n);
    var row := ProductRow(terms, query, n, p);
    EncryptedProducts(values, aligned, n, p);
    WindowWithoutWrap(row, start, w);
    SumOfResidues(row[start..start + w], Products(values, aligned)[start..start + w], p);
    PlacedWindow(terms, query, 2 * n, start, w);
  }

  // At a segment start the ladder of the encrypted product holds the segment's terms.
  lemma {:induction false} ReducedSegment(
    n: nat, p: Positive, terms: seq<Term>, query: seq<int>, m: nat, start: nat)
    requires DistinctSlots(terms) && forall t | t in terms :: t.column < |query| && t.slot < n
    requires start < n && start % Pow2(m) == 0 && n % Pow2(m) == 0
    ensures At(Ladder(ProductRow(terms, query, n, p), PowersOfTwo(0, m), n, p), start)
         == WindowTotal(terms, query, start, Pow2(m)) % p
  {
    var row := ProductRow(terms, query, n, p);
    SegmentDoesNotWrap(start, Pow2(m), n);
    LadderComputesWindows(row, m, p);
    ReducedWindow(n, p, terms, query, Ladder(row, PowersOfTwo(0, m), n, p), Pow2(m), start);
  }

  // The ladder result of the component, before selection.
  function ReducedOf(env: Env, terms: seq<Term>, query: seq<int>, m: nat): Ciphertext {
    var batch := 2 * env.rowSize;
    LadderOf(
      Relinearized(EvalMultNoRelin(
        Encrypt(PlacedValues(terms, batch), env.rowSize, env.modulus),
        Encrypt(PlacedQuery(terms, query, batch), env.rowSize, env.modulus), env.rowSize, env.modulus)),
      PowersOfTwo(0, m), env.rowSize, env.modulus)
  }

  // Selection and blinding, lane by lane.
  lemma {:induction false} PageLane(env: Env, terms: seq<Term>, query: seq<int>, mask: seq<int>, m: nat, i: nat)
    requires |mask| == 2 * env.rowSize && i < env.rowSize
    ensures var page, reduced := PageOf(env, terms, query, mask, m).lanes, ReducedOf(env, terms, query, m).lanes;
      && Canonical(page, env.rowSize, env.modulus)
      && page.first[i] == (At(reduced.first, i) * (if i % Pow2(m) == 0 then 1 else 0) + mask[i]) % env.modulus
      && page.second[i] == mask[env.rowSize + i] % env.modulus
  {
    hide Ladder, PlacedValues, PlacedQuery, WindowTotal, Pow2;
    var n, reduced := env.rowSize, ReducedOf(env, terms, query, m).lanes;
    MaskedLane(At(reduced.first, i), if i % Pow2(m) == 0 then 1 else 0, mask[i], env.modulus);
    MaskedLane(At(reduced.second, i), 0, mask[n + i], env.modulus);
  }

  // Every lane of the page: a segment start holds the segment's terms plus its
  // mask, any other lane of the batch holds the mask alone.
  lemma {:induction false} PageLanes(env: Env, terms: seq<Term>, query: seq<int>, mask: seq<int>, m: nat, i: nat)
    requires DistinctSlots(terms) && forall t | t in terms :: t.column < |query| && t.slot < env.rowSize
    requires |mask| == 2 * env.rowSize && env.rowSize % Pow2(m) == 0 && i < env.rowSize
    ensures var page := PageOf(env, terms, query, mask, m).lanes;
      && Canonical(page, env.rowSize, env.modulus)
      && page.first[i]
         == (mask[i] + (if i % Pow2(m) == 0 then WindowTotal(terms, query, i, Pow2(m)) else 0)) % env.modulus
      && page.second[i] == mask[env.rowSize + i] % env.modulus
  {
    hide PageOf;
    PageLane(env, terms, query, mask, m, i);
    if i % Pow2(m) == 0 {
      ReducedSegment(env.rowSize, env.modulus, terms, query, m, i);
      ModAdd(WindowTotal(terms, query, i, Pow2(m)), mask[i], env.modulus);
    }
  }

  lemma {:induction false} MaskedLane(lane: int, selected: int, mask: int, p: Positive)
    requires selected == 0 || selected == 1
    ensures ((lane * selected) % p + mask % p) % p == (lane * selected + mask) % p
    ensures 0 < p && (0 + mask % p) % p == mask % p
  {
    ModAdd(lane * selected, mask, p);
    ModAdd(0, mask, p);
  }
}
