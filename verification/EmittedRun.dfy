// What running the emitted program does, for any number of components and any
// ascending rotation ladder.
module EmittedRun {
  import opened Modular
  import opened Lanes
  import opened Reduction
  import opened Naming
  import opened Sequences
  import opened CloudProgram
  import opened Emitter
  import opened TypedRuns

  // ----- running one component -----

  // `kind` recovers the suffix from an identifier of the component.
  ghost predicate Inverts(kind: string -> Suffix, name: Suffix -> string) {
    forall s :: kind(name(s)) == s
  }

  ghost predicate Owned(kind: string -> Suffix, name: Suffix -> string, id: string) {
    name(kind(id)) == id
  }

  // `end` keeps every ciphertext of `st` and adds only identifiers of `name`.
  ghost predicate Extends(st: State, end: State, name: Suffix -> string, kind: string -> Suffix) {
    && Closed(end)
    && (forall id | id in st.ciphertexts :: id in end.ciphertexts && end.ciphertexts[id] == st.ciphertexts[id])
    && (forall id | id in end.ciphertexts && id !in st.ciphertexts :: Owned(kind, name, id))
  }

  predicate Computed(s: Suffix) { !s.Values? && !s.Query? && !s.F1MMask? }

  // What the component may still define after rotation `last` and span `span`.
  ghost predicate Pending(st: State, name: Suffix -> string, last: nat, span: nat) {
    forall s: Suffix ::
      (s.Rotated? && s.rotation > last) || (s.Sum? && s.width > span) || s.Selected? || s.Masked? || s.Page?
      ==> name(s) !in st.ciphertexts
  }

  // Every name the component uses with spans up to `total` is an acceptable identifier.
  ghost predicate Printable(name: Suffix -> string, total: nat) {
    forall s: Suffix :: (s.Rotated? ==> s.rotation <= total) && (s.Sum? ==> s.width <= total)
      ==> PrintableIdentifier(name(s))
  }

  predicate AscendingRotations(rotations: seq<nat>, last: nat)
    decreases |rotations|
  {
    rotations == [] || (last < rotations[0] && AscendingRotations(rotations[1..], rotations[0]))
  }

  // Catalog entry and generated key for every rotation.
  predicate Provisioned(env: Env, rotations: seq<nat>) {
    forall r | r in rotations :: r in env.rotations && env.rotations[r] == r && r in env.keys && InInt32(r)
  }

  function LadderOf(c: Ciphertext, rotations: seq<nat>, n: nat, p: Positive): Ciphertext {
    Ciphertext(
      Packed(Ladder(c.lanes.first, rotations, n, p), Ladder(c.lanes.second, rotations, n, p)), c.elements)
  }

  function LadderCounts(counts: Counts, rungs: nat): Counts {
    counts.(evalRotate := counts.evalRotate + rungs, evalAddCiphertext := counts.evalAddCiphertext + rungs)
  }

  lemma {:induction false} RunRung(
    env: Env, st: State, name: Suffix -> string, kind: string -> Suffix,
    reduced: Suffix, last: nat, span: nat, r: nat, total: nat)
    returns (end: State)
    requires Closed(st) && Inverts(kind, name) && last < r && Provisioned(env, [r])
    requires span + r <= total && Printable(name, total) && Pending(st, name, last, span)
    requires TwoElements(st, name(reduced))
    ensures Reaches(env, st, Rung(name, reduced, span, r), end)
    ensures Closed(end) && Extends(st, end, name, kind) && Pending(end, name, r, span + r)
    ensures name(Sum(span + r)) in end.ciphertexts && TwoElements(end, name(Sum(span + r)))
    ensures end.ciphertexts[name(Sum(span + r))] == EvalAdd(
              st.ciphertexts[name(reduced)], EvalRotate(st.ciphertexts[name(reduced)], r, env.rowSize),
              env.rowSize, env.modulus)
    ensures end.returned == st.returned
    ensures end.counts == LadderCounts(st.counts, 1)
  {
    hide Reaches;
    var rotated, summed := name(Rotated(r)), name(Sum(span + r));
    assert r in [r];
    var mid := TakeRotate(env, st, rotated, name(reduced), r);
    end := TakeAdd(env, mid, summed, name(reduced), rotated);
    ReachesAppend(
      env, st, [Rotate(rotated, name(reduced), r, r)], mid, [AddCiphertexts(summed, name(reduced), rotated)], end);
    assert [Rotate(rotated, name(reduced), r, r)] + [AddCiphertexts(summed, name(reduced), rotated)]
        == Rung(name, reduced, span, r);
  }

  // How the ladder unfolds at its first rung.
  lemma {:induction false} FirstRung(
    name: Suffix -> string, reduced: Suffix, last: nat, span: nat, rotations: seq<nat>,
    env: Env, c: Ciphertext, counts: Counts)
    requires rotations != [] && AscendingRotations(rotations, last) && Provisioned(env, rotations)
    ensures var r, rest := rotations[0], rotations[1..];
      && last < r && AscendingRotations(rest, r) && Provisioned(env, [r]) && Provisioned(env, rest)
      && Total(rotations) == r + Total(rest)
      && LadderNodes(name, reduced, span, rotations)
         == Rung(name, reduced, span, r) + LadderNodes(name, Sum(span + r), span + r, rest)
      && LastReduced(reduced, span, rotations) == LastReduced(Sum(span + r), span + r, rest)
      && LadderOf(EvalAdd(c, EvalRotate(c, r, env.rowSize), env.rowSize, env.modulus), rest, env.rowSize, env.modulus)
         == LadderOf(c, rotations, env.rowSize, env.modulus)
      && LadderCounts(LadderCounts(counts, 1), |rest|) == LadderCounts(counts, |rotations|)
  {
  }

  lemma {:induction false} NoRungs(
    env: Env, st: State, name: Suffix -> string, kind: string -> Suffix, reduced: Suffix, last: nat, span: nat)
    requires Closed(st) && Pending(st, name, last, span) && TwoElements(st, name(reduced))
    ensures Reaches(env, st, LadderNodes(name, reduced, span, []), st) && Extends(st, st, name, kind)
    ensures forall s: Suffix | s.Selected? || s.Masked? || s.Page? :: name(s) !in st.ciphertexts
    ensures LastReduced(reduced, span, []) == reduced && name(reduced) in st.ciphertexts
    ensures LadderOf(st.ciphertexts[name(reduced)], [], env.rowSize, env.modulus) == st.ciphertexts[name(reduced)]
    ensures LadderCounts(st.counts, 0) == st.counts
  {
  }

  lemma {:induction false} ExtendsTransitive(st: State, mid: State, end: State, name: Suffix -> string, kind: string -> Suffix)
    requires Extends(st, mid, name, kind) && Extends(mid, end, name, kind)
    ensures Extends(st, end, name, kind)
  {
  }

  lemma {:induction false} RunLadder(
    env: Env, st: State, name: Suffix -> string, kind: string -> Suffix,
    reduced: Suffix, last: nat, span: nat, rotations: seq<nat>, total: nat)
    returns (end: State)
    requires Closed(st) && Inverts(kind, name)
    requires AscendingRotations(rotations, last) && Provisioned(env, rotations)
    requires span + Total(rotations) <= total && Printable(name, total)
    requires Pending(st, name, last, span)
    requires name(reduced) in st.ciphertexts && TwoElements(st, name(reduced))
    ensures Reaches(env, st, LadderNodes(name, reduced, span, rotations), end)
    ensures Extends(st, end, name, kind)
    ensures forall s: Suffix | s.Selected? || s.Masked? || s.Page? :: name(s) !in end.ciphertexts
    ensures name(LastReduced(reduced, span, rotations)) in end.ciphertexts
    ensures end.ciphertexts[name(LastReduced(reduced, span, rotations))]
         == LadderOf(st.ciphertexts[name(reduced)], rotations, env.rowSize, env.modulus)
    ensures end.returned == st.returned
    ensures end.counts == LadderCounts(st.counts, |rotations|)
    decreases |rotations|
  {
    hide *;
    if rotations == [] {
      NoRungs(env, st, name, kind, reduced, last, span);
      return st;
    }
    var r, rest := rotations[0], rotations[1..];
    FirstRung(name, reduced, last, span, rotations, env, st.ciphertexts[name(reduced)], st.counts);
    var mid := RunRung(env, st, name, kind, reduced, last, span, r, total);
    end := RunLadder(env, mid, name, kind, Sum(span + r), r, span + r, rest, total);
    ReachesAppend(env, st, Rung(name, reduced, span, r), mid,
                  LadderNodes(name, Sum(span + r), span + r, rest), end);
    ExtendsTransitive(st, mid, end, name, kind);
  }

  // Both rows of the ciphertext hold the windows of that width.
  ghost predicate BothHoldWindows(c: Ciphertext, source: Ciphertext, w: nat, p: Positive) {
    && HoldsWindows(c.lanes.first, source.lanes.first, w, p)
    && HoldsWindows(c.lanes.second, source.lanes.second, w, p)
  }

  ghost predicate LabelsHold(
    end: State, name: Suffix -> string, source: Ciphertext, from: nat, to: nat, n: nat, p: Positive)
  {
    forall k | from < k <= to ::
      && name(Sum(Pow2(k))) in end.ciphertexts
      && |end.ciphertexts[name(Sum(Pow2(k)))].lanes.first| == n
      && |end.ciphertexts[name(Sum(Pow2(k)))].lanes.second| == n
      && BothHoldWindows(end.ciphertexts[name(Sum(Pow2(k)))], source, Pow2(k), p)
  }

  // Whatever the depth m, every sum the ladder leaves holds what its label says:
  // the sum labelled 2^k holds in every lane of either row the cyclic sum of the
  // next 2^k lanes of the relinearised product.
  lemma {:induction false} SumHoldsLabelledWindow(
    env: Env, st: State, name: Suffix -> string, kind: string -> Suffix, m: nat)
    returns (end: State)
    requires Closed(st) && Inverts(kind, name) && Provisioned(env, PowersOfTwo(0, m))
    requires Printable(name, Pow2(m)) && Pending(st, name, 0, 1)
    requires name(Relin) in st.ciphertexts && TwoElements(st, name(Relin))
    requires Canonical(st.ciphertexts[name(Relin)].lanes, env.rowSize, env.modulus)
    ensures Reaches(env, st, LadderNodes(name, Relin, 1, PowersOfTwo(0, m)), end)
    ensures LabelsHold(end, name, st.ciphertexts[name(Relin)], 0, m, env.rowSize, env.modulus)
  {
    hide Reaches, LadderNodes, Pending, Printable, Inverts, HoldsWindows;
    var source := st.ciphertexts[name(Relin)];
    ResiduesHoldUnitWindows(source.lanes.first, env.modulus);
    ResiduesHoldUnitWindows(source.lanes.second, env.modulus);
    end := RunWindows(env, st, name, kind, Relin, source, 0, 0, m);
  }

  // One rung doubles the window of the ciphertext it adds.
  lemma {:induction false} RungDoubles(
    env: Env, st: State, name: Suffix -> string, kind: string -> Suffix,
    reduced: Suffix, source: Ciphertext, last: nat, r: nat, total: nat)
    returns (end: State)
    requires Closed(st) && Inverts(kind, name) && last < r && Provisioned(env, [r])
    requires r + r <= total && Printable(name, total) && Pending(st, name, last, r) && TwoElements(st, name(reduced))
    requires |source.lanes.first| == |source.lanes.second| == env.rowSize
    requires BothHoldWindows(st.ciphertexts[name(reduced)], source, r, env.modulus)
    ensures Reaches(env, st, Rung(name, reduced, r, r), end)
    ensures Closed(end) && Extends(st, end, name, kind) && Pending(end, name, r, r + r)
    ensures name(Sum(r + r)) in end.ciphertexts && TwoElements(end, name(Sum(r + r)))
    ensures BothHoldWindows(end.ciphertexts[name(Sum(r + r))], source, r + r, env.modulus)
  {
    hide Reaches, Pending, Printable, Inverts, HoldsWindows, AddRows, RotateRow, Provisioned, Closed, Rung, Extends;
    var held := st.ciphertexts[name(reduced)];
    WindowsFit(held, source, r, env.modulus);
    end := RunRung(env, st, name, kind, reduced, last, r, r, total);
    LadderStep(held.lanes.first, source.lanes.first, r, env.modulus);
    LadderStep(held.lanes.second, source.lanes.second, r, env.modulus);
  }

  lemma {:induction false} RunWindows(
    env: Env, st: State, name: Suffix -> string, kind: string -> Suffix,
    reduced: Suffix, source: Ciphertext, last: nat, j: nat, count: nat)
    returns (end: State)
    requires Closed(st) && Inverts(kind, name) && last < Pow2(j) && Provisioned(env, PowersOfTwo(j, count))
    requires Printable(name, Pow2(j + count)) && Pending(st, name, last, Pow2(j))
    requires name(reduced) in st.ciphertexts && TwoElements(st, name(reduced))
    requires |source.lanes.first| == |source.lanes.second| == env.rowSize
    requires BothHoldWindows(st.ciphertexts[name(reduced)], source, Pow2(j), env.modulus)
    ensures Reaches(env, st, LadderNodes(name, reduced, Pow2(j), PowersOfTwo(j, count)), end)
    ensures Extends(st, end, name, kind)
    ensures LabelsHold(end, name, source, j, j + count, env.rowSize, env.modulus)
    decreases count
  {
    hide *;
    if count == 0 {
      NothingLabelled(env, st, name, kind, reduced, Pow2(j));
      NoLabels(st, name, source, j, env.rowSize, env.modulus);
      assert PowersOfTwo(j, count) == [];
      return st;
    }
    var r, rest := Pow2(j), PowersOfTwo(j + 1, count - 1);
    FirstPower(j, count);
    PowersAscend(j, count, last);
    FirstRung(name, reduced, last, r, PowersOfTwo(j, count), env, source, st.counts);
    PowersGrow(j + 1, j + count);
    var mid := RungDoubles(env, st, name, kind, reduced, source, last, r, Pow2(j + count));
    end := RunWindows(env, mid, name, kind, Sum(r + r), source, r, j + 1, count - 1);
    ReachesAppend(env, st, Rung(name, reduced, r, r), mid, LadderNodes(name, Sum(r + r), r + r, rest), end);
    ExtendsTransitive(st, mid, end, name, kind);
    OneMoreLabel(mid, end, name, kind, source, j, j + count, env.rowSize, env.modulus);
  }

  lemma {:induction false} FirstPower(j: nat, count: nat)
    requires 0 < count
    ensures var rotations := PowersOfTwo(j, count);
      rotations != [] && rotations[0] == Pow2(j) && rotations[1..] == PowersOfTwo(j + 1, count - 1)
    ensures Pow2(j + 1) == Pow2(j) + Pow2(j)
  {
  }

  lemma {:induction false} NoLabels(
    end: State, name: Suffix -> string, source: Ciphertext, j: nat, n: nat, p: Positive)
    ensures LabelsHold(end, name, source, j, j, n, p)
  {
  }

  lemma {:induction false} OneMoreLabel(
    mid: State, end: State, name: Suffix -> string, kind: string -> Suffix, source: Ciphertext, j: nat, to: nat,
    n: nat, p: Positive)
    requires Extends(mid, end, name, kind) && TwoElements(mid, name(Sum(Pow2(j + 1))))
    requires |source.lanes.first| == |source.lanes.second| == n
    requires BothHoldWindows(mid.ciphertexts[name(Sum(Pow2(j + 1)))], source, Pow2(j + 1), p)
    requires LabelsHold(end, name, source, j + 1, to, n, p)
    ensures LabelsHold(end, name, source, j, to, n, p)
  {
    WindowsFit(mid.ciphertexts[name(Sum(Pow2(j + 1)))], source, Pow2(j + 1), p);
    hide HoldsWindows, Pow2;
  }

  lemma {:induction false} NothingLabelled(
    env: Env, st: State, name: Suffix -> string, kind: string -> Suffix, reduced: Suffix, span: nat)
    requires Closed(st)
    ensures Reaches(env, st, LadderNodes(name, reduced, span, []), st) && Extends(st, st, name, kind)
  {
    ReachesNothing(env, st);
  }

  lemma {:induction false} WindowsFit(c: Ciphertext, source: Ciphertext, w: nat, p: Positive)
    requires BothHoldWindows(c, source, w, p)
    ensures |c.lanes.first| == |source.lanes.first| && |c.lanes.second| == |source.lanes.second|
  {
  }

  lemma {:induction false} PowersGrow(a: nat, b: nat)
    requires a <= b
    ensures Pow2(a) <= Pow2(b)
    decreases b - a
  {
    if a < b {
      PowersGrow(a + 1, b);
    }
  }

  lemma {:induction false} PowersAscend(from: nat, count: nat, last: nat)
    requires last < Pow2(from)
    ensures AscendingRotations(PowersOfTwo(from, count), last)
    decreases count
  {
    if count > 0 {
      assert PowersOfTwo(from, count)[1..] == PowersOfTwo(from + 1, count - 1);
      PowersAscend(from + 1, count - 1, Pow2(from));
    }
  }

  // What one component computes: the hand-executed composition of the circuit.
  function ComponentResult(
    env: Env, values: Ciphertext, query: Ciphertext, f1m: Ciphertext, starts: Packed, rotations: seq<nat>)
    : Ciphertext
  {
    var product := EvalMultNoRelin(values, query, env.rowSize, env.modulus);
    var reduced := LadderOf(Relinearized(product), rotations, env.rowSize, env.modulus);
    EvalAdd(EvalMultPlain(reduced, starts, env.rowSize, env.modulus), f1m, env.rowSize, env.modulus)
  }

  // The encrypted inputs of one component are present.
  ghost predicate InputsReady(env: Env, st: State, name: Suffix -> string) {
    forall s | !Computed(s) ::
      name(s) in st.ciphertexts && st.ciphertexts[name(s)].elements == 2
  }

  function ComponentCounts(counts: Counts, components: nat, depth: nat): Counts {
    Counts(counts.addF1MMask + components,
           counts.evalAddCiphertext + components * depth,
           counts.evalMultPlaintextMask + components,
           counts.multiplyCiphertexts + components,
           counts.evalRotate + components * depth,
           counts.relinearize + components,
           counts.returnResult + components)
  }

  lemma {:induction false} RunPrologue(
    env: Env, st: State, name: Suffix -> string, kind: string -> Suffix, total: nat)
    returns (end: State)
    requires Closed(st) && Inverts(kind, name) && Printable(name, total)
    requires InputsReady(env, st, name)
    requires forall s | Computed(s) :: name(s) !in st.ciphertexts
    ensures Reaches(env, st, Prologue(name), end)
    ensures Closed(end) && Extends(st, end, name, kind) && Pending(end, name, 0, 1)
    ensures name(F1MMask) in st.ciphertexts && name(F1MMask) in end.ciphertexts
    ensures end.ciphertexts[name(F1MMask)] == st.ciphertexts[name(F1MMask)]
    ensures name(Relin) in end.ciphertexts && TwoElements(end, name(Relin))
    ensures name(Values) in st.ciphertexts && name(Query) in st.ciphertexts
    ensures end.ciphertexts[name(Relin)] == Relinearized(EvalMultNoRelin(
              st.ciphertexts[name(Values)], st.ciphertexts[name(Query)], env.rowSize, env.modulus))
    ensures end.returned == st.returned
    ensures end.counts == st.counts.(multiplyCiphertexts := st.counts.multiplyCiphertexts + 1,
                                     relinearize := st.counts.relinearize + 1)
  {
    hide Reaches, Inverts, Extends, Pending, Printable;
    PrologueReady(env, st, name, total);
    var multiply := MultiplyCiphertexts(name(Product), name(Values), name(Query));
    var relinearize := Relinearize(name(Relin), name(Product));
    var mid := TakeMultiply(env, st, name(Product), name(Values), name(Query));
    assert name(Product) != name(Relin) by { ProductIsNotRelin(name, kind); }
    end := TakeRelinearize(env, mid, name(Relin), name(Product));
    ReachesAppend(env, st, [multiply], mid, [relinearize], end);
    assert [multiply] + [relinearize] == Prologue(name);
    PrologueDefines(st, end, name, kind, mid.ciphertexts[name(Product)], end.ciphertexts[name(Relin)]);
  }

  lemma {:induction false} PrologueReady(env: Env, st: State, name: Suffix -> string, total: nat)
    requires Printable(name, total) && InputsReady(env, st, name)
    ensures PrintableIdentifier(name(Product)) && PrintableIdentifier(name(Relin))
    ensures TwoElements(st, name(Values)) && TwoElements(st, name(Query)) && TwoElements(st, name(F1MMask))
  {
    hide PrintableIdentifier;
    assert !Computed(Values) && !Computed(Query) && !Computed(F1MMask);
  }

  lemma {:induction false} ProductIsNotRelin(name: Suffix -> string, kind: string -> Suffix)
    requires Inverts(kind, name)
    ensures name(Product) != name(Relin)
  {
    assert kind(name(Product)) == Product && kind(name(Relin)) == Relin;
  }

  // What the two definitions leave pending and untouched.
  lemma {:induction false} PrologueDefines(
    st: State, end: State, name: Suffix -> string, kind: string -> Suffix, product: Ciphertext, relin: Ciphertext)
    requires Closed(end) && Inverts(kind, name) && forall s | Computed(s) :: name(s) !in st.ciphertexts
    requires end.ciphertexts == st.ciphertexts[name(Product) := product][name(Relin) := relin]
    ensures Extends(st, end, name, kind) && Pending(end, name, 0, 1)
  {
    assert kind(name(Product)) == Product && kind(name(Relin)) == Relin;
    forall s: Suffix | s != Product && s != Relin ensures name(s) != name(Product) && name(s) != name(Relin) {
      assert kind(name(s)) == s;
    }
  }

  lemma {:induction false} RunEpilogue(
    env: Env, st: State, name: Suffix -> string, kind: string -> Suffix, reduced: Suffix, total: nat)
    returns (end: State)
    requires Closed(st) && Inverts(kind, name) && Printable(name, total)
    requires SEGMENT_STARTS in env.masks
    requires name(reduced) in st.ciphertexts && TwoElements(st, name(reduced))
    requires name(F1MMask) in st.ciphertexts && TwoElements(st, name(F1MMask))
    requires forall s: Suffix | s.Selected? || s.Masked? || s.Page? :: name(s) !in st.ciphertexts
    ensures Reaches(env, st, Epilogue(name, reduced), end)
    ensures Closed(end) && Extends(st, end, name, kind)
    ensures name(Page) in end.ciphertexts
    ensures end.ciphertexts[name(Page)] == EvalAdd(
              EvalMultPlain(st.ciphertexts[name(reduced)], env.masks[SEGMENT_STARTS], env.rowSize, env.modulus),
              st.ciphertexts[name(F1MMask)], env.rowSize, env.modulus)
    ensures end.returned == st.returned + [name(Page)]
    ensures end.counts == st.counts.(evalMultPlaintextMask := st.counts.evalMultPlaintextMask + 1,
                                     addF1MMask := st.counts.addF1MMask + 1,
                                     returnResult := st.counts.returnResult + 1)
  {
    hide Reaches;
    var select := MultiplyPlaintextMask(name(Selected), name(reduced), SEGMENT_STARTS);
    var blind := AddF1MMask(name(Masked), name(Selected), name(F1MMask), OPAQUE_ZERO_SUM);
    var ret := ReturnResult(name(Page), name(Masked));
    var st1 := TakeSelect(env, st, name(Selected), name(reduced), SEGMENT_STARTS);
    assert TwoElements(st1, name(F1MMask));
    var st2 := TakeBlind(env, st1, name(Masked), name(Selected), name(F1MMask));
    end := TakeReturn(env, st2, name(Page), name(Masked));
    ReachesAppend(env, st, [select], st1, [blind], st2);
    ReachesAppend(env, st, [select] + [blind], st2, [ret], end);
    assert [select] + [blind] + [ret] == Epilogue(name, reduced);
  }

  // Product, relinearisation and ladder.
  lemma {:induction false} RunReduction(
    env: Env, st: State, name: Suffix -> string, kind: string -> Suffix, rotations: seq<nat>, total: nat)
    returns (end: State)
    requires Closed(st) && Inverts(kind, name) && Printable(name, total) && 1 + Total(rotations) <= total
    requires AscendingRotations(rotations, 0) && Provisioned(env, rotations)
    requires InputsReady(env, st, name)
    requires forall s | Computed(s) :: name(s) !in st.ciphertexts
    ensures Reaches(env, st, Prologue(name) + LadderNodes(name, Relin, 1, rotations), end)
    ensures Closed(end) && Extends(st, end, name, kind)
    ensures forall s: Suffix | s.Selected? || s.Masked? || s.Page? :: name(s) !in end.ciphertexts
    ensures name(F1MMask) in st.ciphertexts && name(F1MMask) in end.ciphertexts
    ensures end.ciphertexts[name(F1MMask)] == st.ciphertexts[name(F1MMask)] && TwoElements(end, name(F1MMask))
    ensures name(Values) in st.ciphertexts && name(Query) in st.ciphertexts
    ensures var reduced := name(LastReduced(Relin, 1, rotations));
      && reduced in end.ciphertexts && TwoElements(end, reduced)
      && end.ciphertexts[reduced] == LadderOf(
           Relinearized(EvalMultNoRelin(
             st.ciphertexts[name(Values)], st.ciphertexts[name(Query)], env.rowSize, env.modulus)),
           rotations, env.rowSize, env.modulus)
    ensures end.returned == st.returned
    ensures end.counts == LadderCounts(
              st.counts.(multiplyCiphertexts := st.counts.multiplyCiphertexts + 1,
                         relinearize := st.counts.relinearize + 1), |rotations|)
  {
    hide Reaches, LadderNodes, Prologue, EvalAdd, EvalMultNoRelin, Ladder, Pending, Printable, Provisioned;
    var mid := RunPrologue(env, st, name, kind, total);
    end := RunLadder(env, mid, name, kind, Relin, 0, 1, rotations, total);
    assert !Computed(F1MMask);
    ReachesAppend(env, st, Prologue(name), mid, LadderNodes(name, Relin, 1, rotations), end);
    ExtendsTransitive(st, mid, end, name, kind);
  }

  // The state after one component: the returned page, the frame and the counters.
  ghost predicate ComponentDone(
    env: Env, st: State, end: State, name: Suffix -> string, kind: string -> Suffix, rotations: seq<nat>)
  {
    && SEGMENT_STARTS in env.masks
    && name(Values) in st.ciphertexts && name(Query) in st.ciphertexts && name(F1MMask) in st.ciphertexts
    && Extends(st, end, name, kind)
    && name(Page) in end.ciphertexts
    && end.ciphertexts[name(Page)] == ComponentResult(
         env, st.ciphertexts[name(Values)], st.ciphertexts[name(Query)], st.ciphertexts[name(F1MMask)],
         env.masks[SEGMENT_STARTS], rotations)
    && end.returned == st.returned + [name(Page)]
    && end.counts == ComponentCounts(st.counts, 1, |rotations|)
  }

  lemma {:induction false} ComponentTotals(counts: Counts, depth: nat)
    ensures var multiplied := counts.(multiplyCiphertexts := counts.multiplyCiphertexts + 1,
                                      relinearize := counts.relinearize + 1);
      var laddered := LadderCounts(multiplied, depth);
      laddered.(evalMultPlaintextMask := laddered.evalMultPlaintextMask + 1,
                addF1MMask := laddered.addF1MMask + 1,
                returnResult := laddered.returnResult + 1) == ComponentCounts(counts, 1, depth)
  {
  }

  lemma {:induction false} RunComponent(
    env: Env, st: State, name: Suffix -> string, kind: string -> Suffix, rotations: seq<nat>)
    returns (end: State)
    requires Closed(st) && Inverts(kind, name)
    requires Printable(name, 1 + Total(rotations))
    requires AscendingRotations(rotations, 0) && Provisioned(env, rotations)
    requires SEGMENT_STARTS in env.masks
    requires InputsReady(env, st, name)
    requires forall s | Computed(s) :: name(s) !in st.ciphertexts
    ensures Closed(end) && Reaches(env, st, NodesOf(name, rotations), end)
    ensures ComponentDone(env, st, end, name, kind, rotations)
  {
    hide Reaches, LadderNodes, Prologue, Epilogue, EvalAdd, EvalMultPlain, EvalMultNoRelin, Ladder;
    var total := 1 + Total(rotations);
    var mid := RunReduction(env, st, name, kind, rotations, total);
    end := RunEpilogue(env, mid, name, kind, LastReduced(Relin, 1, rotations), total);
    ReachesAppend(env, st, Prologue(name) + LadderNodes(name, Relin, 1, rotations), mid,
                  Epilogue(name, LastReduced(Relin, 1, rotations)), end);
    ExtendsTransitive(st, mid, end, name, kind);
    ComponentTotals(st.counts, |rotations|);
  }

  // ----- running all components -----

  ghost function KindOf(component: string): string -> Suffix {
    id => if exists s :: NamesOf(component)(s) == id then var s :| NamesOf(component)(s) == id; s else Values
  }

  lemma {:induction false} KindInverts(component: string)
    ensures Inverts(KindOf(component), NamesOf(component))
  {
    forall s ensures KindOf(component)(NamesOf(component)(s)) == s {
      var id := NamesOf(component)(s);
      NamesDisjoint(component, KindOf(component)(id), component, s);
    }
  }

  predicate PrintableText(value: string) {
    forall i | 0 <= i < |value| :: '!' <= value[i] <= '~'
  }

  lemma {:induction false} SuffixFits(s: Suffix, total: nat)
    requires (s.Rotated? ==> s.rotation <= total) && (s.Sum? ==> s.width <= total)
    ensures PrintableText(Text(s)) && 0 < |Text(s)| <= 13 + |Decimal(total)|
  {
    match s
    case Rotated(n) => DecimalLengthMonotone(n, total);
    case Sum(n) => DecimalLengthMonotone(n, total);
    case _ =>
  }

  // A component name leaves room for the longest suffix.
  predicate GoodName(component: string, total: nat) {
    PrintableText(component) && |component| + 13 + |Decimal(total)| <= 512
  }

  lemma {:induction false} GoodNamePrints(component: string, total: nat)
    requires GoodName(component, total)
    ensures Printable(NamesOf(component), total)
  {
    hide Text;
    forall s: Suffix | (s.Rotated? ==> s.rotation <= total) && (s.Sum? ==> s.width <= total)
      ensures PrintableIdentifier(NamesOf(component)(s))
    {
      SuffixFits(s, total);
    }
  }

  ghost predicate FreshFor(st: State, component: string) {
    forall s | Computed(s) :: NamesOf(component)(s) !in st.ciphertexts
  }

  lemma {:induction false} OthersStayFresh(st: State, mid: State, c: string, d: string)
    requires c != d && Extends(st, mid, NamesOf(c), KindOf(c)) && FreshFor(st, d)
    ensures FreshFor(mid, d)
  {
    forall s | Computed(s) ensures NamesOf(d)(s) !in mid.ciphertexts {
      var id := NamesOf(d)(s);
      if id in mid.ciphertexts {
        assert Owned(KindOf(c), NamesOf(c), id);
        NamesDisjoint(c, KindOf(c)(id), d, s);
      }
    }
  }

  lemma {:induction false} OthersStayReady(env: Env, st: State, mid: State, c: string, d: string)
    requires Extends(st, mid, NamesOf(c), KindOf(c)) && InputsReady(env, st, NamesOf(d))
    ensures InputsReady(env, mid, NamesOf(d))
  {
  }

  function ResultIds(components: seq<string>): seq<string> {
    seq(|components|, i requires 0 <= i < |components| => NamesOf(components[i])(Page))
  }

  // The returned page of component c is the circuit applied to its own inputs.
  ghost predicate PageComputed(env: Env, st: State, end: State, c: string, rotations: seq<nat>) {
    var name := NamesOf(c);
    && SEGMENT_STARTS in env.masks && name(Page) in end.ciphertexts
    && name(Values) in st.ciphertexts && name(Query) in st.ciphertexts && name(F1MMask) in st.ciphertexts
    && end.ciphertexts[name(Page)] == ComponentResult(
         env, st.ciphertexts[name(Values)], st.ciphertexts[name(Query)], st.ciphertexts[name(F1MMask)],
         env.masks[SEGMENT_STARTS], rotations)
  }

  ghost predicate Keeps(st: State, end: State) {
    forall id | id in st.ciphertexts :: id in end.ciphertexts && end.ciphertexts[id] == st.ciphertexts[id]
  }

  ghost predicate ReadyFor(env: Env, st: State, c: string, rotations: seq<nat>) {
    InputsReady(env, st, NamesOf(c)) && FreshFor(st, c) && GoodName(c, 1 + Total(rotations))
  }

  ghost predicate Equipped(env: Env, rotations: seq<nat>) {
    AscendingRotations(rotations, 0) && Provisioned(env, rotations) && SEGMENT_STARTS in env.masks
  }

  lemma {:induction false} RunNamedComponent(env: Env, st: State, c: string, rotations: seq<nat>) returns (end: State)
    requires Closed(st) && Equipped(env, rotations) && ReadyFor(env, st, c, rotations)
    ensures Closed(end) && Reaches(env, st, NodesOf(NamesOf(c), rotations), end)
    ensures PageComputed(env, st, end, c, rotations) && Keeps(st, end)
    ensures end.returned == st.returned + [NamesOf(c)(Page)]
    ensures end.counts == ComponentCounts(st.counts, 1, |rotations|)
    ensures forall d | d != c && ReadyFor(env, st, d, rotations) :: ReadyFor(env, end, d, rotations)
  {
    hide Reaches, NodesOf, ComponentResult, Text;
    KindInverts(c);
    GoodNamePrints(c, 1 + Total(rotations));
    end := RunComponent(env, st, NamesOf(c), KindOf(c), rotations);
    forall d | d != c && ReadyFor(env, st, d, rotations) ensures ReadyFor(env, end, d, rotations) {
      OthersStayFresh(st, end, c, d);
      OthersStayReady(env, st, end, c, d);
    }
  }

  lemma {:induction false} CountsAddUp(counts: Counts, rest: nat, depth: nat)
    ensures ComponentCounts(ComponentCounts(counts, 1, depth), rest, depth) == ComponentCounts(counts, rest + 1, depth)
  {
    assert (rest + 1) * depth == rest * depth + depth;
  }

  lemma {:induction false} KeepsPage(env: Env, st: State, mid: State, end: State, c: string, rotations: seq<nat>)
    requires Keeps(st, mid) && Keeps(mid, end)
    ensures PageComputed(env, st, mid, c, rotations) ==> PageComputed(env, st, end, c, rotations)
    ensures InputsReady(env, st, NamesOf(c)) && PageComputed(env, mid, end, c, rotations)
        ==> PageComputed(env, st, end, c, rotations)
  {
    assert !Computed(Values) && !Computed(Query) && !Computed(F1MMask);
  }

  // The emitted program runs to the end with every operand defined and typed,
  // returns the pages in order, and leaves in each page the circuit's value.
  lemma {:induction false} RunProgram(env: Env, st: State, components: seq<string>, rotations: seq<nat>)
    returns (end: State)
    requires Closed(st) && Equipped(env, rotations) && NoRepeat(components)
    requires forall c | c in components :: ReadyFor(env, st, c, rotations)
    ensures Reaches(env, st, ProgramNodes(components, rotations), end) && Keeps(st, end)
    ensures forall c | c in components :: PageComputed(env, st, end, c, rotations)
    ensures end.returned == st.returned + ResultIds(components)
    ensures end.counts == ComponentCounts(st.counts, |components|, |rotations|)
    decreases |components|
  {
    hide *;
    ProgramUnfolds(components, rotations);
    if components == [] {
      ReachesNothing(env, st);
      NothingRun(st, |rotations|);
      return st;
    }
    var first, rest := components[0], components[1..];
    var mid := RunNamedComponent(env, st, first, rotations);
    end := RunProgram(env, mid, rest, rotations);
    ReachesAppend(env, st, NodesOf(NamesOf(first), rotations), mid, ProgramNodes(rest, rotations), end);
    CountsAddUp(st.counts, |rest|, |rotations|);
    KeepsOn(st, mid, end);
    forall c | c in components ensures PageComputed(env, st, end, c, rotations) {
      assert InputsReady(env, st, NamesOf(c)) by { ReadyInputs(env, st, c, rotations); }
      KeepsPage(env, st, mid, end, c, rotations);
    }
  }

  lemma {:induction false} RestDistinct(components: seq<string>)
    requires NoRepeat(components)
    ensures components != [] ==> NoRepeat(components[1..]) && components[0] !in components[1..]
  {
  }

  lemma {:induction false} ProgramUnfolds(components: seq<string>, rotations: seq<nat>)
    requires NoRepeat(components)
    ensures components == [] ==> ProgramNodes(components, rotations) == [] && ResultIds(components) == []
    ensures components != [] ==>
      && NoRepeat(components[1..]) && components[0] !in components[1..]
      && ProgramNodes(components, rotations)
         == NodesOf(NamesOf(components[0]), rotations) + ProgramNodes(components[1..], rotations)
      && ResultIds(components) == [NamesOf(components[0])(Page)] + ResultIds(components[1..])
  {
    hide NodesOf, NamesOf;
    RestDistinct(components);
  }

  lemma {:induction false} NothingRun(st: State, depth: nat)
    ensures Keeps(st, st) && ComponentCounts(st.counts, 0, depth) == st.counts
  {
  }

  lemma {:induction false} KeepsOn(st: State, mid: State, end: State)
    requires Keeps(st, mid) && Keeps(mid, end)
    ensures Keeps(st, end)
  {
  }

  lemma {:induction false} ReadyInputs(env: Env, st: State, c: string, rotations: seq<nat>)
    requires ReadyFor(env, st, c, rotations)
    ensures InputsReady(env, st, NamesOf(c))
  {
  }
}
