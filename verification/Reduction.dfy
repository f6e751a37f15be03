// The two rotate-and-add reductions: the log-depth ladder of the packed
// component and the star used for base operands.
module Reduction {
  import opened Modular
  import opened Lanes

  function Pow2(k: nat): (r: nat)
    ensures 0 < r
  {
    if k == 0 then 1 else 2 * Pow2(k - 1)
  }

  // ----- reference definition: the cyclic window sum -----

  // The sum of w consecutive lanes of the row starting at lane i, cyclically.
  ghost function WindowSum(row: seq<int>, i: int, w: nat): int
    requires |row| > 0
  {
    if w == 0 then 0 else WindowSum(row, i, w - 1) + row[(i + (w - 1)) % |row|]
  }

  function SumOf(s: seq<int>): int {
    if s == [] then 0 else SumOf(s[..|s| - 1]) + s[|s| - 1]
  }

  lemma {:induction false} WindowSplit(row: seq<int>, i: int, a: nat, b: nat)
    requires |row| > 0
    ensures WindowSum(row, i, a + b) == WindowSum(row, i, a) + WindowSum(row, i + a, b)
  {
    if b > 0 {
      WindowSplit(row, i, a, b - 1);
      assert i + (a + b - 1) == (i + a) + (b - 1);
    }
  }

  lemma {:induction false} WindowPeriodic(row: seq<int>, i: int, w: nat)
    requires |row| > 0
    ensures WindowSum(row, i % |row|, w) == WindowSum(row, i, w)
  {
    if w > 0 {
      WindowPeriodic(row, i, w - 1);
      ModAdd(i, w - 1, |row|);
    }
  }

  // A window that does not run past the end of the row is a plain slice sum.
  lemma {:induction false} WindowWithoutWrap(row: seq<int>, i: nat, w: nat)
    requires i + w <= |row| && |row| > 0
    ensures WindowSum(row, i, w) == SumOf(row[i..i + w])
  {
    if w > 0 {
      WindowWithoutWrap(row, i, w - 1);
      ModSmall(i + (w - 1), |row|);
      assert row[i..i + w][..w - 1] == row[i..i + (w - 1)];
    }
  }

  // ----- the reductions -----

  // reduced := reduced + rotate(reduced, r) for every rotation in turn.
  function Ladder(row: seq<int>, rotations: seq<int>, n: nat, p: Positive): (r: seq<int>)
    ensures |row| == n ==> |r| == n
    decreases |rotations|
  {
    if rotations == [] then row
    else Ladder(AddRows(row, RotateRow(row, rotations[0], n), n, p), rotations[1..], n, p)
  }

  // accumulated := accumulated + rotate(source, r) for every rotation in turn.
  function Star(accumulated: seq<int>, source: seq<int>, rotations: seq<int>, n: nat, p: Positive): (r: seq<int>)
    ensures |accumulated| == n ==> |r| == n
    decreases |rotations|
  {
    if rotations == [] then accumulated
    else Star(AddRows(accumulated, RotateRow(source, rotations[0], n), n, p), source, rotations[1..], n, p)
  }

  // 2^from, ..., 2^(from + count - 1)
  function PowersOfTwo(from: nat, count: nat): (r: seq<nat>)
    ensures |r| == count
  {
    seq<nat>(count, i requires 0 <= i < count => Pow2(from + i))
  }

  function Consecutive(from: nat, count: nat): (r: seq<int>)
    ensures |r| == count
  {
    seq(count, i requires 0 <= i < count => from + i)
  }

  // Every lane holds the window sum of width w starting at it.
  ghost predicate HoldsWindows(row: seq<int>, source: seq<int>, w: nat, p: Positive)
  {
    |row| == |source| && forall i | 0 <= i < |row| :: row[i] == WindowSum(source, i, w) % p
  }

  lemma {:induction false} LadderLane(row: seq<int>, source: seq<int>, w: nat, p: Positive, i: nat)
    requires HoldsWindows(row, source, w, p) && i < |row|
    ensures AddRows(row, RotateRow(row, w, |row|), |row|, p)[i] == WindowSum(source, i, w + w) % p
  {
    hide WindowSum;
    var n := |row|;
    var j, near, far := (i + w) % n, WindowSum(source, i, w), WindowSum(source, i + w, w);
    WindowSplit(source, i, w, w);
    WindowPeriodic(source, i + w, w);
    assert At(RotateRow(row, w, n), i) == At(row, j) == far % p;
    ModAdd(near, far, p);
  }

  lemma {:induction false} LadderStep(row: seq<int>, source: seq<int>, w: nat, p: Positive)
    requires HoldsWindows(row, source, w, p)
    ensures HoldsWindows(AddRows(row, RotateRow(row, w, |row|), |row|, p), source, w + w, p)
  {
    hide WindowSum, AddRows, RotateRow;
    forall i | 0 <= i < |row|
      ensures AddRows(row, RotateRow(row, w, |row|), |row|, p)[i] == WindowSum(source, i, w + w) % p
    {
      LadderLane(row, source, w, p, i);
    }
  }

  lemma {:induction false} LadderFrom(row: seq<int>, source: seq<int>, from: nat, count: nat, p: Positive)
    requires HoldsWindows(row, source, Pow2(from), p)
    ensures HoldsWindows(Ladder(row, PowersOfTwo(from, count), |row|, p), source, Pow2(from + count), p)
    decreases count
  {
    if count > 0 {
      var rotations := PowersOfTwo(from, count);
      assert rotations[0] == Pow2(from);
      assert rotations[1..] == PowersOfTwo(from + 1, count - 1);
      LadderStep(row, source, Pow2(from), p);
      LadderFrom(AddRows(row, RotateRow(row, Pow2(from), |row|), |row|, p), source, from + 1, count - 1, p);
    }
  }

  lemma {:induction false} ResiduesHoldUnitWindows(row: seq<int>, p: Positive)
    requires Residues(row, p)
    ensures HoldsWindows(row, row, 1, p)
  {
    forall i | 0 <= i < |row| ensures row[i] == WindowSum(row, i, 1) % p {
      assert WindowSum(row, i, 0) == 0;
      ModSmall(i, |row|);
      ModSmall(row[i], p);
    }
  }

  // With rotations 1, 2, ..., 2^(m-1) lane i ends as the sum of 2^m lanes from i, cyclically.
  lemma {:induction false} LadderComputesWindows(row: seq<int>, m: nat, p: Positive)
    requires Residues(row, p)
    ensures HoldsWindows(Ladder(row, PowersOfTwo(0, m), |row|, p), row, Pow2(m), p)
  {
    hide HoldsWindows;
    hide Ladder;
    ResiduesHoldUnitWindows(row, p);
    assert Pow2(0) == 1;
    LadderFrom(row, row, 0, m, p);
  }

  lemma {:induction false} StarStep(accumulated: seq<int>, source: seq<int>, w: nat, p: Positive)
    requires HoldsWindows(accumulated, source, w, p)
    ensures HoldsWindows(AddRows(accumulated, RotateRow(source, w, |source|), |source|, p), source, w + 1, p)
  {
    var n := |source|;
    forall i | 0 <= i < n
      ensures AddRows(accumulated, RotateRow(source, w, n), n, p)[i] == WindowSum(source, i, w + 1) % p
    {
      var before, lane := WindowSum(source, i, w), source[(i + w) % n];
      assert WindowSum(source, i, w + 1) == before + lane;
      assert At(RotateRow(source, w, n), i) == lane;
      ModAdd(before, lane, p);
    }
  }

  lemma {:induction false} StarFrom(accumulated: seq<int>, source: seq<int>, w: nat, count: nat, p: Positive)
    requires HoldsWindows(accumulated, source, w, p)
    ensures HoldsWindows(Star(accumulated, source, Consecutive(w, count), |source|, p), source, w + count, p)
    decreases count
  {
    if count > 0 {
      var rotations := Consecutive(w, count);
      assert rotations[1..] == Consecutive(w + 1, count - 1);
      StarStep(accumulated, source, w, p);
      StarFrom(AddRows(accumulated, RotateRow(source, w, |source|), |source|, p), source, w + 1, count - 1, p);
    }
  }

  // With rotations 1, ..., w-1 the star holds the same windows, for every width w.
  lemma {:induction false} StarComputesWindows(row: seq<int>, w: nat, p: Positive)
    requires 0 < w && Residues(row, p)
    ensures HoldsWindows(Star(row, row, Consecutive(1, w - 1), |row|, p), row, w, p)
  {
    ResiduesHoldUnitWindows(row, p);
    StarFrom(row, row, 1, w - 1, p);
  }

  // The log-depth ladder is the star: m rotations do the work of 2^m - 1.
  lemma {:induction false} LadderRefinesStar(row: seq<int>, m: nat, p: Positive)
    requires Residues(row, p)
    ensures Ladder(row, PowersOfTwo(0, m), |row|, p) == Star(row, row, Consecutive(1, Pow2(m) - 1), |row|, p)
  {
    LadderComputesWindows(row, m, p);
    StarComputesWindows(row, Pow2(m), p);
  }

  // When the width divides the row, the window of a segment start never wraps, the last included.
  lemma {:induction false} SegmentDoesNotWrap(start: nat, width: nat, rowSize: nat)
    requires 0 < width && start < rowSize && start % width == 0 && rowSize % width == 0
    ensures start + width <= rowSize
  {
    var a, b := start / width, rowSize / width;
    assert start == a * width && rowSize == b * width;
    assert (b - a) * width == rowSize - start;
    MulAtLeast(b - a, width);
  }

  // At a segment start the ladder holds the plain sum of the segment.
  lemma {:induction false} LadderAtSegmentStart(row: seq<int>, m: nat, p: Positive, start: nat)
    requires Residues(row, p)
    requires start < |row| && start % Pow2(m) == 0 && |row| % Pow2(m) == 0
    ensures start + Pow2(m) <= |row|
    ensures Ladder(row, PowersOfTwo(0, m), |row|, p)[start] == SumOf(row[start..start + Pow2(m)]) % p
  {
    SegmentDoesNotWrap(start, Pow2(m), |row|);
    LadderComputesWindows(row, m, p);
    WindowWithoutWrap(row, start, Pow2(m));
  }
}
