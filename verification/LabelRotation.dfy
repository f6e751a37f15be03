// The label probes of the benchmark: a permutation scan, and the exact rotation
// test that pins what a rotation of a packed plaintext means.
module LabelRotation {
  import opened Modular
  import opened Lanes
  import opened Sequences

  // Every label 0..n-1 occurs among n values.
  ghost predicate IsPermutation(values: seq<int>, n: nat) {
    |values| == n && forall tag | 0 <= tag < n :: tag in values
  }

  method IsFrozenLabelPermutation(values: seq<int>, batchSize: nat) returns (b: bool)
    ensures b <==> IsPermutation(values, batchSize)
  {
    if |values| != batchSize {
      return false;
    }
    var seen := new bool[batchSize](_ => false);
    for k := 0 to |values|
      invariant forall i | 0 <= i < k :: 0 <= values[i] < batchSize
      invariant NoRepeat(values[..k])
      invariant forall tag | 0 <= tag < batchSize :: seen[tag] <==> tag in values[..k]
    {
      var value := values[k];
      assert values[..k + 1] == values[..k] + [value];
      if value < 0 || value >= batchSize {
        OutOfRange(values, k);
        return false;
      }
      if seen[value] {
        Repeated(values, k);
        return false;
      }
      seen[value] := true;
    }
    assert values[..|values|] == values;
    DistinctIsOnto(values);
    return true;
  }

  // The labels 0..n-1.
  ghost function Below(n: nat): (r: set<int>)
    ensures |r| == n
    ensures forall x :: x in r <==> 0 <= x < n
  {
    if n == 0 then {} else Below(n - 1) + {n - 1}
  }

  // n distinct values below n are all of them.
  lemma {:induction false} DistinctIsOnto(values: seq<int>)
    requires NoRepeat(values) && forall i | 0 <= i < |values| :: 0 <= values[i] < |values|
    ensures IsPermutation(values, |values|)
  {
    SizeOfSet(values);
    var missing := Below(|values|) - ToSet(values);
    assert ToSet(values) <= Below(|values|);
    assert Below(|values|) == ToSet(values) + missing;
    forall tag | 0 <= tag < |values| ensures tag in values {
      assert tag !in missing;
    }
  }

  // A permutation has no repeated value and none outside the range.
  lemma {:induction false} PermutationIsDistinct(values: seq<int>)
    requires IsPermutation(values, |values|)
    ensures NoRepeat(values) && forall i | 0 <= i < |values| :: 0 <= values[i] < |values|
  {
    SizeOfSet(values);
    var extra := ToSet(values) - Below(|values|);
    assert Below(|values|) <= ToSet(values);
    assert ToSet(values) == Below(|values|) + extra;
    forall i | 0 <= i < |values| ensures 0 <= values[i] < |values| {
      assert values[i] in ToSet(values) && values[i] !in extra;
    }
  }

  lemma {:induction false} OutOfRange(values: seq<int>, k: nat)
    requires k < |values| && !(0 <= values[k] < |values|)
    ensures !IsPermutation(values, |values|)
  {
    if IsPermutation(values, |values|) {
      PermutationIsDistinct(values);
    }
  }

  lemma {:induction false} Repeated(values: seq<int>, k: nat)
    requires k < |values| && values[k] in values[..k]
    ensures !IsPermutation(values, |values|)
  {
    if IsPermutation(values, |values|) {
      PermutationIsDistinct(values);
    }
  }

  // ----- rotations of labels -----

  function RowLabels(n: nat, offset: int): (s: seq<int>)
    ensures |s| == n
  {
    seq(n, i => offset + i)
  }

  // The labels 0..2n-1 of a batch, rotated inside each of its two rows.
  function RotatedLabels(n: nat, index: int): (s: seq<int>)
    ensures |s| == 2 * n
  {
    RotateRow(RowLabels(n, 0), index, n) + RotateRow(RowLabels(n, n), index, n)
  }

  predicate ExactRotation(values: seq<int>, batchSize: nat, index: int) {
    && batchSize >= 2 && batchSize % 2 == 0
    && index != 0 && Abs(index) < batchSize / 2
    && values == RotatedLabels(batchSize / 2, index)
  }

  // The slot-by-slot formula of the probe is the rotation inside each row.
  lemma {:induction false} ProbeFormula(n: nat, index: int, slot: nat)
    requires 0 < n && slot < 2 * n
    ensures var normalized := TruncatedRemainder(TruncatedRemainder(index, n) + n, n);
      RotatedLabels(n, index)[slot] == slot / n * n + (slot % n + normalized) % n
  {
    var t := TruncatedRemainder(index, n);
    NormalizeModIsResidue(index, n);
    if t < 0 {
      ModSmall(t + n, n);
    } else {
      ModUnique(t + n, 1, t, n);
    }
    var row, i := if slot < n then 0 else 1, if slot < n then slot else slot - n;
    ModUnique(slot, row, i, n);
    ModAdd(i, index, n);
    var source := (i + index) % n;
    assert 0 <= source < n;
    assert RotateRow(RowLabels(n, 0), index, n)[i] == At(RowLabels(n, 0), source) == source;
    assert RotateRow(RowLabels(n, n), index, n)[i] == At(RowLabels(n, n), source) == n + source;
  }

  method IsExactFrozenLabelRotation(values: seq<int>, batchSize: nat, rotationIndex: int) returns (b: bool)
    ensures b <==> ExactRotation(values, batchSize, rotationIndex)
  {
    if |values| != batchSize || batchSize < 2 || batchSize % 2 != 0 {
      return false;
    }
    var rowSize := batchSize / 2;
    if rotationIndex == 0 || Abs(rotationIndex) >= rowSize {
      return false;
    }
    var normalized := TruncatedRemainder(TruncatedRemainder(rotationIndex, rowSize) + rowSize, rowSize);
    for slot := 0 to batchSize
      invariant forall s | 0 <= s < slot :: values[s] == RotatedLabels(rowSize, rotationIndex)[s]
    {
      ProbeFormula(rowSize, rotationIndex, slot);
      var expected := slot / rowSize * rowSize + (slot % rowSize + normalized) % rowSize;
      if values[slot] != expected {
        return false;
      }
    }
    return true;
  }

  // Rotations of a row compose by adding indices, whatever their signs.
  lemma {:induction false} RotationsCompose(row: seq<int>, a: int, b: int)
    ensures RotateRow(RotateRow(row, a, |row|), b, |row|) == RotateRow(row, a + b, |row|)
  {
    var n := |row|;
    forall i | 0 <= i < n
      ensures RotateRow(RotateRow(row, a, n), b, n)[i] == RotateRow(row, a + b, n)[i]
    {
      var mid := (i + b) % n;
      assert 0 <= mid < n;
      ModAdd(i + b, a, n);
      assert (i + b) + a == i + (a + b);
    }
  }

  lemma {:induction false} RotationIsPeriodic(row: seq<int>, a: int)
    requires |row| > 0
    ensures RotateRow(row, a % |row|, |row|) == RotateRow(row, a, |row|)
  {
    forall i | 0 <= i < |row| ensures RotateRow(row, a % |row|, |row|)[i] == RotateRow(row, a, |row|)[i] {
      ModAdd(i, a, |row|);
    }
  }

  function Compose(outer: seq<int>, inner: seq<int>): (s: seq<int>)
    ensures |s| == |inner|
  {
    seq(|inner|, i requires 0 <= i < |inner| => At(outer, inner[i]))
  }

  lemma {:induction false} LabelAt(n: nat, index: int, slot: nat)
    requires slot < 2 * n
    ensures var row := if slot < n then 0 else n;
      RotatedLabels(n, index)[slot] == row + (slot - row + index) % n && 0 <= (slot - row + index) % n < n
  {
    var row := if slot < n then 0 else n;
    var source := (slot - row + index) % n;
    assert 0 <= source < n;
    assert RotateRow(RowLabels(n, 0), index, n)[slot - row] == At(RowLabels(n, 0), source) == source;
    assert RotateRow(RowLabels(n, n), index, n)[slot - row] == At(RowLabels(n, n), source) == n + source;
  }

  // Accepted rotations compose by adding indices modulo the row size.
  lemma {:induction false} LabelsCompose(n: nat, a: int, b: int)
    requires 0 < n
    ensures Compose(RotatedLabels(n, a), RotatedLabels(n, b)) == RotatedLabels(n, (a + b) % n)
  {
    hide RotatedLabels;
    forall slot: nat | slot < 2 * n
      ensures Compose(RotatedLabels(n, a), RotatedLabels(n, b))[slot] == RotatedLabels(n, (a + b) % n)[slot]
    {
      LabelsComposeAt(n, a, b, slot);
    }
  }

  lemma {:induction false} ShiftsAdd(i: int, a: int, b: int, n: nat)
    requires 0 < n
    ensures ((i + b) % n + a) % n == (i + (a + b) % n) % n
  {
    var u, v, total := i + b, a + b, i + a + b;
    assert (u % n + a) % n == total % n by { ModAddRight(a, u, n); assert a + u == total; }
    assert (i + v % n) % n == total % n by { ModAddRight(i, v, n); assert i + v == total; }
  }

  lemma {:induction false} LabelsComposeAt(n: nat, a: int, b: int, slot: nat)
    requires slot < 2 * n
    ensures Compose(RotatedLabels(n, a), RotatedLabels(n, b))[slot] == RotatedLabels(n, (a + b) % n)[slot]
  {
    hide RotatedLabels;
    var row := if slot < n then 0 else n;
    var i := slot - row;
    LabelAt(n, b, slot);
    LabelAt(n, a, row + (i + b) % n);
    LabelAt(n, (a + b) % n, slot);
    ShiftsAdd(i, a, b, n);
  }

  // So the composition of two accepted rotations is accepted at the summed index,
  // unless the sum is a multiple of the row, when it is the identity.
  lemma {:induction false} AcceptedRotationsCompose(f: seq<int>, g: seq<int>, batchSize: nat, a: int, b: int)
    requires ExactRotation(f, batchSize, a) && ExactRotation(g, batchSize, b)
    ensures var n := batchSize / 2;
      if (a + b) % n == 0 then Compose(f, g) == RowLabels(batchSize, 0)
      else ExactRotation(Compose(f, g), batchSize, (a + b) % n)
  {
    var n := batchSize / 2;
    LabelsCompose(n, a, b);
    if (a + b) % n == 0 {
      forall slot | 0 <= slot < batchSize ensures RotatedLabels(n, 0)[slot] == slot {
        LabelAt(n, 0, slot);
        ModSmall(if slot < n then slot else slot - n, n);
      }
    }
  }

  // Every accepted rotation is a permutation of the labels.
  lemma {:induction false} AcceptedRotationIsPermutation(values: seq<int>, batchSize: nat, index: int)
    requires ExactRotation(values, batchSize, index)
    ensures IsPermutation(values, batchSize)
  {
    var n := batchSize / 2;
    forall tag | 0 <= tag < batchSize ensures tag in values {
      var row := if tag < n then 0 else n;
      var i := (tag - row - index) % n;
      LabelAt(n, index, row + i);
      ModAdd(tag - row - index, index, n);
      ModSmall(tag - row, n);
      assert values[row + i] == tag;
    }
  }
}
