// The packed-plaintext view of a BFV ciphertext: two rows of residues, a
// rotation that is cyclic inside each row, and an element count.
module Lanes {
  import opened Modular

  predicate Residues(row: seq<int>, p: int) {
    forall i | 0 <= i < |row| :: 0 <= row[i] < p
  }

  predicate AllZero(row: seq<int>) {
    forall i | 0 <= i < |row| :: row[i] == 0
  }

  // A packed vector shorter than its row reads as zero beyond its end.
  function At(row: seq<int>, i: int): int {
    if 0 <= i < |row| then row[i] else 0
  }

  function AddRows(a: seq<int>, b: seq<int>, n: nat, p: Positive): (r: seq<int>)
    ensures |r| == n
  {
    seq(n, i => (At(a, i) + At(b, i)) % p)
  }

  function MulRows(a: seq<int>, b: seq<int>, n: nat, p: Positive): (r: seq<int>)
    ensures |r| == n
  {
    seq(n, i => (At(a, i) * At(b, i)) % p)
  }

  // Lane i of the rotated row is lane i + k of the row, cyclically; k may be negative.
  function RotateRow(row: seq<int>, k: int, n: nat): (r: seq<int>)
    ensures |r| == n
  {
    seq(n, i requires 0 <= i < n => At(row, (i + k) % n))
  }

  datatype Packed = Packed(first: seq<int>, second: seq<int>)

  datatype Ciphertext = Ciphertext(lanes: Packed, elements: nat)

  // The batch of a context: two rows of n lanes holding residues modulo p.
  predicate Canonical(lanes: Packed, n: nat, p: Positive) {
    |lanes.first| == |lanes.second| == n && Residues(lanes.first, p) && Residues(lanes.second, p)
  }

  function EvalAdd(a: Ciphertext, b: Ciphertext, n: nat, p: Positive): Ciphertext {
    Ciphertext(
      Packed(AddRows(a.lanes.first, b.lanes.first, n, p), AddRows(a.lanes.second, b.lanes.second, n, p)),
      if a.elements < b.elements then b.elements else a.elements)
  }

  // Without relinearisation the product of k and l elements has k + l - 1.
  function EvalMultNoRelin(a: Ciphertext, b: Ciphertext, n: nat, p: Positive): Ciphertext {
    Ciphertext(
      Packed(MulRows(a.lanes.first, b.lanes.first, n, p), MulRows(a.lanes.second, b.lanes.second, n, p)),
      if a.elements + b.elements == 0 then 0 else a.elements + b.elements - 1)
  }

  function EvalMultPlain(a: Ciphertext, mask: Packed, n: nat, p: Positive): Ciphertext {
    Ciphertext(
      Packed(MulRows(a.lanes.first, mask.first, n, p), MulRows(a.lanes.second, mask.second, n, p)),
      a.elements)
  }

  function EvalRotate(a: Ciphertext, k: int, n: nat): Ciphertext {
    Ciphertext(Packed(RotateRow(a.lanes.first, k, n), RotateRow(a.lanes.second, k, n)), a.elements)
  }

  function Relinearized(a: Ciphertext): Ciphertext { a.(elements := 2) }

  // The packed plaintext of one batch vector: its first and second half.
  function Pack(values: seq<int>, n: nat): (r: Packed)
    ensures |r.first| == |r.second| == n
  {
    Packed(seq(n, i => At(values, i)), seq(n, i => At(values, n + i)))
  }

  // Encryption of the packed vector of one batch: the vector is split into
  // its two rows and every lane is reduced.
  function Encrypt(values: seq<int>, n: nat, p: Positive): (c: Ciphertext)
    ensures Canonical(c.lanes, n, p)
  {
    Ciphertext(Packed(seq(n, i => At(values, i) % p), seq(n, i => At(values, n + i) % p)), 2)
  }

  // Decryption presents the lanes of the whole batch by centred representatives.
  function Decrypt(c: Ciphertext, n: nat, p: Positive): (lanes: seq<int>)
    ensures |lanes| == 2 * n
  {
    seq(2 * n, i requires 0 <= i < 2 * n => CenteredLift(At(if i < n then c.lanes.first else c.lanes.second, i % n), p))
  }

  // Normalising a decrypted lane gives back the residue the ciphertext holds.
  lemma {:induction false} DecryptThenNormalize(c: Ciphertext, n: nat, p: Positive, lane: nat)
    requires Canonical(c.lanes, n, p) && lane < 2 * n
    ensures NormalizeMod(Decrypt(c, n, p)[lane], p)
         == if lane < n then c.lanes.first[lane] else c.lanes.second[lane - n]
  {
    if lane < n {
      ModSmall(lane, n);
      NormalizeCentered(c.lanes.first[lane], p);
    } else {
      ModUnique(lane, 1, lane - n, n);
      NormalizeCentered(c.lanes.second[lane - n], p);
    }
  }
}
