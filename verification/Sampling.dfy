// The two rejection samplers over 64-bit words, and why each gives every
// residue the same number of accepted words.
module Sampling {
  import opened Modular
  import opened Outcomes

  const WORDS := 0x1_0000_0000_0000_0000
  const MAX_WORD := WORDS - 1

  // ----- the acceptance tests -----

  // cutoff = max - (max % p); a sample at or above it is drawn again.
  function Cutoff(p: Positive): int { MAX_WORD - MAX_WORD % p }

  predicate BelowCutoff(sample: int, p: Positive) { sample < Cutoff(p) }

  // The nonzero sampler also draws again on a zero residue.
  predicate NonzeroAccepted(sample: int, p: Positive) { BelowCutoff(sample, p) && sample % p != 0 }

  // threshold = (2^64 - p) % p, from the wrapped negation of p; a candidate below it is drawn again.
  function Threshold(p: Positive): int
    requires p < WORDS
  {
    (WORDS - p) % p
  }

  predicate AtOrAboveThreshold(candidate: int, p: Positive)
    requires p < WORDS
  {
    candidate >= Threshold(p)
  }

  // ----- the loops -----

  // The index of the first accepted word, or the number of words if there is none.
  function FirstAccepted(words: seq<int>, accept: int -> bool): (k: nat)
    ensures k <= |words|
    ensures k < |words| ==> accept(words[k])
    ensures forall i | 0 <= i < k :: !accept(words[i])
  {
    if words == [] then 0
    else if accept(words[0]) then 0
    else 1 + FirstAccepted(words[1..], accept)
  }

  lemma {:induction false} FirstAcceptedIs(words: seq<int>, accept: int -> bool, k: nat)
    requires k < |words| && accept(words[k]) && forall i | 0 <= i < k :: !accept(words[i])
    ensures FirstAccepted(words, accept) == k
    decreases k
  {
    if k > 0 {
      FirstAcceptedIs(words[1..], accept, k - 1);
    }
  }

  // Reads words until one is accepted; fails when the entropy source does.
  // `rest` is what remains unread.
  method ReadOsRandomMod(entropy: seq<int>, p: Positive) returns (r: Option<int>, rest: seq<int>)
    ensures r.Some? <==> exists i :: 0 <= i < |entropy| && BelowCutoff(entropy[i], p)
    ensures r.Some? ==> var k := FirstAccepted(entropy, x => BelowCutoff(x, p));
      k < |entropy| && r.value == entropy[k] % p && rest == entropy[k + 1..]
  {
    var next := 0;
    while next < |entropy|
      invariant 0 <= next <= |entropy|
      invariant forall i | 0 <= i < next :: !BelowCutoff(entropy[i], p)
    {
      var sample := entropy[next];
      if sample < MAX_WORD - MAX_WORD % p {
        FirstAcceptedIs(entropy, x => BelowCutoff(x, p), next);
        return Some(sample % p), entropy[next + 1..];
      }
      next := next + 1;
    }
    return None, [];
  }

  method ReadNonzeroMask(entropy: seq<int>, p: Positive) returns (r: Option<int>)
    ensures r.Some? <==> exists i :: 0 <= i < |entropy| && NonzeroAccepted(entropy[i], p)
    ensures r.Some? ==> var k := FirstAccepted(entropy, x => NonzeroAccepted(x, p));
      k < |entropy| && r.value == entropy[k] % p && 0 < r.value < p
  {
    var next := 0;
    while next < |entropy|
      invariant 0 <= next <= |entropy|
      invariant forall i | 0 <= i < next :: !NonzeroAccepted(entropy[i], p)
    {
      var sample := entropy[next];
      if sample < MAX_WORD - MAX_WORD % p && sample % p != 0 {
        FirstAcceptedIs(entropy, x => NonzeroAccepted(x, p), next);
        return Some(sample % p);
      }
      next := next + 1;
    }
    return None;
  }

  // The accepted words among the first k.
  ghost function AcceptedBefore(entropy: seq<int>, p: Positive, k: nat): set<nat>
    requires p < WORDS && k <= |entropy|
  {
    set j: nat | j < k && entropy[j] >= (WORDS - p) % p
  }

  // The residue of the accepted word that has exactly i accepted words before it.
  ghost predicate ResidueOfDraw(residue: int, entropy: seq<int>, p: Positive, i: nat)
    requires p < WORDS
  {
    exists k: nat | k < |entropy| ::
      entropy[k] >= (WORDS - p) % p && |AcceptedBefore(entropy, p, k)| == i && residue == entropy[k] % p
  }

  lemma {:induction false} OneMoreWord(entropy: seq<int>, p: Positive, k: nat)
    requires p < WORDS && k < |entropy|
    ensures |AcceptedBefore(entropy, p, k + 1)|
         == |AcceptedBefore(entropy, p, k)| + if AtOrAboveThreshold(entropy[k], p) then 1 else 0
  {
    assert AcceptedBefore(entropy, p, k + 1)
        == AcceptedBefore(entropy, p, k) + if AtOrAboveThreshold(entropy[k], p) then {k} else {};
  }

  lemma {:induction false} AcceptedGrows(entropy: seq<int>, p: Positive, j: nat, k: nat)
    requires p < WORDS && j <= k <= |entropy|
    ensures |AcceptedBefore(entropy, p, j)| <= |AcceptedBefore(entropy, p, k)|
    decreases k - j
  {
    if j < k {
      OneMoreWord(entropy, p, j);
      AcceptedGrows(entropy, p, j + 1, k);
    }
  }

  lemma {:induction false} IsDraw(entropy: seq<int>, p: Positive, k: nat)
    requires p < WORDS && k < |entropy| && AtOrAboveThreshold(entropy[k], p)
    ensures ResidueOfDraw(entropy[k] % p, entropy, p, |AcceptedBefore(entropy, p, k)|)
  {
    hide AcceptedBefore;
  }

  // No two accepted words have the same number of accepted words before them.
  lemma {:induction false} DrawIsUnique(entropy: seq<int>, p: Positive, i: nat, residue: int, other: int)
    requires p < WORDS && ResidueOfDraw(residue, entropy, p, i) && ResidueOfDraw(other, entropy, p, i)
    ensures residue == other
  {
    var j: nat :| j < |entropy| && entropy[j] >= (WORDS - p) % p
      && |AcceptedBefore(entropy, p, j)| == i && residue == entropy[j] % p;
    var k: nat :| k < |entropy| && entropy[k] >= (WORDS - p) % p
      && |AcceptedBefore(entropy, p, k)| == i && other == entropy[k] % p;
    hide AcceptedBefore;
    OneMoreWord(entropy, p, j);
    OneMoreWord(entropy, p, k);
    if j < k {
      AcceptedGrows(entropy, p, j + 1, k);
    } else if k < j {
      AcceptedGrows(entropy, p, k + 1, j);
    }
  }

  // Overwrites the buffer with one residue per element, each of the next accepted
  // word; succeeds exactly when there are enough of them.
  method FillRandomResidues(residues: array<int>, entropy: seq<int>, p: Positive) returns (ok: bool)
    requires p < WORDS
    modifies residues
    ensures ok <==> residues.Length <= |AcceptedBefore(entropy, p, |entropy|)|
    ensures ok ==> forall i | 0 <= i < residues.Length :: ResidueOfDraw(residues[i], entropy, p, i)
    ensures ok ==> forall i | 0 <= i < residues.Length :: 0 <= residues[i] < p
  {
    hide ResidueOfDraw;
    var read := 0;
    assert AcceptedBefore(entropy, p, 0) == {};
    for k := 0 to residues.Length
      invariant 0 <= read <= |entropy| && |AcceptedBefore(entropy, p, read)| == k
      invariant forall i | 0 <= i < k :: ResidueOfDraw(residues[i], entropy, p, i)
      invariant forall i | 0 <= i < k :: 0 <= residues[i] < p
    {
      while read < |entropy| && entropy[read] < (WORDS - p) % p
        invariant 0 <= read <= |entropy| && |AcceptedBefore(entropy, p, read)| == k
        modifies {}
      {
        OneMoreWord(entropy, p, read);
        read := read + 1;
      }
      if read == |entropy| {
        return false;
      }
      OneMoreWord(entropy, p, read);
      IsDraw(entropy, p, read);
      residues[k] := entropy[read] % p;
      read := read + 1;
    }
    AcceptedGrows(entropy, p, read, |entropy|);
    return true;
  }

  // ----- exactness -----

  // The words of a range with a given residue.
  ghost function WithResidue(lo: int, hi: int, p: Positive, r: int): set<int> {
    set w: int | lo <= w < hi && w % p == r
  }

  // The 64-bit words a sampler accepts for a given residue.
  ghost function AcceptedWords(accept: int -> bool, p: Positive, r: int): set<int> {
    set w: int | 0 <= w < WORDS && accept(w) && w % p == r
  }

  // A range of k whole periods holds exactly k words of every residue.
  lemma {:induction false} PeriodsAreEven(lo: int, k: nat, p: Positive, r: int)
    requires 0 <= r < p
    ensures |WithResidue(lo, lo + k * p, p, r)| == k
  {
    if k == 0 {
      assert WithResidue(lo, lo, p, r) == {};
    } else {
      PeriodsAreEven(lo, k - 1, p, r);
      var start := lo + (k - 1) * p;
      var offset := (r - start) % p;
      var word := start + offset;
      assert start + p == lo + k * p;
      assert word % p == r by {
        ModAdd(start, r - start, p);
        ModSmall(r, p);
      }
      forall w | start <= w < start + p && w % p == r ensures w == word {
        OnePerPeriod(start, w, word, p);
      }
      assert WithResidue(lo, lo + k * p, p, r) == WithResidue(lo, start, p, r) + {word};
    }
  }

  lemma {:induction false} OnePerPeriod(start: int, a: int, b: int, p: Positive)
    requires start <= a < start + p && start <= b < start + p && a % p == b % p
    ensures a == b
  {
    assert a - b == (a / p - b / p) * p;
    MulAtLeast(a / p - b / p, p);
  }

  // ReadOsRandomMod accepts every residue equally often.
  lemma {:induction false} CutoffIsExact(p: Positive, r: int)
    requires p < WORDS && 0 <= r < p
    ensures |AcceptedWords(x => BelowCutoff(x, p), p, r)| == MAX_WORD / p >= 1
  {
    var k := MAX_WORD / p;
    assert MAX_WORD == k * p + MAX_WORD % p;
    MulAtLeast(k, p);
    PeriodsAreEven(0, k, p, r);
    assert AcceptedWords(x => BelowCutoff(x, p), p, r) == WithResidue(0, 0 + k * p, p, r);
  }

  // The nonzero sampler accepts every residue in 1..p-1 equally often, and never zero.
  lemma {:induction false} NonzeroIsExact(p: Positive, r: int)
    requires 2 <= p < WORDS && 0 <= r < p
    ensures |AcceptedWords(x => NonzeroAccepted(x, p), p, r)| == if r == 0 then 0 else MAX_WORD / p
  {
    CutoffIsExact(p, r);
    var accepted := AcceptedWords(x => NonzeroAccepted(x, p), p, r);
    if r == 0 {
      assert accepted == {};
    } else {
      assert accepted == AcceptedWords(x => BelowCutoff(x, p), p, r);
    }
  }

  // fillRandomResidues accepts every residue equally often.
  lemma {:induction false} ThresholdIsExact(p: Positive, r: int)
    requires p < WORDS && 0 <= r < p
    ensures |AcceptedWords(x => AtOrAboveThreshold(x, p), p, r)| == WORDS / p >= 1
  {
    ModShift(WORDS, -1, p);
    assert WORDS + -1 * p == WORDS - p;
    var k := WORDS / p;
    assert WORDS == k * p + WORDS % p;
    MulAtLeast(k, p);
    PeriodsAreEven(Threshold(p), k, p, r);
    assert Threshold(p) + k * p == WORDS;
    assert AcceptedWords(x => AtOrAboveThreshold(x, p), p, r) == WithResidue(Threshold(p), Threshold(p) + k * p, p, r);
  }
}
