// Integer arithmetic of the client and the runner: the truncating remainder of
// C++, residue normalisation and the centred lift, stated for every modulus.
module Modular {

  type Positive = n: int | 0 < n witness 1

  // ----- general facts about the Euclidean remainder -----

  lemma {:induction false} ModUnique(a: int, q: int, r: int, m: int)
    requires 0 <= r < m
    requires a == q * m + r
    ensures a % m == r && a / m == q
  {
    var d := a / m - q;
    assert a == (a / m) * m + a % m;
    assert d * m == r - a % m by {
      assert d * m == (a / m) * m - q * m;
    }
    MulAtLeast(d, m);
  }

  lemma {:induction false} MulAtLeast(d: int, m: int)
    requires 0 < m
    ensures d >= 1 ==> d * m >= m
    ensures d <= 0 ==> d * m <= 0
    ensures d <= -1 ==> d * m <= -m
  {
  }

  lemma {:induction false} ModShift(a: int, k: int, m: int)
    requires 0 < m
    ensures (a + k * m) % m == a % m
  {
    assert a == (a / m) * m + a % m;
    assert a + k * m == (a / m + k) * m + a % m;
    ModUnique(a + k * m, a / m + k, a % m, m);
  }

  lemma {:induction false} ModAddRight(a: int, b: int, m: int)
    requires 0 < m
    ensures (a + b % m) % m == (a + b) % m
  {
    assert b == (b / m) * m + b % m;
    assert a + b == (a + b % m) + (b / m) * m;
    ModShift(a + b % m, b / m, m);
  }

  lemma {:induction false} ModAdd(a: int, b: int, m: int)
    requires 0 < m
    ensures (a % m + b % m) % m == (a + b) % m
    ensures (a + b % m) % m == (a + b) % m
    ensures (a % m + b) % m == (a + b) % m
  {
    ModAddRight(a, b, m);
    ModAddRight(b, a, m);
    ModAddRight(a % m, b, m);
  }

  lemma {:induction false} ModMul(a: int, b: int, m: int)
    requires 0 < m
    ensures ((a % m) * (b % m)) % m == (a * b) % m
  {
    var qa, qb, ra, rb := a / m, b / m, a % m, b % m;
    assert a * b == ra * b + (qa * b) * m by {
      assert a == ra + qa * m;
      assert (ra + qa * m) * b == ra * b + (qa * b) * m;
    }
    ModShift(ra * b, qa * b, m);
    assert ra * b == ra * rb + (ra * qb) * m by {
      assert b == rb + qb * m;
      assert ra * (rb + qb * m) == ra * rb + (ra * qb) * m;
    }
    ModShift(ra * rb, ra * qb, m);
  }

  lemma {:induction false} ModNeg(a: int, m: int)
    requires 0 < m
    ensures (-a) % m == (m - a % m) % m
  {
    assert a == (a / m) * m + a % m;
    assert -a == (m - a % m) + (-(a / m) - 1) * m;
    ModShift(m - a % m, -(a / m) - 1, m);
  }

  lemma {:induction false} ModSmall(a: int, m: int)
    requires 0 <= a < m
    ensures a % m == a
  {
    ModUnique(a, 0, a, m);
  }

  // ----- the source's operators -----

  // C++ `%` on signed operands: the remainder takes the sign of the dividend.
  function TruncatedRemainder(a: int, m: int): int
    requires 0 < m
  {
    if a >= 0 then a % m else -((-a) % m)
  }

  function NormalizeMod(value: int, modulus: int): (r: int)
    requires 0 < modulus
    ensures 0 <= r < modulus
  {
    var normalized := TruncatedRemainder(value, modulus);
    if normalized < 0 then normalized + modulus else normalized
  }

  function CenteredLift(value: int, modulus: int): int
    requires 0 < modulus
  {
    if value > modulus / 2 then value - modulus else value
  }

  // The truncating remainder followed by one conditional addition is the
  // canonical residue, for operands of either sign.
  lemma {:induction false} NormalizeModIsResidue(value: int, modulus: int)
    requires 0 < modulus
    ensures NormalizeMod(value, modulus) == value % modulus
  {
    if value < 0 {
      var r := (-value) % modulus;
      ModNeg(-value, modulus);
      assert value % modulus == (modulus - r) % modulus;
      if r == 0 {
        ModUnique(modulus, 1, 0, modulus);
      } else {
        ModSmall(modulus - r, modulus);
      }
    }
  }

  // Centring inverts normalisation on exactly one interval, for every modulus.
  // For an odd modulus both bounds have magnitude (modulus - 1) / 2.
  lemma {:induction false} CenterNormalizeExact(value: int, modulus: int)
    requires 0 < modulus
    ensures CenteredLift(NormalizeMod(value, modulus), modulus) == value
      <==> -((modulus - 1) / 2) <= value <= modulus / 2
  {
    NormalizeModIsResidue(value, modulus);
    var q, r := value / modulus, value % modulus;
    assert value == q * modulus + r;
    if 0 <= value <= modulus / 2 {
      if modulus == 1 { assert value == 0; } else { ModSmall(value, modulus); }
    } else if -((modulus - 1) / 2) <= value < 0 {
      ModUnique(value, -1, value + modulus, modulus);
    }
  }

  // A decrypted lane may be presented centred; normalising it recovers the residue.
  lemma {:induction false} NormalizeCentered(residue: int, modulus: int)
    requires 0 <= residue < modulus
    ensures NormalizeMod(CenteredLift(residue, modulus), modulus) == residue
  {
    NormalizeModIsResidue(CenteredLift(residue, modulus), modulus);
    ModShift(residue, -1, modulus);
    ModSmall(residue, modulus);
    assert residue + -1 * modulus == residue - modulus;
  }

  function Abs(x: int): nat { if x < 0 then -x else x }
}
