// Identifier texts: decimal numerals and the SSA names of one component.
module Naming {

  function Digit(d: nat): (c: char)
    requires d < 10
    ensures '0' <= c <= '9'
  {
    '0' + d as char
  }

  predicate IsDigit(c: char) { '0' <= c <= '9' }

  // str(n) for a nonnegative integer.
  function Decimal(n: nat): (s: string)
    ensures |s| > 0
    ensures forall i | 0 <= i < |s| :: IsDigit(s[i])
  {
    if n < 10 then [Digit(n)] else Decimal(n / 10) + [Digit(n % 10)]
  }

  // Reading a text as a decimal numeral.
  function DigitValue(c: char): nat { if '0' <= c then c as int - '0' as int else 0 }

  function TextValue(s: string): nat {
    if s == "" then 0 else 10 * TextValue(s[..|s| - 1]) + DigitValue(s[|s| - 1])
  }

  lemma {:induction false} DecimalValue(n: nat)
    ensures TextValue(Decimal(n)) == n
  {
    if n >= 10 {
      DecimalValue(n / 10);
      assert Decimal(n)[..|Decimal(n)| - 1] == Decimal(n / 10);
    } else {
      assert Decimal(n)[..0] == "";
    }
  }

  lemma {:induction false} DecimalInjective(a: nat, b: nat)
    requires Decimal(a) == Decimal(b)
    ensures a == b
  {
    var s, t := Decimal(a), Decimal(b);
    assert s[|s| - 1] == Digit(a % 10);
    assert t[|t| - 1] == Digit(b % 10);
    assert a % 10 == b % 10;
    if a >= 10 && b >= 10 {
      assert Decimal(a / 10) == s[..|s| - 1];
      assert Decimal(b / 10) == t[..|t| - 1];
      DecimalInjective(a / 10, b / 10);
    }
  }

  lemma {:induction false} DecimalLengthMonotone(a: nat, b: nat)
    requires a <= b
    ensures |Decimal(a)| <= |Decimal(b)|
  {
    if a >= 10 {
      DecimalLengthMonotone(a / 10, b / 10);
    }
  }

  // What follows the component name in each identifier of the emitted program.
  datatype Suffix =
    | Values | Query | F1MMask
    | Product | Relin | Rotated(rotation: nat) | Sum(width: nat)
    | Selected | Masked | Page

  function Text(s: Suffix): string {
    match s
    case Values => "-values"
    case Query => "-query"
    case F1MMask => "-f1m-mask"
    case Product => "-product"
    case Relin => "-relinearized"
    case Rotated(n) => "-rotate-" + Decimal(n)
    case Sum(n) => "-sum-" + Decimal(n)
    case Selected => "-selected"
    case Masked => "-masked"
    case Page => "-page-000000"
  }

  // The identifier scheme of one component.
  function NamesOf(component: string): Suffix -> string {
    s => component + Text(s)
  }

  lemma {:induction false} FixedNames(c: string)
    ensures NamesOf(c)(Values) == c + "-values"
    ensures NamesOf(c)(Query) == c + "-query"
    ensures NamesOf(c)(F1MMask) == c + "-f1m-mask"
    ensures NamesOf(c)(Product) == c + "-product"
    ensures NamesOf(c)(Relin) == c + "-relinearized"
    ensures NamesOf(c)(Selected) == c + "-selected"
    ensures NamesOf(c)(Masked) == c + "-masked"
    ensures NamesOf(c)(Page) == c + "-page-000000"
  {
  }

  lemma {:induction false} NumberedNames(c: string, n: nat)
    ensures NamesOf(c)(Rotated(n)) == c + "-rotate-" + Decimal(n)
    ensures NamesOf(c)(Sum(n)) == c + "-sum-" + Decimal(n)
  {
    assert c + ("-rotate-" + Decimal(n)) == c + "-rotate-" + Decimal(n);
    assert c + ("-sum-" + Decimal(n)) == c + "-sum-" + Decimal(n);
  }

  // The character after the leading hyphen tells the kinds of suffix apart,
  // up to the two that start with 'r' or 's' followed by 'e'.
  lemma {:induction false} TextInjective(s: Suffix, t: Suffix)
    requires Text(s) == Text(t)
    ensures s == t
  {
    var a, b := Text(s), Text(t);
    assert a[1] == b[1] && |a| == |b|;
    if s.Rotated? || t.Rotated? {
      assert s.Rotated? ==> a[3] == 't';
      assert t.Rotated? ==> b[3] == 't';
      assert s.Rotated? && t.Rotated?;
      assert a[8..] == Decimal(s.rotation) && b[8..] == Decimal(t.rotation);
      DecimalInjective(s.rotation, t.rotation);
    } else if s.Sum? || t.Sum? {
      assert s.Sum? ==> a[2] == 'u';
      assert t.Sum? ==> b[2] == 'u';
      assert s.Sum? && t.Sum?;
      assert a[5..] == Decimal(s.width) && b[5..] == Decimal(t.width);
      DecimalInjective(s.width, t.width);
    }
  }

  lemma {:induction false} TextShape(s: Suffix)
    ensures |Text(s)| >= 6 && Text(s)[0] == '-' && !IsDigit(Text(s)[1])
  {
  }

  // From its number on, a numbered suffix is made of digits.
  lemma {:induction false} NumberIsDigits(t: Suffix, head: nat)
    requires (t.Rotated? && head == 8) || (t.Sum? && head == 5)
    ensures forall k | head <= k < |Text(t)| :: IsDigit(Text(t)[k])
  {
    var number := Decimal(if t.Rotated? then t.rotation else t.width);
    assert Text(t)[head..] == number;
    forall k | head <= k < |Text(t)| ensures IsDigit(Text(t)[k]) {
      assert Text(t)[k] == number[k - head];
    }
  }

  // A hyphen inside a suffix is followed by a digit, or by the "mask" of "-f1m-mask".
  lemma {:induction false} InnerHyphen(t: Suffix, k: nat)
    requires 0 < k && k + 1 < |Text(t)| && Text(t)[k] == '-'
    ensures IsDigit(Text(t)[k + 1]) || |Text(t)| - k == 5
  {
    match t
    case Rotated(n) => NumberIsDigits(t, 8);
    case Sum(n) => NumberIsDigits(t, 5);
    case _ =>
  }

  // No suffix is the proper end of another.
  lemma {:induction false} SuffixFree(s: Suffix, t: Suffix, k: nat)
    requires 0 < k <= |Text(t)|
    ensures Text(t)[k..] != Text(s)
  {
    TextShape(s);
    if Text(t)[k..] == Text(s) {
      assert Text(t)[k] == Text(s)[0] && Text(t)[k + 1] == Text(s)[1];
      InnerHyphen(t, k);
    }
  }

  // Identifiers of different components never collide, whatever the component
  // names are: neither a prefix relation nor an embedded hyphen can confuse them.
  lemma {:induction false} NamesDisjoint(c: string, s: Suffix, d: string, t: Suffix)
    requires NamesOf(c)(s) == NamesOf(d)(t)
    ensures c == d && s == t
  {
    var whole := c + Text(s);
    assert whole == d + Text(t);
    if |c| > |d| {
      assert Text(t)[|c| - |d|..] == whole[|c|..] == Text(s);
      SuffixFree(s, t, |c| - |d|);
    } else if |d| > |c| {
      assert Text(s)[|d| - |c|..] == whole[|d|..] == Text(t);
      SuffixFree(t, s, |d| - |c|);
    } else {
      assert c == whole[..|c|] == d;
      assert Text(s) == whole[|c|..] == Text(t);
      TextInjective(s, t);
    }
  }
}
