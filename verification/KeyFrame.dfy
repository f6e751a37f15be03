// The combined evaluation-key frame: magic, two length-and-digest headers, two
// segments. The digest is an opaque function with 32-byte results.
module KeyFrame {
  import opened Modular
  import opened Outcomes

  type Byte = b: int | 0 <= b < 256
  type Digest = d: seq<Byte> | |d| == 32 witness seq<Byte>(32, _ => 0)

  const MAGIC: seq<Byte> := [0x44, 0x31, 0x42, 0x4b, 0x45, 0x59, 0x30, 0x31]  // "D1BKEY01"
  const WORD := 0x1_0000_0000_0000_0000

  // ----- big-endian words -----

  function Power256(k: nat): (r: nat)
    ensures 0 < r
  {
    if k == 0 then 1 else 256 * Power256(k - 1)
  }

  // The k low-order bytes of v, most significant first.
  function BigEndian(v: nat, k: nat): (s: seq<Byte>)
    ensures |s| == k
  {
    if k == 0 then [] else BigEndian(v / 256, k - 1) + [v % 256]
  }

  function Value(s: seq<Byte>): nat {
    if s == [] then 0 else Value(s[..|s| - 1]) * 256 + s[|s| - 1]
  }

  lemma {:induction false} ValueOfBigEndian(v: nat, k: nat)
    requires v < Power256(k)
    ensures Value(BigEndian(v, k)) == v
  {
    if k > 0 {
      assert v / 256 < Power256(k - 1);
      ValueOfBigEndian(v / 256, k - 1);
      assert BigEndian(v, k)[..k - 1] == BigEndian(v / 256, k - 1);
    }
  }

  lemma {:induction false} BigEndianOfValue(s: seq<Byte>)
    ensures Value(s) < Power256(|s|)
    ensures BigEndian(Value(s), |s|) == s
  {
    if s != [] {
      var init, last := s[..|s| - 1], s[|s| - 1];
      BigEndianOfValue(init);
      ModUnique(Value(s), Value(init), last, 256);
    }
  }

  lemma {:induction false} WordIsEightBytes()
    ensures Power256(8) == WORD
  {
    assert Power256(4) == 0x1_0000_0000;
    assert Power256(8) == 256 * (256 * (256 * (256 * Power256(4))));
  }

  lemma {:induction false} SplitProduct(a: int, b: int, d: int)
    ensures (a * 256 + b) * d == a * (256 * d) + b * d
  {
  }

  // Shifting right by whole bytes composes.
  lemma {:induction false} ShiftAgain(v: nat, k: nat)
    ensures v / Power256(k) / 256 == v / Power256(k + 1)
  {
    var d := Power256(k);
    var q, r := v / d, v % d;
    var a, b := q / 256, q % 256;
    assert v == a * (256 * d) + (b * d + r) by {
      assert v == q * d + r && q == a * 256 + b;
      SplitProduct(a, b, d);
    }
    assert 0 <= b * d <= 255 * d by { MulAtLeast(b, d); MulAtLeast(255 - b, d); }
    ModUnique(v, a, b * d + r, 256 * d);
  }

  // for shift = 56, 48, ..., 0: append (value >> shift) & 0xff
  method AppendUint64BigEndian(output: seq<Byte>, value: nat) returns (r: seq<Byte>)
    requires value < WORD
    ensures r == output + BigEndian(value, 8)
  {
    WordIsEightBytes();
    r := output;
    assert value / Power256(8) == 0 by { ModUnique(value, 0, value, Power256(8)); }
    var k := 0;
    while k < 8
      invariant 0 <= k <= 8
      invariant r == output + BigEndian(value / Power256(8 - k), k)
    {
      ShiftAgain(value, 7 - k);
      r := r + [value / Power256(7 - k) % 256];
      k := k + 1;
    }
    assert value / Power256(0) == value;
  }

  // value = (value << 8) | byte, eight times; refused when the field is cut short.
  method ReadUint64BigEndian(content: seq<Byte>, offset: nat) returns (r: Option<nat>)
    ensures r.Some? <==> offset + 8 <= |content|
    ensures r.Some? ==> r.value == Value(content[offset..offset + 8]) < WORD
  {
    if offset > |content| || |content| - offset < 8 {
      return None;
    }
    var value: nat := 0;
    var field := content[offset..offset + 8];
    for index := 0 to 8
      invariant value == Value(field[..index])
    {
      assert field[..index + 1][..index] == field[..index];
      value := value * 256 + content[offset + index];
    }
    assert field[..8] == field;
    BigEndianOfValue(field);
    WordIsEightBytes();
    return Some(value);
  }

  // ----- the frame -----

  datatype Segments = Segments(rotationKeys: seq<Byte>, evalMultKeys: seq<Byte>)

  function Frame(s: Segments, hash: seq<Byte> -> Digest): seq<Byte> {
    MAGIC
    + BigEndian(|s.rotationKeys|, 8) + hash(s.rotationKeys)
    + BigEndian(|s.evalMultKeys|, 8) + hash(s.evalMultKeys)
    + s.rotationKeys + s.evalMultKeys
  }

  predicate Nonempty(s: Segments) { s.rotationKeys != [] && s.evalMultKeys != [] }

  predicate Representable(s: Segments) { |s.rotationKeys| + |s.evalMultKeys| + 88 < WORD }

  method BuildCombinedEvaluationKeyFrame(s: Segments, hash: seq<Byte> -> Digest) returns (r: Option<seq<Byte>>)
    requires Representable(s)
    ensures r.Some? <==> Nonempty(s)
    ensures r.Some? ==> r.value == Frame(s, hash) && |r.value| == 88 + |s.rotationKeys| + |s.evalMultKeys|
  {
    hide BigEndian;
    if s.rotationKeys == [] || s.evalMultKeys == [] {
      return None;
    }
    var frame := MAGIC;
    frame := AppendUint64BigEndian(frame, |s.rotationKeys|);
    frame := frame + hash(s.rotationKeys);
    frame := AppendUint64BigEndian(frame, |s.evalMultKeys|);
    frame := frame + hash(s.evalMultKeys);
    frame := frame + s.rotationKeys;
    frame := frame + s.evalMultKeys;
    return Some(frame);
  }

  // What the parser demands of a frame, and the segments it then reads off.
  predicate Accepts(frame: seq<Byte>, hash: seq<Byte> -> Digest) {
    && |frame| >= 88 && frame[..8] == MAGIC
    && var rotationSize, evalMultSize := Value(frame[8..16]), Value(frame[48..56]);
      && rotationSize != 0 && evalMultSize != 0
      && rotationSize + evalMultSize + 88 == |frame|
      && frame[16..48] == hash(frame[88..88 + rotationSize])
      && frame[56..88] == hash(frame[88 + rotationSize..])
  }

  function SegmentsOf(frame: seq<Byte>): Segments
    requires |frame| >= 88 && 88 + Value(frame[8..16]) <= |frame|
  {
    Segments(frame[88..88 + Value(frame[8..16])], frame[88 + Value(frame[8..16])..])
  }

  method ParseCombinedEvaluationKeyFrame(frame: seq<Byte>, hash: seq<Byte> -> Digest) returns (r: Option<Segments>)
    requires |frame| < WORD
    ensures r.Some? <==> Accepts(frame, hash)
    ensures r.Some? ==> r.value == SegmentsOf(frame)
  {
    hide Value;
    if |frame| < 88 || frame[..8] != MAGIC {
      return None;
    }
    var rotationField := ReadUint64BigEndian(frame, 8);
    var evalMultField := ReadUint64BigEndian(frame, 48);
    var rotationSize, evalMultSize := rotationField.value, evalMultField.value;
    // The subtractions stay nonnegative: each is reached only after its bound held.
    if rotationSize == 0 || evalMultSize == 0 || rotationSize > |frame| - 88
       || evalMultSize != |frame| - 88 - rotationSize {
      return None;
    }
    var rotation := frame[88..88 + rotationSize];
    var evalMult := frame[88 + rotationSize..88 + rotationSize + evalMultSize];
    assert evalMult == frame[88 + rotationSize..];
    if frame[16..48] != hash(rotation) || frame[56..88] != hash(evalMult) {
      return None;
    }
    return Some(Segments(rotation, evalMult));
  }

  // ----- layout -----

  // Byte i of a k-byte word, counted from the most significant one.
  lemma {:induction false} BigEndianByte(v: nat, k: nat, i: nat)
    requires i < k
    ensures BigEndian(v, k)[i] == v / Power256(k - 1 - i) % 256
  {
    if i == k - 1 {
      assert v / Power256(0) == v;
    } else {
      BigEndianByte(v / 256, k - 1, i);
      ShiftFirst(v, k - 2 - i);
    }
  }

  lemma {:induction false} ShiftFirst(v: nat, k: nat)
    ensures v / 256 / Power256(k) == v / Power256(k + 1)
  {
    if k == 0 {
      assert v / 256 / Power256(0) == v / 256;
    } else {
      ShiftFirst(v, k - 1);
      ShiftAgain(v / 256, k - 1);
      ShiftAgain(v, k);
    }
  }

  // The field is v in eight bytes, most significant first.
  predicate WordIn(field: seq<Byte>, v: nat) {
    |field| == 8 && forall i | 0 <= i < 8 :: field[i] == v / Power256(7 - i) % 256
  }

  // Where each field of a frame starts.
  lemma {:induction false} FrameLayout(s: Segments, hash: seq<Byte> -> Digest)
    ensures var frame, r := Frame(s, hash), |s.rotationKeys|;
      && |frame| == 88 + r + |s.evalMultKeys|
      && frame[..8] == [0x44, 0x31, 0x42, 0x4b, 0x45, 0x59, 0x30, 0x31]
      && WordIn(frame[8..16], r)
      && frame[16..48] == hash(s.rotationKeys)
      && WordIn(frame[48..56], |s.evalMultKeys|)
      && frame[56..88] == hash(s.evalMultKeys)
      && frame[88..88 + r] == s.rotationKeys && frame[88 + r..] == s.evalMultKeys
  {
    hide BigEndian, WordIn;
    var a, c := BigEndian(|s.rotationKeys|, 8), BigEndian(|s.evalMultKeys|, 8);
    Slices(MAGIC, a, hash(s.rotationKeys), c, hash(s.evalMultKeys), s.rotationKeys, s.evalMultKeys);
    WordIsBigEndian(|s.rotationKeys|);
    WordIsBigEndian(|s.evalMultKeys|);
  }

  lemma {:induction false} WordIsBigEndian(v: nat)
    ensures WordIn(BigEndian(v, 8), v)
  {
    hide BigEndian, Power256;
    forall i | 0 <= i < 8 ensures BigEndian(v, 8)[i] == v / Power256(7 - i) % 256 {
      BigEndianByte(v, 8, i);
    }
  }

  // ----- round trips -----

  // Parsing a built frame gives back the segments.
  lemma {:induction false} ParseOfBuild(s: Segments, hash: seq<Byte> -> Digest)
    requires Nonempty(s) && Representable(s)
    ensures Accepts(Frame(s, hash), hash) && SegmentsOf(Frame(s, hash)) == s
  {
    var frame := Frame(s, hash);
    WordIsEightBytes();
    ValueOfBigEndian(|s.rotationKeys|, 8);
    ValueOfBigEndian(|s.evalMultKeys|, 8);
    Slices(MAGIC, BigEndian(|s.rotationKeys|, 8), hash(s.rotationKeys), BigEndian(|s.evalMultKeys|, 8),
           hash(s.evalMultKeys), s.rotationKeys, s.evalMultKeys);
  }

  lemma {:induction false} Slices(
    magic: seq<Byte>, a: seq<Byte>, b: seq<Byte>, c: seq<Byte>, d: seq<Byte>, e: seq<Byte>, f: seq<Byte>)
    requires |magic| == |a| == |c| == 8 && |b| == |d| == 32
    ensures var frame := magic + a + b + c + d + e + f;
      && |frame| == 88 + |e| + |f|
      && frame[..8] == magic && frame[8..16] == a && frame[16..48] == b && frame[48..56] == c
      && frame[56..88] == d && frame[88..88 + |e|] == e && frame[88 + |e|..] == f
  {
  }

  // Building from what an accepted frame holds gives back the frame, byte for byte.
  lemma {:induction false} BuildOfParse(frame: seq<Byte>, hash: seq<Byte> -> Digest)
    requires Accepts(frame, hash)
    ensures Nonempty(SegmentsOf(frame)) && Frame(SegmentsOf(frame), hash) == frame
  {
    var s := SegmentsOf(frame);
    BigEndianOfValue(frame[8..16]);
    BigEndianOfValue(frame[48..56]);
    Joined(frame, |s.rotationKeys|);
  }

  lemma {:induction false} Joined(frame: seq<Byte>, k: nat)
    requires 88 + k <= |frame|
    ensures frame == frame[..8] + frame[8..16] + frame[16..48] + frame[48..56] + frame[56..88]
      + frame[88..88 + k] + frame[88 + k..]
  {
  }

  // Hence frames are lossless: equal frames carry equal segments.
  lemma {:induction false} FrameInjective(a: Segments, b: Segments, hash: seq<Byte> -> Digest)
    requires Nonempty(a) && Nonempty(b) && Representable(a) && Representable(b)
    requires Frame(a, hash) == Frame(b, hash)
    ensures a == b
  {
    ParseOfBuild(a, hash);
    ParseOfBuild(b, hash);
  }
}
