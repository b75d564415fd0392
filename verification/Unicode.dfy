/** Unicode text: UTF-16 code units as JavaScript strings hold them, and UTF-8 bytes. */
module Unicode {
  import opened Bytes

  type Unit = u: int | 0 <= u < 0x10000
  type Text = seq<Unit>

  /** A field name or literal of the program as UTF-16 text. */
  function Name(s: string): (t: Text)
    ensures |t| == |s|
  {
    seq(|s|, i requires 0 <= i < |s| => (s[i] as int) % 0x10000)
  }

  /** A Unicode scalar value. */
  type Scalar = c: int | 0 <= c < 0xd800 || 0xe000 <= c < 0x110000

  predicate IsHigh(u: Unit) {
    0xd800 <= u <= 0xdbff
  }

  predicate IsLow(u: Unit) {
    0xdc00 <= u <= 0xdfff
  }

  /** The UTF-16 form of one scalar value. */
  function Utf16(c: Scalar): (r: Text)
    ensures |r| == if c < 0x10000 then 1 else 2
    ensures |r| == 1 ==> !IsHigh(r[0]) && !IsLow(r[0])
    ensures |r| == 2 ==> IsHigh(r[0]) && IsLow(r[1])
  {
    if c < 0x10000 then [c] else [0xd800 + (c - 0x10000) / 0x400, 0xdc00 + (c - 0x10000) % 0x400]
  }

  function Utf16All(cs: seq<Scalar>): Text {
    if cs == [] then [] else Utf16(cs[0]) + Utf16All(cs[1..])
  }

  /** The UTF-8 form of one scalar value (section 3 of RFC 3629). */
  function Utf8(c: Scalar): (r: seq<Byte>)
    ensures 1 <= |r| <= 4
  {
    if c < 0x80 then [c]
    else if c < 0x800 then [0xc0 + c / 0x40, 0x80 + c % 0x40]
    else if c < 0x10000 then [0xe0 + c / 0x1000, 0x80 + c / 0x40 % 0x40, 0x80 + c % 0x40]
    else [0xf0 + c / 0x40000, 0x80 + c / 0x1000 % 0x40, 0x80 + c / 0x40 % 0x40, 0x80 + c % 0x40]
  }

  function Utf8All(cs: seq<Scalar>): seq<Byte> {
    if cs == [] then [] else Utf8(cs[0]) + Utf8All(cs[1..])
  }

  lemma Utf8Cons(c: Scalar, cs: seq<Scalar>)
    ensures Utf8All([c] + cs) == Utf8(c) + Utf8All(cs)
  {
  }

  /** A surrogate that is not half of a pair. */
  predicate Unpaired(s: Text) {
    if s == [] then false
    else if IsHigh(s[0]) then |s| == 1 || !IsLow(s[1]) || Unpaired(s[2..])
    else IsLow(s[0]) || Unpaired(s[1..])
  }

  predicate AsciiText(s: Text) {
    forall i :: 0 <= i < |s| ==> s[i] < 0x80
  }

  lemma {:induction false} AsciiPaired(s: Text)
    requires AsciiText(s)
    ensures !Unpaired(s)
  {
    if s != [] {
      AsciiPaired(s[1..]);
    }
  }

  function Pair(high: Unit, low: Unit): Scalar
    requires IsHigh(high) && IsLow(low)
  {
    0x10000 + (high - 0xd800) * 0x400 + (low - 0xdc00)
  }

  /** The scalar values a string without unpaired surrogates is made of. */
  function Scalars(s: Text): (cs: seq<Scalar>)
    requires !Unpaired(s)
  {
    if s == [] then []
    else if IsHigh(s[0]) then [Pair(s[0], s[1])] + Scalars(s[2..])
    else [s[0]] + Scalars(s[1..])
  }

  lemma {:induction false} ScalarsEncode(s: Text)
    requires !Unpaired(s)
    ensures Utf16All(Scalars(s)) == s
  {
    if s != [] {
      var n := if IsHigh(s[0]) then 2 else 1;
      ScalarsEncode(s[n..]);
      assert Scalars(s)[1..] == Scalars(s[n..]);
      assert s == s[..n] + s[n..];
    }
  }

  lemma {:induction false} EncodedIsPaired(cs: seq<Scalar>)
    ensures !Unpaired(Utf16All(cs)) && Scalars(Utf16All(cs)) == cs
  {
    if cs != [] {
      EncodedIsPaired(cs[1..]);
      var unit, rest := Utf16(cs[0]), Utf16All(cs[1..]);
      assert (unit + rest)[|unit|..] == rest;
      assert cs == [cs[0]] + cs[1..];
    }
  }

  /** A string is free of unpaired surrogates exactly when it encodes some sequence of scalar values. */
  lemma PairedExactly(s: Text)
    ensures !Unpaired(s) <==> exists cs :: Utf16All(cs) == s
  {
    if !Unpaired(s) {
      ScalarsEncode(s);
    }
    if cs :| Utf16All(cs) == s {
      EncodedIsPaired(cs);
    }
  }

  method HasUnpairedSurrogate(value: Text) returns (unpaired: bool)
    ensures unpaired == Unpaired(value)
  {
    var index := 0;
    assert value[0..] == value;
    while index < |value|
      invariant index <= |value|
      invariant Unpaired(value) == Unpaired(value[index..])
    {
      var code := value[index];
      if code >= 0xd800 && code <= 0xdbff {
        if index + 1 >= |value| || !(value[index + 1] >= 0xdc00 && value[index + 1] <= 0xdfff) {
          return true;
        }
        assert value[index..][2..] == value[index + 2..];
        index := index + 1;
      } else if code >= 0xdc00 && code <= 0xdfff {
        return true;
      } else {
        assert value[index..][1..] == value[index + 1..];
      }
      index := index + 1;
    }
    unpaired := false;
  }

  /** The code point at the start of a string, a surrogate of its own when it is not half of a pair. */
  function CodePoint(s: Text): (r: (nat, nat))
    requires s != []
    ensures 1 <= r.1 <= 2 && r.1 <= |s|
  {
    if IsHigh(s[0]) && |s| > 1 && IsLow(s[1]) then (Pair(s[0], s[1]), 2) else (s[0], 1)
  }

  function PointLength(point: nat): nat {
    if point <= 0x7f then 1 else if point <= 0x7ff then 2 else if point <= 0xffff then 3 else 4
  }

  function Utf8Length(s: Text): nat {
    if s == [] then 0
    else
      var (point, width) := CodePoint(s);
      PointLength(point) + Utf8Length(s[width..])
  }

  method Utf8ByteLength(value: Text) returns (bytes: nat)
    ensures bytes == Utf8Length(value)
  {
    bytes := 0;
    var index := 0;
    assert value[0..] == value;
    while index < |value|
      invariant index <= |value|
      invariant Utf8Length(value) == bytes + Utf8Length(value[index..])
    {
      var (codePoint, width) := CodePoint(value[index..]);
      assert value[index..][width..] == value[index + width..];
      bytes := bytes + (if codePoint <= 0x7f then 1 else if codePoint <= 0x7ff then 2
                   else if codePoint <= 0xffff then 3 else 4);
      index := index + width;
    }
  }

  /** What the byte count means: the length of the string's UTF-8 encoding. */
  lemma {:induction false} Utf8LengthIs(s: Text)
    requires !Unpaired(s)
    ensures Utf8Length(s) == |Utf8All(Scalars(s))|
  {
    if s != [] {
      var n := if IsHigh(s[0]) then 2 else 1;
      Utf8LengthIs(s[n..]);
      assert Scalars(s)[1..] == Scalars(s[n..]);
    }
  }

  /** Every code unit takes at least one byte. */
  lemma {:induction false} UnitsFit(s: Text)
    ensures |s| <= Utf8Length(s)
  {
    if s != [] {
      UnitsFit(s[CodePoint(s).1..]);
    }
  }
}
