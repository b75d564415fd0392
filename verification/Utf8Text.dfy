/** Strict UTF-8 decoding (sections 3 and 4 of RFC 3629) and the trimming of a cut text. */
module Utf8Text {
  import opened Bytes
  import opened Unicode

  datatype Decoded = Malformed | Point(c: Scalar, width: nat)

  predicate Tail(b: Byte, low: Byte, high: Byte) {
    low <= b <= high
  }

  predicate Tails(s: seq<Byte>, from: nat, to: nat)
    requires to <= |s|
  {
    forall i :: from <= i < to ==> Tail(s[i], 0x80, 0xbf)
  }

  /** What a byte of a sequence contributes above the base of its range. */
  function Bits(b: Byte, base: int): int {
    (b as int) - base
  }

  /** The character at the start of `s`, by the byte ranges of the grammar. */
  function First(s: seq<Byte>): (r: Decoded)
    ensures r.Point? ==> 1 <= r.width <= 4 && r.width <= |s|
  {
    if s == [] then Malformed
    else if s[0] < 0x80 then Point(s[0], 1)
    else if 0xc2 <= s[0] <= 0xdf then
      if |s| >= 2 && Tails(s, 1, 2) then Point(Bits(s[0], 0xc0) * 0x40 + Bits(s[1], 0x80), 2) else Malformed
    else if 0xe0 <= s[0] <= 0xef then
      if |s| >= 3 && Tails(s, 1, 3) && (s[0] == 0xe0 ==> s[1] >= 0xa0) && (s[0] == 0xed ==> s[1] <= 0x9f)
      then Point(Bits(s[0], 0xe0) * 0x1000 + Bits(s[1], 0x80) * 0x40 + Bits(s[2], 0x80), 3) else Malformed
    else if 0xf0 <= s[0] <= 0xf4 then
      if |s| >= 4 && Tails(s, 1, 4) && (s[0] == 0xf0 ==> s[1] >= 0x90) && (s[0] == 0xf4 ==> s[1] <= 0x8f)
      then Point(Bits(s[0], 0xf0) * 0x40000 + Bits(s[1], 0x80) * 0x1000 + Bits(s[2], 0x80) * 0x40 + Bits(s[3], 0x80), 4)
      else Malformed
    else Malformed
  }

  predicate Valid(s: seq<Byte>)
    decreases |s|
  {
    s == [] || (First(s).Point? && Valid(s[First(s).width..]))
  }

  /** The characters of a valid byte string. */
  function Points(s: seq<Byte>): seq<Scalar>
    requires Valid(s)
    decreases |s|
  {
    if s == [] then [] else [First(s).c] + Points(s[First(s).width..])
  }

  const BOM: Scalar := 0xfeff

  /** The text a decoder shows: a leading byte order mark is dropped. */
  function Shown(points: seq<Scalar>): seq<Scalar> {
    if points != [] && points[0] == BOM then points[1..] else points
  }

  // ---- Decoding is the inverse of encoding ----

  lemma EncodingDecodes(c: Scalar, rest: seq<Byte>)
    ensures First(Utf8(c) + rest) == Point(c, |Utf8(c)|)
  {
    var u := Utf8(c);
    var s := u + rest;
    assert forall i :: 0 <= i < |u| ==> s[i] == u[i];
    if |u| == 3 {
      ThreeByteCase(c, s);
    } else if |u| == 4 {
      FourByteCase(c, s);
    }
  }

  lemma ThreeByteCase(c: Scalar, s: seq<Byte>)
    requires 0x800 <= c < 0x10000 && |s| >= 3
    requires s[0] == 0xe0 + c / 0x1000 && s[1] == 0x80 + c / 0x40 % 0x40 && s[2] == 0x80 + c % 0x40
    ensures First(s) == Point(c, 3)
  {
    assert c / 0x40 == c / 0x1000 * 0x40 + c / 0x40 % 0x40;
    assert Tails(s, 1, 3);
  }

  lemma FourByteCase(c: Scalar, s: seq<Byte>)
    requires 0x10000 <= c && |s| >= 4
    requires s[0] == 0xf0 + c / 0x40000 && s[1] == 0x80 + c / 0x1000 % 0x40 && s[2] == 0x80 + c / 0x40 % 0x40
    requires s[3] == 0x80 + c % 0x40
    ensures First(s) == Point(c, 4)
  {
    assert c / 0x1000 == c / 0x40000 * 0x40 + c / 0x1000 % 0x40;
    assert c / 0x40 == c / 0x1000 * 0x40 + c / 0x40 % 0x40;
    assert Tails(s, 1, 4);
  }

  lemma DecodingEncodes(s: seq<Byte>)
    requires First(s).Point?
    ensures s[..First(s).width] == Utf8(First(s).c)
  {
    var r := First(s);
    if r.width == 3 {
      ThreeBytes(Bits(s[0], 0xe0), Bits(s[1], 0x80), Bits(s[2], 0x80));
    } else if r.width == 4 {
      FourBytes(Bits(s[0], 0xf0), Bits(s[1], 0x80), Bits(s[2], 0x80), Bits(s[3], 0x80));
    }
  }

  lemma ThreeBytes(a: nat, b: nat, c: nat)
    requires a < 16 && b < 0x40 && c < 0x40
    ensures var n := a * 0x1000 + b * 0x40 + c; n / 0x1000 == a && n / 0x40 % 0x40 == b && n % 0x40 == c
  {
  }

  lemma FourBytes(a: nat, b: nat, c: nat, d: nat)
    requires a < 8 && b < 0x40 && c < 0x40 && d < 0x40
    ensures var n := a * 0x40000 + b * 0x1000 + c * 0x40 + d;
            n / 0x40000 == a && n / 0x1000 % 0x40 == b && n / 0x40 % 0x40 == c && n % 0x40 == d
  {
    var n := a * 0x40000 + b * 0x1000 + c * 0x40 + d;
    assert n / 0x1000 == a * 0x40 + b;
    assert n / 0x40 == a * 0x1000 + b * 0x40 + c;
  }

  lemma {:induction false} EncodedIsValid(cs: seq<Scalar>)
    ensures Valid(Utf8All(cs)) && Points(Utf8All(cs)) == cs
  {
    if cs != [] {
      var u, rest := Utf8(cs[0]), Utf8All(cs[1..]);
      EncodedIsValid(cs[1..]);
      EncodingDecodes(cs[0], rest);
      assert (u + rest)[|u|..] == rest;
      assert cs == [cs[0]] + cs[1..];
    }
  }

  lemma {:induction false} ValidIsEncoded(s: seq<Byte>)
    requires Valid(s)
    ensures Utf8All(Points(s)) == s
    decreases |s|
  {
    if s != [] {
      var r := First(s);
      ValidIsEncoded(s[r.width..]);
      FirstRebuilds(s);
      Utf8Cons(r.c, Points(s[r.width..]));
    }
  }

  lemma FirstRebuilds(s: seq<Byte>)
    requires First(s).Point?
    ensures Utf8(First(s).c) + s[First(s).width..] == s
  {
    DecodingEncodes(s);
    assert s[..First(s).width] + s[First(s).width..] == s;
  }

  /** A byte string is accepted exactly when it is the encoding of some characters. */
  lemma ValidExactly(s: seq<Byte>)
    ensures Valid(s) <==> exists cs :: Utf8All(cs) == s
  {
    if Valid(s) {
      ValidIsEncoded(s);
    }
    if cs :| Utf8All(cs) == s {
      EncodedIsValid(cs);
    }
  }

  // ---- The longest valid prefix ----

  /** How many bytes decode before the first that does not begin a character. */
  function Longest(s: seq<Byte>): (n: nat)
    ensures n <= |s|
    decreases |s|
  {
    if First(s).Malformed? then 0 else First(s).width + Longest(s[First(s).width..])
  }

  lemma {:induction false} LongestIsValid(s: seq<Byte>)
    ensures Valid(s[..Longest(s)])
    ensures Valid(s) ==> Longest(s) == |s|
    decreases |s|
  {
    var r := First(s);
    if r.Point? {
      var rest := s[r.width..];
      LongestIsValid(rest);
      var p := s[..Longest(s)];
      FirstOfPrefix(s, |p|);
      assert p[r.width..] == rest[..Longest(rest)];
    }
  }

  /** Cutting off bytes after a character leaves it as it is. */
  lemma FirstOfPrefix(s: seq<Byte>, n: nat)
    requires n <= |s|
    ensures First(s).Point? && First(s).width <= n ==> First(s[..n]) == First(s)
    ensures First(s[..n]).Point? ==> First(s) == First(s[..n])
  {
  }

  lemma {:induction false} LongestIsLongest(s: seq<Byte>, n: nat)
    requires n <= |s| && Valid(s[..n])
    ensures n <= Longest(s)
    decreases |s|
  {
    if n > 0 {
      FirstOfPrefix(s, n);
      var w := First(s).width;
      assert s[..n][w..] == s[w..][..n - w];
      LongestIsLongest(s[w..], n - w);
    }
  }

  /** A cut anywhere in a valid text leaves at most three bytes of an unfinished character. */
  lemma {:induction false} CutLeavesThree(s: seq<Byte>, rest: seq<Byte>)
    requires Valid(s + rest)
    ensures |s| - Longest(s) <= 3
    decreases |s|
  {
    if |s| > 3 {
      var r := First(s + rest);
      assert (s + rest)[..|s|] == s;
      FirstOfPrefix(s + rest, |s|);
      assert (s + rest)[r.width..] == s[r.width..] + rest;
      CutLeavesThree(s[r.width..], rest);
    }
  }

  // ---- The trimming the search uses ----

  /** The longest valid prefix when at most three bytes follow it, else nothing. */
  function Trimmed(bytes: seq<Byte>): seq<Byte> {
    if |bytes| - Longest(bytes) <= 3 then bytes[..Longest(bytes)] else []
  }

  /** The input when it is valid, else what is left after dropping one, two or three bytes, else nothing. */
  method CompleteUtf8Prefix(bytes: seq<Byte>) returns (prefix: seq<Byte>)
    ensures prefix <= bytes && Valid(prefix)
    ensures prefix == Trimmed(bytes)
  {
    LongestIsValid(bytes);
    assert bytes[..|bytes|] == bytes;
    if |bytes| == 0 {
      return bytes;
    }
    if Valid(bytes) {
      return bytes;
    }
    var drop := 1;
    while drop <= 3 && drop <= |bytes|
      invariant 1 <= drop <= 4 && drop - 1 <= |bytes|
      invariant drop <= |bytes| - Longest(bytes)
    {
      var candidate := bytes[..|bytes| - drop];
      if Valid(candidate) {
        LongestIsLongest(bytes, |candidate|);
        return candidate;
      }
      drop := drop + 1;
    }
    prefix := [];
  }

  /** Exactly when the trimming finds the longest valid prefix: when at most three bytes follow it, or there is none. */
  lemma TrimmedExactly(bytes: seq<Byte>)
    ensures (forall n :: 0 <= n <= |bytes| && Valid(bytes[..n]) ==> n <= |Trimmed(bytes)|) <==>
            |bytes| - Longest(bytes) <= 3 || Longest(bytes) == 0
  {
    LongestIsValid(bytes);
    forall n | 0 <= n <= |bytes| && Valid(bytes[..n])
      ensures n <= Longest(bytes)
    {
      LongestIsLongest(bytes, n);
    }
  }

  /** A cut of a valid text is trimmed to its longest valid prefix, and loses at most three bytes. */
  method TrimCut(text: seq<Byte>, cut: nat) returns (prefix: seq<Byte>)
    requires Valid(text) && cut <= |text|
    ensures prefix <= text[..cut] && Valid(prefix) && cut - |prefix| <= 3
    ensures forall n :: 0 <= n <= cut && Valid(text[..n]) ==> n <= |prefix|
  {
    var bytes := text[..cut];
    assert text == bytes + text[cut..];
    CutLeavesThree(bytes, text[cut..]);
    prefix := CompleteUtf8Prefix(bytes);
    forall n | 0 <= n <= cut && Valid(text[..n])
      ensures n <= |prefix|
    {
      assert bytes[..n] == text[..n];
      LongestIsLongest(bytes, n);
    }
  }
}
