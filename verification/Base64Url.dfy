/** Base64 as the platform computes it (section 4 of RFC 4648) and its URL form without padding (section 5). */
module Base64Url {
  import opened Bytes
  import opened Unicode
  import opened Wrappers

  const PLUS: Unit := 0x2b
  const SLASH: Unit := 0x2f
  const DASH: Unit := 0x2d
  const UNDERSCORE: Unit := 0x5f
  const PAD: Unit := 0x3d

  function Digit(n: int): Unit
    requires 0 <= n < 64
  {
    if n < 26 then 0x41 + n
    else if n < 52 then 0x61 + (n - 26)
    else if n < 62 then 0x30 + (n - 52)
    else if n == 62 then PLUS else SLASH
  }

  function Value(u: Unit): (n: int)
    ensures -1 <= n < 64
    ensures n >= 0 ==> Digit(n) == u
  {
    if 0x41 <= u <= 0x5a then u - 0x41
    else if 0x61 <= u <= 0x7a then u - 0x61 + 26
    else if 0x30 <= u <= 0x39 then u - 0x30 + 52
    else if u == PLUS then 62
    else if u == SLASH then 63
    else -1
  }

  /** The digits of up to three bytes. */
  function Group(s: seq<Byte>): (r: Text)
    requires 1 <= |s| <= 3
    ensures |r| == |s| + 1
  {
    if |s| == 1 then [Digit(s[0] / 4), Digit(s[0] % 4 * 16)]
    else if |s| == 2 then [Digit(s[0] / 4), Digit(s[0] % 4 * 16 + s[1] / 16), Digit(s[1] % 16 * 4)]
    else [Digit(s[0] / 4), Digit(s[0] % 4 * 16 + s[1] / 16), Digit(s[1] % 16 * 4 + s[2] / 64), Digit(s[2] % 64)]
  }

  /** `btoa`: groups of four, the last one padded. */
  function Btoa(s: seq<Byte>): Text {
    if s == [] then []
    else if |s| == 1 then Group(s) + [PAD, PAD]
    else if |s| == 2 then Group(s) + [PAD]
    else Group(s[..3]) + Btoa(s[3..])
  }

  /** Base64 digits without padding. */
  function Digits(s: seq<Byte>): Text {
    if s == [] then [] else if |s| < 3 then Group(s) else Group(s[..3]) + Digits(s[3..])
  }

  predicate AllDigits(t: Text) {
    forall i :: 0 <= i < |t| ==> Value(t[i]) >= 0
  }

  /** The bytes of digits, leftover bits dropped. */
  function BytesOf(t: Text): (r: seq<Byte>)
    requires AllDigits(t)
  {
    if |t| < 2 then []
    else if |t| == 2 then [Value(t[0]) * 4 + Value(t[1]) / 16]
    else if |t| == 3 then [Value(t[0]) * 4 + Value(t[1]) / 16, Value(t[1]) % 16 * 16 + Value(t[2]) / 4]
    else
      [Value(t[0]) * 4 + Value(t[1]) / 16, Value(t[1]) % 16 * 16 + Value(t[2]) / 4, Value(t[2]) % 4 * 64 + Value(t[3])]
      + BytesOf(t[4..])
  }

  /** `atob`: up to two pads are taken off a text whose length is a multiple of four. */
  function Atob(t: Text): Option<seq<Byte>> {
    var u := if |t| % 4 != 0 || t == [] || t[|t| - 1] != PAD then t
             else if t[|t| - 2] == PAD then t[..|t| - 2] else t[..|t| - 1];
    if |u| % 4 == 1 || !AllDigits(u) then None else Some(BytesOf(u))
  }

  // ---- The URL form ----

  function ToUrlUnit(u: Unit): Unit {
    if u == PLUS then DASH else if u == SLASH then UNDERSCORE else u
  }

  function FromUrlUnit(u: Unit): Unit {
    if u == DASH then PLUS else if u == UNDERSCORE then SLASH else u
  }

  function ToUrl(t: Text): Text {
    seq(|t|, i requires 0 <= i < |t| => ToUrlUnit(t[i]))
  }

  function FromUrl(t: Text): Text {
    seq(|t|, i requires 0 <= i < |t| => FromUrlUnit(t[i]))
  }

  function WithoutPads(t: Text): Text {
    if t != [] && t[|t| - 1] == PAD then WithoutPads(t[..|t| - 1]) else t
  }

  /** The URL form of bytes. */
  function Encoded(s: seq<Byte>): Text {
    ToUrl(Digits(s))
  }

  /** Byte by byte, between the byte array and the platform's binary string. */
  method Copied(bytes: seq<Byte>) returns (copy: seq<Byte>)
    ensures copy == bytes
  {
    copy := [];
    for i := 0 to |bytes|
      invariant copy == bytes[..i]
    {
      copy := copy + [bytes[i]];
    }
    assert bytes[..|bytes|] == bytes;
  }

  method BytesToBase64Url(bytes: seq<Byte>) returns (text: Text)
    ensures text == Encoded(bytes)
  {
    var binary := Copied(bytes);
    text := WithoutPads(ToUrl(Btoa(binary)));
    UrlForm(bytes);
  }

  /** The bytes of a URL form; fails on characters outside the alphabet and on impossible lengths. */
  function Decoded(cursor: Text): Option<seq<Byte>> {
    if |cursor| % 4 == 1 || !AllDigits(FromUrl(cursor)) then None else Some(BytesOf(FromUrl(cursor)))
  }

  method Base64UrlToBytes(cursor: Text) returns (bytes: Option<seq<Byte>>)
    requires PAD !in cursor
    ensures bytes == Decoded(cursor)
  {
    var base64 := FromUrl(cursor);
    var remainder := |base64| % 4;
    if remainder == 1 {
      return None;
    }
    var padded := base64 + (if remainder == 2 then [PAD, PAD] else if remainder == 3 then [PAD] else []);
    Unpadded(cursor, padded);
    var binary := Atob(padded);
    if binary == None {
      return None;
    }
    var copy := Copied(binary.value);
    bytes := Some(copy);
  }

  lemma Unpadded(cursor: Text, padded: Text)
    requires PAD !in cursor && |cursor| % 4 != 1
    requires padded ==
             FromUrl(cursor) + (if |cursor| % 4 == 2 then [PAD, PAD] else if |cursor| % 4 == 3 then [PAD] else [])
    ensures Atob(padded) == Decoded(cursor)
  {
    hide AllDigits;
    var t := FromUrl(cursor);
    assert forall i :: 0 <= i < |cursor| ==> cursor[i] in cursor;
    var r := |cursor| % 4;
    if r == 2 {
      PadsOff(t, padded, 2);
    } else if r == 3 {
      PadsOff(t, padded, 1);
    } else {
      assert padded == t;
    }
  }

  lemma PadsOff(t: Text, padded: Text, n: nat)
    requires t != [] && t[|t| - 1] != PAD && 1 <= n <= 2 && (|t| + n) % 4 == 0
    requires padded == t + (if n == 2 then [PAD, PAD] else [PAD])
    ensures Atob(padded) == if |t| % 4 == 1 || !AllDigits(t) then None else Some(BytesOf(t))
  {
    assert padded[..|t|] == t;
    assert padded[|padded| - 1] == PAD;
    assert n == 1 ==> padded[|padded| - 2] == t[|t| - 1];
  }

  // ---- The characters ----

  /** The alphabets of sections 4 and 5 of RFC 4648, and the padding. */
  lemma Alphabets(n: int)
    requires 0 <= n < 64
    ensures n < 26 ==> Digit(n) == ('A' as int) + n
    ensures 26 <= n < 52 ==> Digit(n) == ('a' as int) + (n - 26)
    ensures 52 <= n < 62 ==> Digit(n) == ('0' as int) + (n - 52)
    ensures Digit(62) == '+' as int && Digit(63) == '/' as int
    ensures n < 62 ==> ToUrlUnit(Digit(n)) == Digit(n)
    ensures ToUrlUnit(Digit(62)) == '-' as int && ToUrlUnit(Digit(63)) == '_' as int
  {
  }

  /** One and two bytes are padded to four characters, three are not. */
  lemma Padding(a: Byte, b: Byte, c: Byte)
    ensures |Btoa([a])| == |Btoa([a, b])| == |Btoa([a, b, c])| == 4
    ensures Btoa([a])[2] == Btoa([a])[3] == Btoa([a, b])[3] == '=' as int
    ensures |Encoded([a])| == 2 && |Encoded([a, b])| == 3 && |Encoded([a, b, c])| == 4
  {
    var s: seq<Byte> := [a, b, c];
    assert s[3..] == [] && s[..3] == s;
    assert Btoa(s) == Group(s) + [] && Digits(s) == Group(s) + [];
  }

  /** A text that is one character longer than whole groups is not decoded. */
  lemma LooseCharacter(t: Text)
    requires |t| % 4 == 1
    ensures Atob(t) == None && Decoded(t) == None
  {
  }

  // ---- Round trips ----

  lemma DigitValue(n: int)
    requires 0 <= n < 64
    ensures Value(Digit(n)) == n && Digit(n) != PAD
    ensures FromUrlUnit(ToUrlUnit(Digit(n))) == Digit(n) && ToUrlUnit(Digit(n)) != PAD
  {
  }

  /** Three bytes cut into four times six bits, and put together again. */
  lemma SixBits(a: int, b: int, c: int)
    requires 0 <= a < 256 && 0 <= b < 256 && 0 <= c < 256
    ensures a / 4 * 4 + (a % 4 * 16 + b / 16) / 16 == a
    ensures (a % 4 * 16 + b / 16) % 16 * 16 + (b % 16 * 4 + c / 64) / 4 == b
    ensures (b % 16 * 4 + c / 64) % 4 * 64 + c % 64 == c
  {
  }

  lemma FourDigits(p: int, q: int, r: int, t: int, g: Text)
    requires 0 <= p < 64 && 0 <= q < 64 && 0 <= r < 64 && 0 <= t < 64
    requires g == [Digit(p), Digit(q), Digit(r), Digit(t)]
    ensures AllDigits(g) && BytesOf(g) == [p * 4 + q / 16, q % 16 * 16 + r / 4, r % 4 * 64 + t]
  {
    DigitValue(p);
    DigitValue(q);
    DigitValue(r);
    DigitValue(t);
    assert g[4..] == [];
  }

  lemma ThreeBytes(a: Byte, b: Byte, c: Byte, g: Text)
    requires g == [Digit(a / 4), Digit(a % 4 * 16 + b / 16), Digit(b % 16 * 4 + c / 64), Digit(c % 64)]
    ensures AllDigits(g) && BytesOf(g) == [a, b, c]
  {
    SixBits(a, b, c);
    FourDigits(a / 4, a % 4 * 16 + b / 16, b % 16 * 4 + c / 64, c % 64, g);
  }

  lemma TwoBytes(a: Byte, b: Byte, g: Text)
    requires g == [Digit(a / 4), Digit(a % 4 * 16 + b / 16), Digit(b % 16 * 4)]
    ensures AllDigits(g) && BytesOf(g) == [a, b]
  {
    SixBits(a, b, 0);
    DigitValue(a / 4);
    DigitValue(a % 4 * 16 + b / 16);
    DigitValue(b % 16 * 4);
  }

  lemma OneByte(a: Byte, g: Text)
    requires g == [Digit(a / 4), Digit(a % 4 * 16)]
    ensures AllDigits(g) && BytesOf(g) == [a]
  {
    DigitValue(a / 4);
    DigitValue(a % 4 * 16);
  }

  lemma GroupDigits(s: seq<Byte>)
    requires 1 <= |s| <= 3
    ensures AllDigits(Group(s)) && BytesOf(Group(s)) == s
  {
    if |s| == 1 {
      OneByte(s[0], Group(s));
      assert s == [s[0]];
    } else if |s| == 2 {
      TwoBytes(s[0], s[1], Group(s));
      assert s == [s[0], s[1]];
    } else {
      ThreeBytes(s[0], s[1], s[2], Group(s));
      assert s == [s[0], s[1], s[2]];
    }
  }

  lemma BytesOfGroup(g: Text, t: Text)
    requires |g| == 4 && AllDigits(g) && AllDigits(t)
    ensures AllDigits(g + t) && BytesOf(g + t) == BytesOf(g) + BytesOf(t)
  {
  }

  lemma {:induction false} DigitsLength(s: seq<Byte>)
    ensures |Digits(s)| % 4 != 1
  {
    hide Group;
    if |s| >= 3 {
      DigitsLength(s[3..]);
      assert |Digits(s)| == 4 + |Digits(s[3..])|;
    }
  }

  lemma {:induction false} DigitsDecode(s: seq<Byte>)
    ensures AllDigits(Digits(s)) && BytesOf(Digits(s)) == s
  {
    if s == [] {
    } else if |s| < 3 {
      GroupDigits(s);
    } else {
      DigitsDecode(s[3..]);
      GroupStep(s, Digits(s[3..]));
    }
  }

  lemma GroupStep(s: seq<Byte>, rest: Text)
    requires |s| >= 3 && AllDigits(rest) && BytesOf(rest) == s[3..]
    ensures AllDigits(Group(s[..3]) + rest) && BytesOf(Group(s[..3]) + rest) == s
  {
    GroupDigits(s[..3]);
    BytesOfGroup(Group(s[..3]), rest);
    assert s[..3] + s[3..] == s;
  }

  lemma FromToUrl(t: Text)
    requires AllDigits(t)
    ensures FromUrl(ToUrl(t)) == t && PAD !in ToUrl(t)
  {
  }

  /** Decoding inverts encoding. */
  lemma EncodedDecodes(s: seq<Byte>)
    ensures Decoded(Encoded(s)) == Some(s) && PAD !in Encoded(s)
  {
    DigitsDecode(s);
    DigitsLength(s);
    FromToUrl(Digits(s));
  }

  // ---- The platform's form, translated, is the URL form ----

  lemma {:induction false} BtoaIs(s: seq<Byte>) returns (pads: Text)
    ensures Btoa(s) == Digits(s) + pads && |pads| <= 2 && forall i :: 0 <= i < |pads| ==> pads[i] == PAD
  {
    if s == [] {
      pads := [];
    } else if |s| == 1 {
      pads := [PAD, PAD];
    } else if |s| == 2 {
      pads := [PAD];
    } else {
      pads := BtoaIs(s[3..]);
    }
  }

  lemma {:induction false} PadsGo(t: Text, pads: Text)
    requires PAD !in t && forall i :: 0 <= i < |pads| ==> pads[i] == PAD
    ensures WithoutPads(t + pads) == t
    decreases |pads|
  {
    if pads == [] {
      assert t + pads == t;
    } else {
      var n := |pads| - 1;
      assert (t + pads)[..|t + pads| - 1] == t + pads[..n];
      PadsGo(t, pads[..n]);
    }
  }

  lemma UrlForm(s: seq<Byte>)
    ensures WithoutPads(ToUrl(Btoa(s))) == Encoded(s)
  {
    var pads := BtoaIs(s);
    DigitsDecode(s);
    FromToUrl(Digits(s));
    assert ToUrl(Btoa(s)) == ToUrl(Digits(s)) + pads;
    PadsGo(ToUrl(Digits(s)), pads);
  }
}
