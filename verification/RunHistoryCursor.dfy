/** The run-history cursor: a versioned JSON payload as UTF-8 in URL-safe Base64. */
module RunHistoryCursor {
  import opened Bytes
  import opened Unicode
  import opened Utf8Text
  import opened JsonText
  import opened JsonReader
  import B = Base64Url
  import opened Wrappers

  const MAX_LENGTH := 1024

  datatype Cursor = Cursor(engagementId: Text, createdAt: Text, id: Text)

  // ---- Strings as JSON.stringify writes them ----

  /** A code unit as four hexadecimal digits. */
  function UnitEscape(u: Unit): Text {
    [BACKSLASH, 0x75, HexDigit(u / 4096), HexDigit(u / 256 % 16), HexDigit(u / 16 % 16), HexDigit(u % 16)]
  }

  /** Pairs of surrogates stay, single ones are escaped. */
  function EscapeText(s: Text): Text {
    if s == [] then []
    else if IsHigh(s[0]) && |s| > 1 && IsLow(s[1]) then s[..2] + EscapeText(s[2..])
    else if IsHigh(s[0]) || IsLow(s[0]) then UnitEscape(s[0]) + EscapeText(s[1..])
    else Escape(s[0]) + EscapeText(s[1..])
  }

  function StringText(s: Text): Text {
    [QUOTE] + EscapeText(s) + [QUOTE]
  }

  lemma UnitEscapeReads(u: Unit, more: Text)
    ensures ReadChars(UnitEscape(u) + more) == Before(u, ReadChars(more))
  {
    var s := UnitEscape(u) + more;
    HexReads(u / 4096);
    HexReads(u / 256 % 16);
    HexReads(u / 16 % 16);
    HexReads(u % 16);
    FourHex(u);
    var tail := s[1..];
    assert tail[1] == HexDigit(u / 4096) && tail[2] == HexDigit(u / 256 % 16) && tail[3] == HexDigit(u / 16 % 16);
    assert tail[4] == HexDigit(u % 16);
    assert tail[5..] == more;
    EscapedReads(u, s, more);
  }

  lemma FourHex(u: Unit)
    ensures ((u / 4096 * 16 + u / 256 % 16) * 16 + u / 16 % 16) * 16 + u % 16 == u
  {
    assert u / 4096 * 16 + u / 256 % 16 == u / 256;
    assert u / 256 * 16 + u / 16 % 16 == u / 16;
  }

  /** What the first code unit, or pair of them, is written as. */
  function Head(s: Text): Text
    requires s != []
  {
    if IsPairAt(s) then s[..2] else if IsHigh(s[0]) || IsLow(s[0]) then UnitEscape(s[0]) else Escape(s[0])
  }

  predicate IsPairAt(s: Text) {
    |s| > 1 && IsHigh(s[0]) && IsLow(s[1])
  }

  function HeadWidth(s: Text): nat
    requires s != []
  {
    if IsPairAt(s) then 2 else 1
  }

  lemma EscapeTextSteps(s: Text)
    requires s != []
    ensures EscapeText(s) == Head(s) + EscapeText(s[HeadWidth(s)..])
  {
  }

  lemma PairReads(a: Unit, b: Unit, s: Text, more: Text, rest: Text)
    requires IsHigh(a) && IsLow(b) && ReadChars(more) == Got(s, rest)
    ensures ReadChars([a, b] + more) == Got([a, b] + s, rest)
  {
    PlainReads(b, more);
    PlainReads(a, [b] + more);
    assert [a, b] + more == [a] + ([b] + more);
    assert [a] + ([b] + s) == [a, b] + s;
  }

  lemma SingleReads(s: Text, more: Text, rest: Text)
    requires s != [] && !IsPairAt(s) && ReadChars(more) == Got(s[1..], rest)
    ensures ReadChars(Head(s) + more) == Got([s[0]] + s[1..], rest)
  {
    if IsHigh(s[0]) || IsLow(s[0]) {
      UnitEscapeReads(s[0], more);
    } else {
      UnitReads(s[0], more);
    }
  }

  lemma HeadReads(s: Text, more: Text, rest: Text)
    requires s != [] && ReadChars(more) == Got(s[HeadWidth(s)..], rest)
    ensures ReadChars(Head(s) + more) == Got(s, rest)
  {
    if IsPairAt(s) {
      PairReads(s[0], s[1], s[2..], more, rest);
      assert s[..2] == [s[0], s[1]] && s == [s[0], s[1]] + s[2..];
    } else {
      SingleReads(s, more, rest);
      assert s == [s[0]] + s[1..];
    }
  }

  lemma {:induction false} TextReads(s: Text, rest: Text)
    ensures ReadChars(EscapeText(s) + ([QUOTE] + rest)) == Got(s, rest)
  {
    var tail := [QUOTE] + rest;
    if s == [] {
      assert EscapeText(s) + tail == tail && tail[1..] == rest;
    } else {
      var left := s[HeadWidth(s)..];
      TextReads(left, rest);
      HeadReads(s, EscapeText(left) + tail, rest);
      EscapeTextSteps(s);
      Associates(Head(s), EscapeText(left), tail);
    }
  }

  // ---- Texts that can be encoded: no unpaired surrogates ----

  lemma {:induction false} PairedAppend(a: Text, b: Text)
    requires !Unpaired(a) && !Unpaired(b)
    ensures !Unpaired(a + b)
  {
    if a == [] {
      assert a + b == b;
    } else {
      var n := if IsHigh(a[0]) then 2 else 1;
      PairedAppend(a[n..], b);
      assert (a + b)[n..] == a[n..] + b;
    }
  }

  lemma HeadPaired(s: Text)
    requires s != []
    ensures !Unpaired(Head(s))
  {
    var h := Head(s);
    if IsPairAt(s) {
      assert h[2..] == [];
    } else if IsHigh(s[0]) || IsLow(s[0]) || |h| > 1 {
      AsciiPaired(h);
    } else {
      assert h == [s[0]] && h[1..] == [];
    }
  }

  lemma {:induction false} EscapedPaired(s: Text)
    ensures !Unpaired(EscapeText(s))
  {
    if s != [] {
      EscapedPaired(s[HeadWidth(s)..]);
      HeadPaired(s);
      EscapeTextSteps(s);
      PairedAppend(Head(s), EscapeText(s[HeadWidth(s)..]));
    }
  }

  // ---- The payload ----

  const V: Text := [0x76]
  const ENGAGEMENT_ID: Text := Name("engagementId")
  const CREATED_AT: Text := Name("createdAt")
  const ID: Text := Name("id")

  /** A plain member name with its colon. */
  function Key(name: Text): Text {
    StringText(name) + [COLON]
  }

  /** The payload's text, members in the order they were written. */
  function Payload(c: Cursor): Text {
    [LBRACE] + VersionMember(StringMember(ENGAGEMENT_ID, c.engagementId,
               StringMember(CREATED_AT, c.createdAt, LastMember(ID, c.id))))
  }

  function VersionMember(more: Text): Text {
    Key(V) + ([0x31] + ([COMMA] + more))
  }

  function StringMember(name: Text, s: Text, more: Text): Text {
    Key(name) + (StringText(s) + ([COMMA] + more))
  }

  function LastMember(name: Text, s: Text): Text {
    Key(name) + (StringText(s) + [RBRACE])
  }

  lemma {:induction false} PlainEscapes(s: Text)
    requires forall i :: 0 <= i < |s| ==> 0x20 <= s[i] < 0x80 && s[i] != 0x22 && s[i] != 0x5c
    ensures EscapeText(s) == s
  {
    if s != [] {
      PlainEscapes(s[1..]);
      Escapes();
      assert s == [s[0]] + s[1..];
    }
  }

  /** A quoted plain name and a colon. */
  lemma KeyIs(name: Text)
    requires forall i :: 0 <= i < |name| ==> 0x20 <= name[i] < 0x80 && name[i] != 0x22 && name[i] != 0x5c
    ensures Key(name) == [0x22] + name + [0x22, 0x3a]
  {
    PlainEscapes(name);
  }

  /** The payload, member by member. */
  lemma PayloadIs(c: Cursor)
    ensures Payload(c) ==
            [0x7b] + ([0x22] + Name("v") + [0x22, 0x3a]) + [0x31]
            + [0x2c] + ([0x22] + Name("engagementId") + [0x22, 0x3a]) + StringText(c.engagementId)
            + [0x2c] + ([0x22] + Name("createdAt") + [0x22, 0x3a]) + StringText(c.createdAt)
            + [0x2c] + ([0x22] + Name("id") + [0x22, 0x3a]) + StringText(c.id) + [0x7d]
  {
    hide StringText;
    assert V == Name("v");
    KeyIs(V);
    KeyIs(ENGAGEMENT_ID);
    KeyIs(CREATED_AT);
    KeyIs(ID);
    Flat(Key(V), Key(ENGAGEMENT_ID), StringText(c.engagementId), Key(CREATED_AT), StringText(c.createdAt),
         Key(ID), StringText(c.id));
  }

  /** The nesting of the members does not matter. */
  lemma Flat(v: Text, e: Text, es: Text, t: Text, ts: Text, i: Text, ii: Text)
    ensures [LBRACE]
            + (v + ([0x31] + ([COMMA] + (e + (es + ([COMMA] + (t + (ts + ([COMMA] + (i + (ii + [RBRACE]))))))))))) ==
            [0x7b] + v + [0x31] + [0x2c] + e + es + [0x2c] + t + ts + [0x2c] + i + ii + [0x7d]
  {
  }

  function PayloadValue(c: Cursor): Json {
    Obj(map[V := Num(1)][ENGAGEMENT_ID := Str(c.engagementId)][CREATED_AT := Str(c.createdAt)][ID := Str(c.id)])
  }

  lemma KeyReads(name: Text, value: Text)
    ensures var s := Key(name) + value;
            s != [] && s[0] == QUOTE && ReadChars(s[1..]) == Got(name, [COLON] + value)
  {
    StringTextChars(name, [COLON] + value);
    Associates(StringText(name), [COLON], value);
  }

  lemma StringTextChars(s: Text, rest: Text)
    ensures var t := StringText(s) + rest;
            t != [] && t[0] == QUOTE && ReadChars(t[1..]) == Got(s, rest)
  {
    TextReads(s, rest);
    var t: Text := StringText(s) + rest;
    assert t[1..] == EscapeText(s) + ([QUOTE] + rest);
  }

  lemma StringTextReads(s: Text, rest: Text)
    ensures ReadValue(StringText(s) + rest) == Got(Str(s), rest)
  {
    StringTextChars(s, rest);
    StringReads(StringText(s) + rest, s, rest);
  }

  lemma OneReads(rest: Text)
    requires NoDigitFirst(rest)
    ensures ReadValue([0x31] + rest) == Got(Num(1), rest)
  {
    NumberReads(1, rest);
    assert Decimal(1) == [0x31];
    NumericReads([0x31] + rest);
  }

  lemma VersionMemberReads(before: map<Text, Json>, more: Text)
    ensures VersionMember(more) != [] && VersionMember(more)[0] == QUOTE
    ensures ReadMembers(VersionMember(more), before) == ReadMembers(more, before[V := Num(1)])
  {
    var value: Text := [0x31] + ([COMMA] + more);
    KeyReads(V, value);
    OneReads([COMMA] + more);
    MemberReads(VersionMember(more), before, V, value, Num(1), more);
  }

  lemma StringMemberReads(before: map<Text, Json>, name: Text, s: Text, more: Text)
    ensures ReadMembers(StringMember(name, s, more), before) == ReadMembers(more, before[name := Str(s)])
  {
    var value: Text := StringText(s) + ([COMMA] + more);
    KeyReads(name, value);
    StringTextReads(s, [COMMA] + more);
    MemberReads(StringMember(name, s, more), before, name, value, Str(s), more);
  }

  lemma LastMemberReadsOut(before: map<Text, Json>, name: Text, s: Text)
    ensures ReadMembers(LastMember(name, s), before) == Got(before[name := Str(s)], [])
  {
    var value: Text := StringText(s) + [RBRACE];
    KeyReads(name, value);
    StringTextReads(s, [RBRACE]);
    assert [RBRACE] == [RBRACE] + [];
    LastMemberReads(LastMember(name, s), before, name, value, Str(s), []);
  }

  lemma PayloadReads(c: Cursor)
    ensures ReadValue(Payload(c)) == Got(PayloadValue(c), [])
  {
    var m1: map<Text, Json> := map[V := Num(1)];
    var m2 := m1[ENGAGEMENT_ID := Str(c.engagementId)];
    var m3 := m2[CREATED_AT := Str(c.createdAt)];
    var s3 := LastMember(ID, c.id);
    var s2 := StringMember(CREATED_AT, c.createdAt, s3);
    var s1 := StringMember(ENGAGEMENT_ID, c.engagementId, s2);
    LastMemberReadsOut(m3, ID, c.id);
    StringMemberReads(m2, CREATED_AT, c.createdAt, s3);
    StringMemberReads(m1, ENGAGEMENT_ID, c.engagementId, s2);
    VersionMemberReads(map[], s1);
    assert map[][V := Num(1)] == m1;
    ObjectReads(VersionMember(s1), PayloadValue(c).members, []);
  }

  lemma StringTextPaired(s: Text)
    ensures !Unpaired(StringText(s))
  {
    EscapedPaired(s);
    AsciiPaired([QUOTE]);
    PairedAppend([QUOTE], EscapeText(s));
    PairedAppend([QUOTE] + EscapeText(s), [QUOTE]);
  }

  lemma KeyPaired(name: Text)
    ensures !Unpaired(Key(name))
  {
    StringTextPaired(name);
    AsciiPaired([COLON]);
    PairedAppend(StringText(name), [COLON]);
  }

  lemma CommaPaired(more: Text)
    requires !Unpaired(more)
    ensures !Unpaired([COMMA] + more)
  {
  }

  lemma KeyedPaired(name: Text, value: Text, more: Text)
    requires !Unpaired(value) && !Unpaired(more)
    ensures !Unpaired(Key(name) + (value + more))
  {
    KeyPaired(name);
    PairedAppend(value, more);
    PairedAppend(Key(name), value + more);
  }

  lemma StringMemberPaired(name: Text, s: Text, more: Text)
    requires !Unpaired(more)
    ensures !Unpaired(StringMember(name, s, more))
  {
    StringTextPaired(s);
    CommaPaired(more);
    KeyedPaired(name, StringText(s), [COMMA] + more);
  }

  lemma PayloadPaired(c: Cursor)
    ensures !Unpaired(Payload(c))
  {
    AsciiPaired([RBRACE]);
    StringTextPaired(c.id);
    KeyedPaired(ID, StringText(c.id), [RBRACE]);
    var s3 := LastMember(ID, c.id);
    StringMemberPaired(CREATED_AT, c.createdAt, s3);
    var s2 := StringMember(CREATED_AT, c.createdAt, s3);
    StringMemberPaired(ENGAGEMENT_ID, c.engagementId, s2);
    BracedPaired(StringMember(ENGAGEMENT_ID, c.engagementId, s2));
  }

  lemma BracedPaired(more: Text)
    requires !Unpaired(more)
    ensures !Unpaired([LBRACE] + VersionMember(more))
  {
    CommaPaired(more);
    AsciiPaired([0x31]);
    KeyedPaired(V, [0x31], [COMMA] + more);
    AsciiPaired([LBRACE]);
    PairedAppend([LBRACE], VersionMember(more));
  }

  // ---- Encoding and decoding ----

  /** The UTF-8 bytes of a text without unpaired surrogates. */
  function Utf8Bytes(t: Text): seq<Byte>
    requires !Unpaired(t)
  {
    Utf8All(Scalars(t))
  }

  function EncodeCursor(c: Cursor): Text {
    PayloadPaired(c);
    B.Encoded(Utf8Bytes(Payload(c)))
  }

  /**
   * What the platform provides and the schemas decide: decoding of bytes, parsing of JSON, and
   * which ids and times are well formed.
   */
  datatype Platform = Platform(
    decode: seq<Byte> -> seq<Scalar>,
    parse: Text -> Option<Json>,
    validTime: Text -> bool)

  /** Decoding is exact on UTF-8, dropping a byte order mark; parsing reads at least compact JSON. */
  ghost predicate PlatformOk(p: Platform) {
    && (forall b :: Valid(b) ==> p.decode(b) == Shown(Points(b)))
    && (forall t, v :: ReadValue(t) == Got(v, []) ==> p.parse(t) == Some(v))
  }

  predicate Identifier(s: Text) {
    1 <= |s| <= 255
  }

  predicate ValidCursor(p: Platform, c: Cursor) {
    Identifier(c.engagementId) && p.validTime(c.createdAt) && Identifier(c.id)
  }

  /** A payload that is exactly the four members, each of its type. */
  predicate Shaped(p: Platform, v: Json) {
    && v.Obj? && v.members.Keys == {V, ENGAGEMENT_ID, CREATED_AT, ID}
    && v.members[V] == Num(1) && v.members[ENGAGEMENT_ID].Str? && v.members[CREATED_AT].Str? && v.members[ID].Str?
    && ValidCursor(p, CursorOf(v))
  }

  function CursorOf(v: Json): Cursor
    requires v.Obj? && ENGAGEMENT_ID in v.members && CREATED_AT in v.members && ID in v.members
    requires v.members[ENGAGEMENT_ID].Str? && v.members[CREATED_AT].Str? && v.members[ID].Str?
  {
    Cursor(v.members[ENGAGEMENT_ID].s, v.members[CREATED_AT].s, v.members[ID].s)
  }

  predicate UrlAlphabet(t: Text) {
    forall i :: 0 <= i < |t| ==>
      0x41 <= t[i] <= 0x5a || 0x61 <= t[i] <= 0x7a || 0x30 <= t[i] <= 0x39 || t[i] == B.DASH || t[i] == B.UNDERSCORE
  }

  /** The payload's text as the decoder sees it. */
  function Json8(p: Platform, bytes: seq<Byte>): Text {
    Utf16All(p.decode(bytes))
  }

  /** The text encodes back to the same cursor. */
  predicate Reencodes(p: Platform, cursor: Text, bytes: seq<Byte>) {
    EncodedIsPaired(p.decode(bytes));
    B.Encoded(Utf8Bytes(Json8(p, bytes))) == cursor
  }

  function DecodeCursor(p: Platform, cursor: Text, expectedEngagementId: Text): Option<Cursor> {
    if cursor == [] || |cursor| > MAX_LENGTH || !UrlAlphabet(cursor) || |cursor| % 4 == 1 then None
    else
      match B.Decoded(cursor)
      case None => None
      case Some(bytes) =>
        if !Reencodes(p, cursor, bytes) || |Json8(p, bytes)| > MAX_LENGTH then None
        else
          match p.parse(Json8(p, bytes))
          case None => None
          case Some(v) =>
            if !Shaped(p, v) || CursorOf(v).engagementId != expectedEngagementId then None else Some(CursorOf(v))
  }

  lemma NamesDiffer()
    ensures V != ENGAGEMENT_ID && V != CREATED_AT && V != ID
    ensures ENGAGEMENT_ID != CREATED_AT && ENGAGEMENT_ID != ID && CREATED_AT != ID
  {
  }

  lemma PayloadShaped(p: Platform, c: Cursor)
    ensures Shaped(p, PayloadValue(c)) <==> ValidCursor(p, c)
    ensures ValidCursor(p, c) ==> CursorOf(PayloadValue(c)) == c
  {
  }

  /** Bytes that encode a text decode to it, when it does not start with a byte order mark. */
  lemma BytesDecode(p: Platform, t: Text)
    requires PlatformOk(p) && !Unpaired(t) && t != [] && t[0] < 0x80
    ensures p.decode(Utf8Bytes(t)) == Scalars(t) && Json8(p, Utf8Bytes(t)) == t
  {
    EncodedIsValid(Scalars(t));
    ScalarsEncode(t);
    assert Scalars(t)[0] == t[0];
  }

  lemma {:induction false} EncodedLonger(s: seq<Byte>)
    ensures |B.Digits(s)| >= |s|
  {
    if |s| >= 3 {
      EncodedLonger(s[3..]);
    }
  }

  lemma PayloadFits(c: Cursor)
    requires |EncodeCursor(c)| <= MAX_LENGTH
    ensures |Payload(c)| <= MAX_LENGTH
  {
    PayloadPaired(c);
    UnitsFit(Payload(c));
    Utf8LengthIs(Payload(c));
    EncodedLonger(Utf8Bytes(Payload(c)));
  }

  lemma AlphabetOf(t: Text)
    requires B.AllDigits(t)
    ensures UrlAlphabet(B.ToUrl(t))
  {
  }

  lemma EncodedShape(c: Cursor)
    ensures EncodeCursor(c) != [] && UrlAlphabet(EncodeCursor(c)) && |EncodeCursor(c)| % 4 != 1
  {
    PayloadPaired(c);
    var bytes := Utf8Bytes(Payload(c));
    B.DigitsDecode(bytes);
    B.DigitsLength(bytes);
    AlphabetOf(B.Digits(bytes));
    UnitsFit(Payload(c));
    Utf8LengthIs(Payload(c));
    EncodedLonger(bytes);
  }

  /** Decoding inverts encoding exactly for the valid cursors that fit. */
  lemma CursorRoundTrip(p: Platform, c: Cursor)
    requires PlatformOk(p)
    ensures DecodeCursor(p, EncodeCursor(c), c.engagementId) ==
            if && 1 <= |c.engagementId| <= 255 && p.validTime(c.createdAt) && 1 <= |c.id| <= 255
               && |EncodeCursor(c)| <= 1024 then Some(c)
            else None
  {
    if |EncodeCursor(c)| <= MAX_LENGTH {
      FittingRoundTrip(p, c);
    }
  }

  /** Whatever text is accepted, it is a valid cursor of the engagement it is accepted for, and of no other. */
  lemma AcceptedForOne(p: Platform, cursor: Text, engagementId: Text, other: Text)
    requires DecodeCursor(p, cursor, engagementId).Some?
    ensures 1 <= |cursor| <= 1024
    ensures forall u :: u in cursor ==>
              0x41 <= u <= 0x5a || 0x61 <= u <= 0x7a || 0x30 <= u <= 0x39 || u == 0x2d || u == 0x5f
    ensures ValidCursor(p, DecodeCursor(p, cursor, engagementId).value)
    ensures DecodeCursor(p, cursor, engagementId).value.engagementId == engagementId
    ensures DecodeCursor(p, cursor, other).Some? ==> other == engagementId
  {
  }

  lemma FittingRoundTrip(p: Platform, c: Cursor)
    requires PlatformOk(p) && |EncodeCursor(c)| <= MAX_LENGTH
    ensures DecodeCursor(p, EncodeCursor(c), c.engagementId) == if ValidCursor(p, c) then Some(c) else None
  {
    PayloadPaired(c);
    var text := Payload(c);
    EncodedShape(c);
    B.EncodedDecodes(Utf8Bytes(text));
    BytesDecode(p, text);
    PayloadFits(c);
    PayloadReads(c);
    PayloadShaped(p, c);
    assert p.parse(text) == Some(PayloadValue(c));
  }

  /**
   * Exactly which cursors pass the re-encoding check: the canonical spelling of UTF-8 text
   * without a byte order mark.
   */
  lemma ReencodesExactly(p: Platform, cursor: Text, bytes: seq<Byte>)
    requires PlatformOk(p) && B.Decoded(cursor) == Some(bytes)
    ensures Reencodes(p, cursor, bytes) <==>
            Valid(bytes) && (Points(bytes) == [] || Points(bytes)[0] != 0xfeff) && cursor == B.Encoded(bytes)
  {
    var points := p.decode(bytes);
    EncodedIsPaired(points);
    if Reencodes(p, cursor, bytes) {
      B.EncodedDecodes(Utf8All(points));
      EncodedIsValid(points);
      assert bytes == Utf8All(points);
    }
    if Valid(bytes) && (Points(bytes) == [] || Points(bytes)[0] != BOM) {
      ValidIsEncoded(bytes);
    }
  }

  /** Two accepted cursors with the same payload text are the same cursor. */
  lemma OneSpelling(p: Platform, c: Text, d: Text, e: Text, f: Text)
    requires PlatformOk(p) && DecodeCursor(p, c, e).Some? && DecodeCursor(p, d, f).Some?
    requires Json8(p, B.Decoded(c).value) == Json8(p, B.Decoded(d).value)
    ensures c == d
  {
  }
}
