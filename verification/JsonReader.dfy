/**
 * Reading JSON back: a reader for compact texts of the grammar of RFC 8259 (sections 4,
 * 5 and 7, and the integers of section 6). Canonical texts read back to their value.
 */
module JsonReader {
  import opened Unicode
  import opened JsonText

  /** What was read and the text after it. */
  datatype Read<T> = Nothing | Got(value: T, rest: Text)

  predicate IsDigit(u: Unit) {
    ZERO <= u <= 0x39
  }

  predicate NoDigitFirst(s: Text) {
    s == [] || !IsDigit(s[0])
  }

  function ReadDigits(before: nat, s: Text): (r: (nat, Text))
    ensures |r.1| <= |s|
    ensures !NoDigitFirst(s) ==> |r.1| < |s|
    decreases |s|
  {
    if NoDigitFirst(s) then (before, s) else ReadDigits(before * 10 + (s[0] - ZERO), s[1..])
  }

  /** An integer without leading zeros. */
  function ReadNatural(s: Text): (r: Read<nat>)
    ensures r.Got? ==> |r.rest| < |s|
  {
    if NoDigitFirst(s) then Nothing
    else if s[0] == ZERO then Got(0, s[1..])
    else
      var (n, rest) := ReadDigits(0, s);
      Got(n, rest)
  }

  function HexValue(u: Unit): (n: int)
    ensures -1 <= n < 16
  {
    if IsDigit(u) then u - ZERO
    else if 0x61 <= u <= 0x66 then u - 0x61 + 10
    else if 0x41 <= u <= 0x46 then u - 0x41 + 10
    else -1
  }

  /** The code unit a backslash and what follows stand for. */
  function ReadEscape(s: Text): (r: Read<Unit>)
    requires s != []
    ensures r.Got? ==> |r.rest| < |s|
  {
    if s[0] == QUOTE || s[0] == BACKSLASH || s[0] == 0x2f then Got(s[0], s[1..])
    else if s[0] == 0x62 then Got(8, s[1..])
    else if s[0] == 0x66 then Got(12, s[1..])
    else if s[0] == 0x6e then Got(10, s[1..])
    else if s[0] == 0x72 then Got(13, s[1..])
    else if s[0] == 0x74 then Got(9, s[1..])
    else if s[0] == 0x75 && |s| > 4 && (forall i :: 1 <= i <= 4 ==> HexValue(s[i]) >= 0) then
      Got(((HexValue(s[1]) * 16 + HexValue(s[2])) * 16 + HexValue(s[3])) * 16 + HexValue(s[4]), s[5..])
    else Nothing
  }

  /** The rest of a string, after its opening quote. */
  function ReadChars(s: Text): (r: Read<Text>)
    ensures r.Got? ==> |r.rest| < |s|
    decreases |s|
  {
    if s == [] || s[0] < 0x20 then Nothing
    else if s[0] == QUOTE then Got([], s[1..])
    else if s[0] != BACKSLASH then
      var more := ReadChars(s[1..]);
      if more.Got? then Got([s[0]] + more.value, more.rest) else Nothing
    else if |s| == 1 then Nothing
    else
      var unit := ReadEscape(s[1..]);
      if unit.Nothing? then Nothing
      else
        var more := ReadChars(unit.rest);
        if more.Got? then Got([unit.value] + more.value, more.rest) else Nothing
  }

  function ReadValue(s: Text): (r: Read<Json>)
    ensures r.Got? ==> |r.rest| < |s|
    decreases |s|, 1
  {
    if s == [] then Nothing
    else if NULL <= s then Got(Null, s[4..])
    else if TRUE <= s then Got(Bool(true), s[4..])
    else if FALSE <= s then Got(Bool(false), s[5..])
    else if s[0] == QUOTE then
      var chars := ReadChars(s[1..]);
      if chars.Got? then Got(Str(chars.value), chars.rest) else Nothing
    else if s[0] == LBRACKET then
      if |s| > 1 && s[1] == RBRACKET then Got(Arr([]), s[2..])
      else
        var items := ReadItems(s[1..]);
        if items.Got? then Got(Arr(items.value), items.rest) else Nothing
    else if s[0] == LBRACE then
      if |s| > 1 && s[1] == RBRACE then Got(Obj(map[]), s[2..])
      else
        var members := ReadMembers(s[1..], map[]);
        if members.Got? then Got(Obj(members.value), members.rest) else Nothing
    else ReadNumber(s)
  }

  function ReadNumber(s: Text): (r: Read<Json>)
    requires s != []
    ensures r.Got? ==> |r.rest| < |s|
  {
    var negative := s[0] == MINUS;
    var digits := if negative then s[1..] else s;
    match ReadNatural(digits)
    case Got(n, rest) =>
      var size: int := n;
      if size <= 9007199254740991 then Got(Num(if negative then -size else size), rest) else Nothing
    case Nothing => Nothing
  }

  /** Array items up to and including the closing bracket. */
  function ReadItems(s: Text): (r: Read<seq<Json>>)
    ensures r.Got? ==> |r.rest| < |s|
    decreases |s|, 2
  {
    match ReadValue(s)
    case Nothing => Nothing
    case Got(v, rest) =>
      if rest == [] then Nothing
      else if rest[0] == RBRACKET then Got([v], rest[1..])
      else if rest[0] == COMMA then
        var more := ReadItems(rest[1..]);
        if more.Got? then Got([v] + more.value, more.rest) else Nothing
      else Nothing
  }

  /** Object members up to and including the closing brace, added to those already read; a repeated key counts last. */
  function ReadMembers(s: Text, before: map<Text, Json>): (r: Read<map<Text, Json>>)
    ensures r.Got? ==> |r.rest| < |s|
    decreases |s|, 2
  {
    if s == [] || s[0] != QUOTE then Nothing
    else
      match ReadChars(s[1..])
      case Nothing => Nothing
      case Got(key, more) =>
        if more == [] || more[0] != COLON then Nothing
        else
          match ReadValue(more[1..])
          case Nothing => Nothing
          case Got(v, rest) =>
            if rest == [] then Nothing
            else if rest[0] == RBRACE then Got(before[key := v], rest[1..])
            else if rest[0] == COMMA then ReadMembers(rest[1..], before[key := v])
            else Nothing
  }

  // ---- What the printer writes reads back ----

  lemma {:induction false} DigitsRead(n: nat, rest: Text)
    ensures ReadDigits(0, Digits(n) + rest) == ReadDigits(n, rest)
  {
    if n < 10 {
      assert (Digits(n) + rest)[1..] == rest;
    } else {
      var last := [ZERO + n % 10] + rest;
      DigitsRead(n / 10, last);
      assert Digits(n) + rest == Digits(n / 10) + last;
      assert last[1..] == rest;
    }
  }

  lemma {:induction false} DigitsStart(n: nat)
    ensures forall i :: 0 <= i < |Digits(n)| ==> IsDigit(Digits(n)[i])
    ensures Digits(n)[0] == ZERO <==> n == 0
  {
    if n >= 10 {
      DigitsStart(n / 10);
    }
  }

  lemma NaturalReads(n: nat, rest: Text)
    requires NoDigitFirst(rest)
    ensures ReadNatural(Digits(n) + rest) == Got(n, rest)
  {
    DigitsRead(n, rest);
    DigitsStart(n);
    assert (Digits(n) + rest)[0] == Digits(n)[0];
    if n == 0 {
      assert (Digits(n) + rest)[1..] == rest;
    }
  }

  lemma NumberReads(n: SafeInteger, rest: Text)
    requires NoDigitFirst(rest)
    ensures ReadNumber(Decimal(n) + rest) == Got(Num(n), rest)
  {
    var size: nat := if n < 0 then -n else n;
    NaturalReads(size, rest);
    DigitsStart(size);
    DecimalSplits(n, rest);
  }

  lemma DecimalSplits(n: int, rest: Text)
    ensures n < 0 ==> (Decimal(n) + rest)[0] == MINUS && (Decimal(n) + rest)[1..] == Digits(-n) + rest
    ensures n >= 0 ==> Decimal(n) == Digits(n) && (Decimal(n) + rest)[0] == Digits(n)[0]
  {
  }

  lemma HexReads(n: nat)
    requires n < 16
    ensures HexValue(HexDigit(n)) == n
  {
  }

  predicate Control(u: Unit) {
    u < 0x20 && u != 8 && u != 9 && u != 10 && u != 12 && u != 13
  }

  lemma ControlReads(u: Unit, rest: Text)
    requires Control(u)
    ensures Escape(u)[0] == BACKSLASH && ReadEscape(Escape(u)[1..] + rest) == Got(u, rest)
  {
  }

  lemma ShortEscapeReads(u: Unit, rest: Text)
    requires !Control(u) && |Escape(u)| == 2
    ensures Escape(u)[0] == BACKSLASH && ReadEscape(Escape(u)[1..] + rest) == Got(u, rest)
  {
  }

  /** One more code unit in front of the rest of a string. */
  function Before(u: Unit, more: Read<Text>): Read<Text> {
    if more.Got? then Got([u] + more.value, more.rest) else Nothing
  }

  lemma EscapedReads(u: Unit, s: Text, more: Text)
    requires s != [] && s[0] == BACKSLASH && |s| > 1 && ReadEscape(s[1..]) == Got(u, more)
    ensures ReadChars(s) == Before(u, ReadChars(more))
  {
  }

  lemma PlainReads(u: Unit, more: Text)
    requires u >= 0x20 && u != QUOTE && u != BACKSLASH
    ensures ReadChars([u] + more) == Before(u, ReadChars(more))
  {
  }

  lemma UnitReads(u: Unit, more: Text)
    ensures ReadChars(Escape(u) + more) == Before(u, ReadChars(more))
  {
    if |Escape(u)| == 1 {
      PlainReads(u, more);
    } else {
      if Control(u) {
        ControlReads(u, more);
      } else {
        ShortEscapeReads(u, more);
      }
      var s := Escape(u) + more;
      assert s[1..] == Escape(u)[1..] + more;
      EscapedReads(u, s, more);
    }
  }

  lemma EscapeAllStep(s: Text, tail: Text)
    requires s != []
    ensures EscapeAll(s) + tail == Escape(s[0]) + (EscapeAll(s[1..]) + tail)
  {
    Associates(Escape(s[0]), EscapeAll(s[1..]), tail);
  }

  lemma Associates(a: Text, b: Text, c: Text)
    ensures (a + b) + c == a + (b + c)
  {
  }

  lemma CharsStep(s: Text, more: Text, rest: Text)
    requires s != [] && ReadChars(more) == Got(s[1..], rest)
    ensures ReadChars(Escape(s[0]) + more) == Got(s, rest)
  {
    UnitReads(s[0], more);
    assert s == [s[0]] + s[1..];
  }

  lemma {:induction false} CharsRead(s: Text, rest: Text)
    ensures ReadChars(EscapeAll(s) + ([QUOTE] + rest)) == Got(s, rest)
  {
    var tail := [QUOTE] + rest;
    if s == [] {
      assert EscapeAll(s) + tail == tail && tail[1..] == rest;
    } else {
      CharsRead(s[1..], rest);
      CharsStep(s, EscapeAll(s[1..]) + tail, rest);
      EscapeAllStep(s, tail);
    }
  }

  lemma QuotedSplits(s: Text, rest: Text)
    ensures (Quoted(s) + rest)[0] == QUOTE && (Quoted(s) + rest)[1..] == EscapeAll(s) + ([QUOTE] + rest)
  {
  }

  lemma QuotedReads(s: Text, rest: Text)
    ensures (Quoted(s) + rest)[0] == QUOTE
    ensures ReadChars((Quoted(s) + rest)[1..]) == Got(s, rest)
  {
    CharsRead(s, rest);
    QuotedSplits(s, rest);
  }

  // ---- One step of the reader at a time ----

  lemma WordsRead(rest: Text)
    ensures ReadValue(NULL + rest) == Got(Null, rest)
    ensures ReadValue(TRUE + rest) == Got(Bool(true), rest)
    ensures ReadValue(FALSE + rest) == Got(Bool(false), rest)
  {
    assert (NULL + rest)[4..] == rest && (TRUE + rest)[4..] == rest && (FALSE + rest)[5..] == rest;
    assert (TRUE + rest)[0] == 0x74 && (FALSE + rest)[0] == 0x66;
  }

  lemma StringReads(s: Text, key: Text, rest: Text)
    requires s != [] && s[0] == QUOTE && ReadChars(s[1..]) == Got(key, rest)
    ensures ReadValue(s) == Got(Str(key), rest)
  {
  }

  lemma NumericReads(s: Text)
    requires s != [] && (s[0] == MINUS || IsDigit(s[0]))
    ensures ReadValue(s) == ReadNumber(s)
  {
  }

  lemma ArrayReads(body: Text, items: seq<Json>, rest: Text)
    requires body != [] && body[0] != RBRACKET && ReadItems(body) == Got(items, rest)
    ensures ReadValue([LBRACKET] + body) == Got(Arr(items), rest)
  {
  }

  lemma ObjectReads(body: Text, members: map<Text, Json>, rest: Text)
    requires body != [] && body[0] != RBRACE && ReadMembers(body, map[]) == Got(members, rest)
    ensures ReadValue([LBRACE] + body) == Got(Obj(members), rest)
  {
    var s: Text := [LBRACE] + body;
    assert s[0] == LBRACE && s[1..] == body && s[1] == body[0];
  }

  lemma EmptyReads(rest: Text)
    ensures ReadValue([LBRACKET, RBRACKET] + rest) == Got(Arr([]), rest)
    ensures ReadValue([LBRACE, RBRACE] + rest) == Got(Obj(map[]), rest)
  {
    EmptyArrayReads([LBRACKET, RBRACKET] + rest);
    EmptyObjectReads([LBRACE, RBRACE] + rest);
    assert ([LBRACKET, RBRACKET] + rest)[2..] == rest && ([LBRACE, RBRACE] + rest)[2..] == rest;
  }

  lemma EmptyArrayReads(s: Text)
    requires |s| > 1 && s[0] == LBRACKET && s[1] == RBRACKET
    ensures ReadValue(s) == Got(Arr([]), s[2..])
  {
  }

  lemma EmptyObjectReads(s: Text)
    requires |s| > 1 && s[0] == LBRACE && s[1] == RBRACE
    ensures ReadValue(s) == Got(Obj(map[]), s[2..])
  {
  }

  lemma LastItemReads(s: Text, v: Json, rest: Text)
    requires ReadValue(s) == Got(v, [RBRACKET] + rest)
    ensures ReadItems(s) == Got([v], rest)
  {
  }

  lemma ItemReads(s: Text, v: Json, more: Text, items: seq<Json>, rest: Text)
    requires ReadValue(s) == Got(v, [COMMA] + more) && ReadItems(more) == Got(items, rest)
    ensures ReadItems(s) == Got([v] + items, rest)
  {
  }

  lemma LastMemberReads(s: Text, before: map<Text, Json>, key: Text, value: Text, v: Json, rest: Text)
    requires s != [] && s[0] == QUOTE && ReadChars(s[1..]) == Got(key, [COLON] + value)
    requires ReadValue(value) == Got(v, [RBRACE] + rest)
    ensures ReadMembers(s, before) == Got(before[key := v], rest)
  {
  }

  lemma MemberReads(s: Text, before: map<Text, Json>, key: Text, value: Text, v: Json, more: Text)
    requires s != [] && s[0] == QUOTE && ReadChars(s[1..]) == Got(key, [COLON] + value)
    requires ReadValue(value) == Got(v, [COMMA] + more)
    ensures ReadMembers(s, before) == ReadMembers(more, before[key := v])
  {
  }

  // ---- Whole values ----

  lemma JoinSteps(texts: seq<Text>, i: nat, close: Text)
    requires i < |texts|
    ensures i + 1 == |texts| ==> Join(texts[i..]) + close == texts[i] + close
    ensures i + 1 < |texts| ==> Join(texts[i..]) + close == texts[i] + ([COMMA] + (Join(texts[i + 1..]) + close))
  {
  }

  lemma NumberStarts(n: int)
    ensures Decimal(n)[0] == MINUS || IsDigit(Decimal(n)[0])
  {
    DigitsStart(if n < 0 then -n else n);
  }

  lemma CanonicalStarts(v: Json)
    ensures Canonical(v) != [] && Canonical(v)[0] != RBRACKET
  {
    match v
    case Num(n) => NumberStarts(n);
    case Arr(items) => CanonicalArray(items);
    case Obj(members) => CanonicalObject(members);
    case _ =>
  }

  /** The canonical text of a value, whatever follows it, reads back to the value. */
  lemma {:induction false} ValueReads(v: Json, rest: Text)
    requires NoDigitFirst(rest)
    ensures ReadValue(Canonical(v) + rest) == Got(v, rest)
    decreases v, 1, 0
  {
    match v
    case Null => WordsRead(rest);
    case Bool(b) => WordsRead(rest);
    case Num(n) =>
      NumberReads(n, rest);
      NumberStarts(n);
      assert (Decimal(n) + rest)[0] == Decimal(n)[0];
      NumericReads(Decimal(n) + rest);
    case Str(s) =>
      QuotedReads(s, rest);
      StringReads(Quoted(s) + rest, s, rest);
    case Arr(items) => ArrayValueReads(v, rest);
    case Obj(members) => ObjectValueReads(v, rest);
  }

  lemma JoinStarts(texts: seq<Text>)
    requires texts != [] && texts[0] != []
    ensures Join(texts) != [] && Join(texts)[0] == texts[0][0]
  {
  }

  lemma Enclosed(open: Unit, text: Text, close: Unit, rest: Text)
    ensures ([open] + text + [close]) + rest == [open] + (text + ([close] + rest))
  {
  }

  lemma ArrayFromItems(text: Text, items: seq<Json>, rest: Text)
    requires text != [] && text[0] != RBRACKET && ReadItems(text + ([RBRACKET] + rest)) == Got(items, rest)
    ensures ReadValue(([LBRACKET] + text + [RBRACKET]) + rest) == Got(Arr(items), rest)
  {
    Enclosed(LBRACKET, text, RBRACKET, rest);
    ArrayReads(text + ([RBRACKET] + rest), items, rest);
  }

  lemma ObjectFromMembers(text: Text, members: map<Text, Json>, rest: Text)
    requires text != [] && text[0] != RBRACE && ReadMembers(text + ([RBRACE] + rest), map[]) == Got(members, rest)
    ensures ReadValue(([LBRACE] + text + [RBRACE]) + rest) == Got(Obj(members), rest)
  {
    Enclosed(LBRACE, text, RBRACE, rest);
    ObjectReads(text + ([RBRACE] + rest), members, rest);
  }

  lemma {:induction false} ArrayValueReads(v: Json, rest: Text)
    requires v.Arr?
    ensures ReadValue(Canonical(v) + rest) == Got(v, rest)
    decreases v, 0, |v.items| + 1
  {
    CanonicalArray(v.items);
    var texts := ItemTexts(v.items);
    if v.items == [] {
      EmptyReads(rest);
      assert Canonical(v) == [LBRACKET, RBRACKET];
    } else {
      ItemsRead(v, 0, rest);
      assert texts[0..] == texts && v.items[0..] == v.items;
      CanonicalStarts(v.items[0]);
      assert texts[0] == Canonical(v.items[0]);
      JoinStarts(texts);
      ArrayFromItems(Join(texts), v.items, rest);
    }
  }

  lemma {:induction false} ItemsRead(v: Json, i: nat, rest: Text)
    requires v.Arr? && i < |v.items|
    ensures ReadItems(Join(ItemTexts(v.items)[i..]) + ([RBRACKET] + rest)) == Got(v.items[i..], rest)
    decreases v, 0, |v.items| - i
  {
    hide ReadValue, Join;
    var texts: seq<Text>, close: Text := ItemTexts(v.items), [RBRACKET] + rest;
    var s := Join(texts[i..]) + close;
    JoinSteps(texts, i, close);
    assert texts[i] == Canonical(v.items[i]);
    if i + 1 == |v.items| {
      ValueReads(v.items[i], close);
      LastItemReads(s, v.items[i], rest);
      assert v.items[i..] == [v.items[i]];
    } else {
      var more := Join(texts[i + 1..]) + close;
      ValueReads(v.items[i], [COMMA] + more);
      ItemsRead(v, i + 1, rest);
      ItemReads(s, v.items[i], more, v.items[i + 1..], rest);
      assert v.items[i..] == [v.items[i]] + v.items[i + 1..];
    }
  }

  /** The members under the given keys. */
  ghost function Part(members: map<Text, Json>, keys: seq<Text>): map<Text, Json> {
    map k | k in keys && k in members :: members[k]
  }

  lemma PartGrows(members: map<Text, Json>, keys: seq<Text>, i: nat)
    requires i < |keys| && keys[i] in members
    ensures Part(members, keys[..i])[keys[i] := members[keys[i]]] == Part(members, keys[..i + 1])
  {
  }

  lemma {:induction false} ObjectValueReads(v: Json, rest: Text)
    requires v.Obj?
    ensures ReadValue(Canonical(v) + rest) == Got(v, rest)
    decreases v, 0, |KeysOf(v.members.Keys)| + 1
  {
    CanonicalObject(v.members);
    var keys := KeysOf(v.members.Keys);
    var texts := MemberTexts(keys, v.members);
    if keys == [] {
      EmptyReads(rest);
      assert v.members == map[] by {
        assert forall k :: k in v.members ==> k in keys;
      }
      assert Canonical(v) == [LBRACE, RBRACE];
    } else {
      MembersRead(v, 0, rest);
      assert texts[0..] == texts && Part(v.members, keys[..0]) == map[];
      assert texts[0][0] == QUOTE;
      JoinStarts(texts);
      ObjectFromMembers(Join(texts), v.members, rest);
    }
  }

  lemma {:induction false} MembersRead(v: Json, i: nat, rest: Text)
    requires v.Obj? && i < |KeysOf(v.members.Keys)|
    ensures var keys := KeysOf(v.members.Keys);
            ReadMembers(Join(MemberTexts(keys, v.members)[i..]) + ([RBRACE] + rest), Part(v.members, keys[..i]))
            == Got(v.members, rest)
    decreases v, 0, |KeysOf(v.members.Keys)| - i
  {
    var keys := KeysOf(v.members.Keys);
    var texts, close := MemberTexts(keys, v.members), [RBRACE] + rest;
    var key, before := keys[i], Part(v.members, keys[..i]);
    assert key in v.members;
    var item := v.members[key];
    var s := Join(texts[i..]) + close;
    JoinSteps(texts, i, close);
    PartGrows(v.members, keys, i);
    if i + 1 == |keys| {
      ValueReads(item, close);
      MemberSplits(key, Canonical(item), close);
      LastMemberReads(s, before, key, Canonical(item) + close, item, rest);
      assert Part(v.members, keys[..i + 1]) == v.members by {
        assert keys[..i + 1] == keys;
      }
    } else {
      var more := Join(texts[i + 1..]) + close;
      ValueReads(item, [COMMA] + more);
      MemberSplits(key, Canonical(item), [COMMA] + more);
      MemberReads(s, before, key, Canonical(item) + ([COMMA] + more), item, more);
      MembersRead(v, i + 1, rest);
    }
  }

  lemma MemberSplits(key: Text, text: Text, after: Text)
    ensures var s := Member(key, text) + after;
            s != [] && s[0] == QUOTE && ReadChars(s[1..]) == Got(key, [COLON] + (text + after))
  {
    QuotedReads(key, [COLON] + (text + after));
    assert Member(key, text) + after == Quoted(key) + ([COLON] + (text + after));
  }

  /** Reading a canonical text gives back the value. */
  lemma RoundTrip(v: Json)
    ensures ReadValue(Canonical(v)) == Got(v, [])
  {
    ValueReads(v, []);
    assert Canonical(v) + [] == Canonical(v);
  }

  /** Two values share their canonical text exactly when they are equal. */
  lemma CanonicalInjective(v: Json, w: Json)
    ensures Canonical(v) == Canonical(w) <==> v == w
  {
    RoundTrip(v);
    RoundTrip(w);
  }
}
