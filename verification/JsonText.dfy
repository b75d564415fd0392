/** JSON values and their one canonical text. */
module JsonText {
  import opened Unicode

  type SafeInteger = n: int | -9007199254740991 <= n <= 9007199254740991

  /** A JSON value; an object is a map of its members, whatever order they were added in. */
  datatype Json =
    | Null
    | Bool(b: bool)
    | Num(n: SafeInteger)
    | Str(s: Text)
    | Arr(items: seq<Json>)
    | Obj(members: map<Text, Json>)

  const QUOTE: Unit := 0x22
  const BACKSLASH: Unit := 0x5c
  const COMMA: Unit := 0x2c
  const COLON: Unit := 0x3a
  const LBRACKET: Unit := 0x5b
  const RBRACKET: Unit := 0x5d
  const LBRACE: Unit := 0x7b
  const RBRACE: Unit := 0x7d
  const MINUS: Unit := 0x2d
  const ZERO: Unit := 0x30
  const NULL: Text := [0x6e, 0x75, 0x6c, 0x6c]
  const TRUE: Text := [0x74, 0x72, 0x75, 0x65]
  const FALSE: Text := [0x66, 0x61, 0x6c, 0x73, 0x65]

  // ---- Keys in code-unit order ----

  predicate Less(a: Text, b: Text) {
    b != [] && (a == [] || a[0] < b[0] || (a[0] == b[0] && Less(a[1..], b[1..])))
  }

  lemma {:induction false} LessTotal(a: Text, b: Text)
    ensures Less(a, b) || a == b || Less(b, a)
  {
    if a != [] && b != [] && a[0] == b[0] {
      LessTotal(a[1..], b[1..]);
      assert a == [a[0]] + a[1..] && b == [b[0]] + b[1..];
    }
  }

  lemma {:induction false} LessStrict(a: Text, b: Text)
    requires Less(a, b)
    ensures a != b && !Less(b, a)
  {
    if a != [] && a[0] == b[0] {
      LessStrict(a[1..], b[1..]);
    }
  }

  lemma {:induction false} LessTransitive(a: Text, b: Text, c: Text)
    requires Less(a, b) && Less(b, c)
    ensures Less(a, c)
  {
    if a != [] && a[0] == b[0] == c[0] {
      LessTransitive(a[1..], b[1..], c[1..]);
    }
  }

  /** The first place at which two texts differ has the smaller code unit in `a`, or is the end of `a`. */
  predicate SplitsAt(a: Text, b: Text, n: nat) {
    n <= |a| && n <= |b| && a[..n] == b[..n] && if n == |a| then n < |b| else n < |b| && a[n] < b[n]
  }

  ghost predicate Precedes(a: Text, b: Text) {
    exists n: nat :: SplitsAt(a, b, n)
  }

  /** What the comparison means. */
  lemma {:induction false} LessIs(a: Text, b: Text)
    ensures Less(a, b) <==> Precedes(a, b)
  {
    if Less(a, b) {
      var n := SplitOf(a, b);
    } else if Precedes(a, b) {
      var n: nat :| SplitsAt(a, b, n);
      SplitLess(a, b, n);
    }
  }

  lemma LessEverywhere()
    ensures forall a, b :: Less(a, b) <==> Precedes(a, b)
  {
    forall a, b
      ensures Less(a, b) <==> Precedes(a, b)
    {
      LessIs(a, b);
    }
  }

  lemma {:induction false} SplitOf(a: Text, b: Text) returns (n: nat)
    requires Less(a, b)
    ensures SplitsAt(a, b, n)
  {
    n := 0;
    if a != [] && a[0] == b[0] {
      n := SplitOf(a[1..], b[1..]);
      n := n + 1;
      assert a[..n] == [a[0]] + a[1..][..n - 1] && b[..n] == [b[0]] + b[1..][..n - 1];
    }
  }

  lemma {:induction false} SplitLess(a: Text, b: Text, n: nat)
    requires SplitsAt(a, b, n)
    ensures Less(a, b)
  {
    if n > 0 {
      assert a[0] == a[..n][0] == b[..n][0] == b[0];
      assert a[1..][..n - 1] == a[..n][1..] && b[1..][..n - 1] == b[..n][1..];
      SplitLess(a[1..], b[1..], n - 1);
    }
  }

  /** In the order of UTF-16 code units. */
  ghost predicate Ascending(keys: seq<Text>) {
    forall i, j :: 0 <= i < j < |keys| ==> Precedes(keys[i], keys[j])
  }

  /** `key` put where it belongs among ascending keys. */
  function Insert(key: Text, keys: seq<Text>): seq<Text> {
    if keys == [] || Less(key, keys[0]) then [key] + keys else [keys[0]] + Insert(key, keys[1..])
  }

  function Sorted(keys: seq<Text>): seq<Text> {
    if keys == [] then [] else Insert(keys[0], Sorted(keys[1..]))
  }

  predicate Distinct(keys: seq<Text>) {
    forall i, j :: 0 <= i < j < |keys| ==> keys[i] != keys[j]
  }

  lemma {:induction false} InsertAscends(key: Text, keys: seq<Text>)
    requires Ascending(keys) && key !in keys
    ensures Ascending(Insert(key, keys))
    ensures forall k :: k in Insert(key, keys) <==> k == key || k in keys
  {
    hide Less, Precedes;
    LessEverywhere();
    if keys != [] {
      var first := keys[0];
      assert first in keys;
      if Less(key, first) {
        forall j | 0 <= j < |keys|
          ensures Less(key, keys[j])
        {
          if j > 0 {
            LessTransitive(key, first, keys[j]);
          }
        }
      } else {
        LessTotal(key, first);
        InsertAscends(key, keys[1..]);
        var rest := Insert(key, keys[1..]);
        forall j | 0 <= j < |rest|
          ensures Less(first, rest[j])
        {
          assert rest[j] in rest;
          if rest[j] != key {
            var i :| 0 <= i < |keys| - 1 && keys[1..][i] == rest[j];
            assert keys[i + 1] == rest[j];
          }
        }
      }
    }
  }

  lemma {:induction false} SortedAscends(keys: seq<Text>)
    requires Distinct(keys)
    ensures Ascending(Sorted(keys)) && forall k :: k in Sorted(keys) <==> k in keys
  {
    if keys != [] {
      SortedAscends(keys[1..]);
      InsertAscends(keys[0], Sorted(keys[1..]));
    }
  }

  /** The first of ascending keys is the least. */
  lemma LeastFirst(keys: seq<Text>, key: Text)
    requires Ascending(keys) && key in keys
    ensures key == keys[0] || Less(keys[0], key)
  {
    hide Less, Precedes;
    LessEverywhere();
  }

  /** Ascending lists of the same keys are the same list. */
  lemma {:induction false} AscendingUnique(a: seq<Text>, b: seq<Text>)
    requires Ascending(a) && Ascending(b) && forall k :: k in a <==> k in b
    ensures a == b
  {
    hide Less, Precedes;
    assert a != [] ==> a[0] in b;
    assert b != [] ==> b[0] in a;
    if a != [] {
      LeastFirst(a, b[0]);
      LeastFirst(b, a[0]);
      if Less(a[0], b[0]) {
        LessStrict(a[0], b[0]);
      }
      AscendingTail(a);
      AscendingTail(b);
      AscendingUnique(a[1..], b[1..]);
      assert a == [a[0]] + a[1..] && b == [b[0]] + b[1..];
    }
  }

  lemma AscendingTail(a: seq<Text>)
    requires Ascending(a) && a != []
    ensures Ascending(a[1..]) && forall k :: k in a[1..] <==> k in a && k != a[0]
  {
    hide Less, Precedes;
    LessEverywhere();
    forall k
      ensures k in a[1..] <==> k in a && k != a[0]
    {
      if k in a[1..] {
        var i :| 0 <= i < |a| - 1 && a[1..][i] == k;
        assert a[i + 1] == k;
        LessStrict(a[0], a[i + 1]);
      }
    }
  }

  lemma AscendingDistinct(keys: seq<Text>)
    requires Ascending(keys)
    ensures Distinct(keys)
  {
    hide Less, Precedes;
    LessEverywhere();
    forall i, j | 0 <= i < j < |keys|
      ensures keys[i] != keys[j]
    {
      LessStrict(keys[i], keys[j]);
    }
  }

  /** The keys of an object in ascending order. */
  ghost function KeysOf(keys: set<Text>): (r: seq<Text>)
    ensures Ascending(r) && forall k :: k in r <==> k in keys
  {
    KeysExist(keys);
    var r :| Ascending(r) && forall k :: k in r <==> k in keys;
    r
  }

  lemma {:induction false} KeysExist(keys: set<Text>)
    ensures exists r :: Ascending(r) && forall k :: k in r <==> k in keys
    decreases |keys|
  {
    if keys == {} {
      assert Ascending([]);
      assert forall k: Text :: k in [] <==> k in keys;
    } else {
      var key :| key in keys;
      KeysExist(keys - {key});
      var r :| Ascending(r) && forall k :: k in r <==> k in keys - {key};
      InsertAscends(key, r);
      assert forall k :: k in Insert(key, r) <==> k in keys;
    }
  }

  // ---- Printing ----

  function HexDigit(n: nat): Unit
    requires n < 16
  {
    if n < 10 then 0x30 + n else 0x61 + (n - 10)
  }

  /** How one code unit is written inside quotes. */
  function Escape(u: Unit): (r: Text)
    ensures r != []
  {
    if u == QUOTE || u == BACKSLASH then [BACKSLASH, u]
    else if u == 8 then [BACKSLASH, 0x62]
    else if u == 9 then [BACKSLASH, 0x74]
    else if u == 10 then [BACKSLASH, 0x6e]
    else if u == 12 then [BACKSLASH, 0x66]
    else if u == 13 then [BACKSLASH, 0x72]
    else if u < 0x20 then [BACKSLASH, 0x75, ZERO, ZERO, HexDigit(u / 16), HexDigit(u % 16)]
    else [u]
  }

  function EscapeAll(s: Text): Text {
    if s == [] then [] else Escape(s[0]) + EscapeAll(s[1..])
  }

  function Quoted(s: Text): Text {
    [QUOTE] + EscapeAll(s) + [QUOTE]
  }

  function Digits(n: nat): (r: Text)
    ensures r != []
  {
    if n < 10 then [ZERO + n] else Digits(n / 10) + [ZERO + n % 10]
  }

  function Decimal(n: int): Text {
    if n < 0 then [MINUS] + Digits(-n) else Digits(n)
  }

  /** Texts with commas between them. */
  function Join(texts: seq<Text>): Text {
    if texts == [] then []
    else if |texts| == 1 then texts[0]
    else texts[0] + [COMMA] + Join(texts[1..])
  }

  function Member(key: Text, text: Text): Text {
    Quoted(key) + [COLON] + text
  }

  /** The canonical text: no spaces, members in ascending order of their keys. */
  ghost function Canonical(v: Json): Text
    decreases v
  {
    match v
    case Null => NULL
    case Bool(b) => if b then TRUE else FALSE
    case Num(n) => Decimal(n)
    case Str(s) => Quoted(s)
    case Arr(items) =>
      [LBRACKET] + Join(seq(|items|, i requires 0 <= i < |items| => Canonical(items[i]))) + [RBRACKET]
    case Obj(members) =>
      var keys := KeysOf(members.Keys);
      [LBRACE] + Join(seq(|keys|, i requires 0 <= i < |keys| =>
                  Member(keys[i], Canonical(members[keys[i]])))) + [RBRACE]
  }

  ghost function ItemTexts(items: seq<Json>): seq<Text> {
    seq(|items|, i requires 0 <= i < |items| => Canonical(items[i]))
  }

  ghost function MemberTexts(keys: seq<Text>, members: map<Text, Json>): seq<Text>
    requires forall k :: k in keys ==> k in members
  {
    seq(|keys|, i requires 0 <= i < |keys| => Member(keys[i], Canonical(members[keys[i]])))
  }

  lemma CanonicalArray(items: seq<Json>)
    ensures Canonical(Arr(items)) == [LBRACKET] + Join(ItemTexts(items)) + [RBRACKET]
  {
  }

  lemma CanonicalObject(members: map<Text, Json>)
    ensures Canonical(Obj(members)) == [LBRACE] + Join(MemberTexts(KeysOf(members.Keys), members)) + [RBRACE]
  {
  }

  // ---- The text, character by character ----

  /** Two characters for a quote, a backslash and five controls, four digits for other controls, itself for the rest. */
  lemma Escapes()
    ensures Escape(0x22) == [0x5c, 0x22] && Escape(0x5c) == [0x5c, 0x5c] && Escape(8) == [0x5c, 0x62]
    ensures Escape(9) == [0x5c, 0x74] && Escape(10) == [0x5c, 0x6e] && Escape(12) == [0x5c, 0x66]
    ensures Escape(13) == [0x5c, 0x72] && Escape(0) == [0x5c, 0x75, 0x30, 0x30, 0x30, 0x30]
    ensures Escape(0x1a) == [0x5c, 0x75, 0x30, 0x30, 0x31, 0x61]
    ensures Escape(0x1f) == [0x5c, 0x75, 0x30, 0x30, 0x31, 0x66]
    ensures Escape(0x19) == [0x5c, 0x75, 0x30, 0x30, 0x31, 0x39]
    ensures forall u: Unit :: u >= 0x20 && u != 0x22 && u != 0x5c ==> Escape(u) == [u]
  {
  }

  /** A text is its characters, each written so, between quotes. */
  lemma {:induction false} QuotedIs(s: Text, t: Text)
    ensures Quoted([]) == [0x22, 0x22] && (|s| == 1 ==> Quoted(s) == [0x22] + Escape(s[0]) + [0x22])
    ensures EscapeAll(s + t) == EscapeAll(s) + EscapeAll(t)
  {
    if s == [] {
      assert s + t == t;
    } else {
      assert (s + t)[1..] == s[1..] + t;
      QuotedIs(s[1..], t);
    }
  }

  /** `null`, `true`, `false`, `[]` and `{}` */
  lemma Words()
    ensures Canonical(Null) == [0x6e, 0x75, 0x6c, 0x6c] && Canonical(Bool(true)) == [0x74, 0x72, 0x75, 0x65]
    ensures Canonical(Bool(false)) == [0x66, 0x61, 0x6c, 0x73, 0x65]
    ensures Canonical(Arr([])) == [0x5b, 0x5d] && Canonical(Obj(map[])) == [0x7b, 0x7d]
  {
    var members: map<Text, Json> := map[];
    CanonicalObject(members);
    AscendingUnique([], KeysOf(members.Keys));
  }

  /** `0` and `-1209` */
  lemma Numbers()
    ensures Canonical(Num(0)) == [0x30] && Canonical(Num(-1209)) == [0x2d, 0x31, 0x32, 0x30, 0x39]
  {
    assert Digits(1209) == Digits(120) + [0x39] && Digits(120) == Digits(12) + [0x30];
  }

  /** `[x,y,z]` */
  lemma Elements(x: Json, y: Json, z: Json)
    ensures Canonical(Arr([x, y, z])) ==
            [0x5b] + Canonical(x) + [0x2c] + Canonical(y) + [0x2c] + Canonical(z) + [0x5d]
  {
    hide Canonical;
    CanonicalArray([x, y, z]);
    assert ItemTexts([x, y, z]) == [Canonical(x), Canonical(y), Canonical(z)];
    ThreeJoin(Canonical(x), Canonical(y), Canonical(z));
  }

  lemma ThreeJoin(a: Text, b: Text, c: Text)
    ensures Join([a, b, c]) == a + [0x2c] + (b + [0x2c] + c)
  {
    assert [a, b, c][1..] == [b, c] && [b, c][1..] == [c];
    assert Join([b, c]) == b + [0x2c] + Join([c]);
  }

  lemma MemberIs(u: Unit, text: Text)
    requires 0x61 <= u <= 0x7a
    ensures Member([u], text) == [0x22, u, 0x22, 0x3a] + text
  {
    QuotedIs([u], []);
    Escapes();
  }

  /** `{"a":x,"b":y}`: the members come in the order of their keys, not in that of their values. */
  lemma Members(x: Json, y: Json)
    ensures Canonical(Obj(map[[0x62] := y, [0x61] := x])) ==
            [0x7b, 0x22, 0x61, 0x22, 0x3a] + Canonical(x) + [0x2c, 0x22, 0x62, 0x22, 0x3a] + Canonical(y) + [0x7d]
  {
    hide Canonical;
    hide Decimal;
    hide Canonical, Member;
    var a: Text, b: Text := [0x61], [0x62];
    MemberIs(0x61, Canonical(x));
    MemberIs(0x62, Canonical(y));
    var members := map[b := y, a := x];
    CanonicalObject(members);
    assert SplitsAt(a, b, 0);
    AscendingUnique([a, b], KeysOf(members.Keys));
    assert MemberTexts([a, b], members) == [Member(a, Canonical(x)), Member(b, Canonical(y))];
    assert [Member(a, Canonical(x)), Member(b, Canonical(y))][1..] == [Member(b, Canonical(y))];
  }
}
