/** IPv6 text (section 2.2 of RFC 4291) as the advisor probe reads it, and which addresses are private. */
module AdvisorAddress {
  import opened Wrappers

  // ---- Splitting and joining ----

  function Split(s: string, at: char): (r: seq<string>)
    ensures r != []
  {
    if s == [] then [""]
    else
      var rest := Split(s[1..], at);
      if s[0] == at then [""] + rest else [[s[0]] + rest[0]] + rest[1..]
  }

  function Join(parts: seq<string>, at: char): string {
    if parts == [] then "" else if |parts| == 1 then parts[0] else parts[0] + [at] + Join(parts[1..], at)
  }

  lemma {:induction false} SplitJoins(s: string, at: char)
    ensures Join(Split(s, at), at) == s && forall p :: p in Split(s, at) ==> at !in p
  {
    if s != [] {
      SplitJoins(s[1..], at);
      var rest := Split(s[1..], at);
      if s[0] == at {
        assert ([""] + rest)[1..] == rest;
        assert s == [at] + s[1..];
      } else {
        var first := [s[0]] + rest[0];
        assert Split(s, at) == [first] + rest[1..];
        JoinPushes(s[0], rest, at);
        assert s == [s[0]] + s[1..];
      }
    }
  }

  lemma JoinPushes(c: char, rest: seq<string>, at: char)
    requires rest != []
    ensures Join([[c] + rest[0]] + rest[1..], at) == [c] + Join(rest, at)
  {
  }

  lemma {:induction false} JoinSplits(parts: seq<string>, at: char)
    requires parts != [] && forall p :: p in parts ==> at !in p
    ensures Split(Join(parts, at), at) == parts
    decreases |parts|
  {
    if |parts| == 1 {
      SplitPlain(parts[0], at);
      assert parts == [parts[0]];
    } else {
      JoinSplits(parts[1..], at);
      SplitFirst(parts[0], Join(parts[1..], at), at);
      assert parts == [parts[0]] + parts[1..];
      assert parts[0] + [at] + Join(parts[1..], at) == parts[0] + ([at] + Join(parts[1..], at));
    }
  }

  lemma {:induction false} SplitPlain(s: string, at: char)
    requires at !in s
    ensures Split(s, at) == [s]
  {
    if s != [] {
      SplitPlain(s[1..], at);
      assert s == [s[0]] + s[1..];
    }
  }

  lemma {:induction false} SplitFirst(s: string, rest: string, at: char)
    requires at !in s
    ensures Split(s + ([at] + rest), at) == [s] + Split(rest, at)
  {
    var whole := s + ([at] + rest);
    if s == [] {
      assert whole == [at] + rest && whole[1..] == rest;
    } else {
      assert whole[1..] == s[1..] + ([at] + rest);
      SplitFirst(s[1..], rest, at);
      assert s == [s[0]] + s[1..];
      assert ([s[1..]] + Split(rest, at))[1..] == Split(rest, at);
    }
  }

  /** The pieces between `::`, taken from the left. */
  function Halves(s: string): (r: seq<string>)
    ensures r != []
    decreases |s|
  {
    if |s| < 2 then [s]
    else if s[0] == ':' && s[1] == ':' then [""] + Halves(s[2..])
    else
      var rest := Halves(s[1..]);
      [[s[0]] + rest[0]] + rest[1..]
  }

  /** No two colons in a row. */
  predicate NoDouble(s: string) {
    forall i :: 0 <= i < |s| - 1 ==> !(s[i] == ':' && s[i + 1] == ':')
  }

  lemma {:induction false} HalvesPlain(s: string)
    requires NoDouble(s)
    ensures Halves(s) == [s]
  {
    if |s| >= 2 {
      assert !(s[0] == ':' && s[0 + 1] == ':');
      HalvesPlain(s[1..]);
      assert s == [s[0]] + s[1..];
    }
  }

  lemma {:induction false} HalvesTwo(head: string, tail: string)
    requires NoDouble(head) && NoDouble(tail) && (head != [] ==> head[|head| - 1] != ':')
    ensures Halves(head + ("::" + tail)) == [head, tail]
    decreases |head|
  {
    var whole := head + ("::" + tail);
    if head == [] {
      assert whole == "::" + tail && whole[2..] == tail;
      HalvesPlain(tail);
    } else {
      assert whole[1..] == head[1..] + ("::" + tail);
      if |head| > 1 {
        assert !(head[0] == ':' && head[0 + 1] == ':');
      }
      HalvesTwo(head[1..], tail);
      assert head == [head[0]] + head[1..];
      assert [head[1..], tail][1..] == [tail];
    }
  }

  // ---- Groups ----

  predicate IsHex(c: char) {
    '0' <= c <= '9' || 'a' <= c <= 'f'
  }

  function HexValue(c: char): (n: nat)
    requires IsHex(c)
    ensures n < 16
  {
    if c <= '9' then (c as int) - 48 else (c as int) - 97 + 10
  }

  /** The digits and their values. */
  lemma HexDigits(c: char)
    ensures IsHex(c) <==> c in "0123456789abcdef"
    ensures IsHex(c) ==> "0123456789abcdef"[HexValue(c)] == c
  {
    var digits := "0123456789abcdef";
    assert digits[0] == '0' && digits[1] == '1' && digits[2] == '2' && digits[3] == '3' && digits[4] == '4';
    assert digits[5] == '5' && digits[6] == '6' && digits[7] == '7' && digits[8] == '8' && digits[9] == '9';
    assert digits[10] == 'a' && digits[11] == 'b' && digits[12] == 'c' && digits[13] == 'd';
    assert digits[14] == 'e' && digits[15] == 'f';
  }

  /** One to four hexadecimal digits. */
  predicate IsChunk(s: string) {
    1 <= |s| <= 4 && AllHex(s)
  }

  predicate AllHex(s: string) {
    forall i :: 0 <= i < |s| ==> IsHex(s[i])
  }

  function Parsed(s: string): nat
    requires AllHex(s)
  {
    if s == [] then 0 else Parsed(s[..|s| - 1]) * 16 + HexValue(s[|s| - 1])
  }

  lemma {:induction false} ParsedSize(s: string)
    requires AllHex(s) && |s| <= 4
    ensures Parsed(s) <
             if |s| == 0 then 1 else if |s| == 1 then 16
             else if |s| == 2 then 256 else if |s| == 3 then 4096 else 65536
  {
    if s != [] {
      ParsedSize(s[..|s| - 1]);
    }
  }

  predicate AreChunks(chunks: seq<string>) {
    forall c :: c in chunks ==> IsChunk(c)
  }

  function Values(chunks: seq<string>): (r: seq<nat>)
    requires AreChunks(chunks)
    ensures |r| == |chunks|
  {
    seq(|chunks|, i requires 0 <= i < |chunks| => assert chunks[i] in chunks; Parsed(chunks[i]))
  }

  /** The groups on one side of `::`. */
  function SideOf(side: string): Option<seq<nat>> {
    if side == "" then Some([])
    else if AreChunks(Split(side, ':')) then Some(Values(Split(side, ':')))
    else None
  }

  method ParseSide(side: string) returns (groups: Option<seq<nat>>)
    ensures groups == SideOf(side)
  {
    if side == "" {
      return Some([]);
    }
    var chunks := Split(side, ':');
    var pushed: seq<nat> := [];
    for i := 0 to |chunks|
      invariant AreChunks(chunks[..i]) && pushed == Values(chunks[..i])
    {
      if !IsChunk(chunks[i]) {
        assert chunks[i] in chunks;
        return None;
      }
      assert chunks[..i + 1] == chunks[..i] + [chunks[i]];
      pushed := pushed + [Parsed(chunks[i])];
    }
    assert chunks[..|chunks|] == chunks;
    groups := Some(pushed);
  }

  // ---- Dotted quads ----

  predicate IsDigits(s: string) {
    s != [] && forall i :: 0 <= i < |s| ==> '0' <= s[i] <= '9'
  }

  predicate IsOctetText(s: string) {
    IsDigits(s) && (s[0] == '0' ==> |s| == 1)
  }

  function Decimal(s: string): nat
    requires forall i :: 0 <= i < |s| ==> '0' <= s[i] <= '9'
  {
    if s == [] then 0 else Decimal(s[..|s| - 1]) * 10 + ((s[|s| - 1] as int) - 48)
  }

  predicate IsOctet(s: string) {
    IsOctetText(s) && Decimal(s) <= 255
  }

  /** A number in decimal, without leading zeros. */
  function Numeral(n: nat): string {
    if n < 10 then [(48 + n) as char] else Numeral(n / 10) + [(48 + n % 10) as char]
  }

  lemma {:induction false} NumeralReads(n: nat)
    ensures IsOctetText(Numeral(n)) && Decimal(Numeral(n)) == n && (Numeral(n)[0] == '0' ==> n == 0)
  {
    if n >= 10 {
      NumeralReads(n / 10);
      var s := Numeral(n);
      assert s[..|s| - 1] == Numeral(n / 10);
    } else {
      assert Numeral(n)[..0] == "";
    }
  }

  lemma {:induction false} ReadsNumeral(s: string)
    requires IsOctetText(s)
    ensures Numeral(Decimal(s)) == s
  {
    hide Numeral;
    var n := |s| - 1;
    if n == 0 {
      OneDigit(s);
    } else {
      ReadsNumeral(s[..n]);
      NonZero(s[..n]);
      OneMoreDigit(Decimal(s[..n]), (s[n] as int) - 48);
      assert s == s[..n] + [s[n]];
    }
  }

  lemma OneDigit(s: string)
    requires |s| == 1 && '0' <= s[0] <= '9'
    ensures Numeral(Decimal(s)) == s
  {
    assert s[..0] == "";
  }

  lemma OneMoreDigit(n: nat, d: nat)
    requires 0 < n && d < 10
    ensures Numeral(n * 10 + d) == Numeral(n) + [(48 + d) as char]
  {
    assert (n * 10 + d) / 10 == n;
  }

  /** Digits that do not begin with a zero are not zero. */
  lemma {:induction false} NonZero(s: string)
    requires IsOctetText(s) && s[0] != '0'
    ensures Decimal(s) > 0
  {
    if |s| > 1 {
      NonZero(s[..|s| - 1]);
    } else {
      assert s[..0] == "";
    }
  }

  /** An octet is the decimal numeral of a number up to 255, which is its value. */
  lemma OctetExactly(s: string)
    ensures IsOctet(s) <==> exists n :: 0 <= n <= 255 && s == Numeral(n)
    ensures forall n :: 0 <= n <= 255 && s == Numeral(n) ==> Decimal(s) == n
  {
    if IsOctet(s) {
      ReadsNumeral(s);
    }
    forall n | 0 <= n <= 255 && s == Numeral(n)
      ensures IsOctet(s) && Decimal(s) == n
    {
      NumeralReads(n);
    }
  }

  datatype Ipv4 = Ipv4(a: nat, b: nat, c: nat, d: nat)

  function QuadOf(host: string): Option<Ipv4> {
    var parts := Split(host, '.');
    if |parts| == 4 && IsOctet(parts[0]) && IsOctet(parts[1]) && IsOctet(parts[2]) && IsOctet(parts[3])
    then Some(Ipv4(Decimal(parts[0]), Decimal(parts[1]), Decimal(parts[2]), Decimal(parts[3])))
    else None
  }

  method ParseIpv4Octets(host: string) returns (quad: Option<Ipv4>)
    ensures quad == QuadOf(host)
  {
    var parts := Split(host, '.');
    if |parts| != 4 {
      return None;
    }
    var octets: seq<nat> := [];
    for i := 0 to 4
      invariant |octets| == i
      invariant forall j :: 0 <= j < i ==> IsOctet(parts[j]) && octets[j] == Decimal(parts[j])
    {
      if !IsOctetText(parts[i]) {
        return None;
      }
      var octet := Decimal(parts[i]);
      if octet > 255 {
        return None;
      }
      octets := octets + [octet];
    }
    quad := Some(Ipv4(octets[0], octets[1], octets[2], octets[3]));
  }

  // ---- Whole addresses ----

  function Lower(s: string): string {
    seq(|s|, i requires 0 <= i < |s| => if 'A' <= s[i] <= 'Z' then ((s[i] as int) + 32) as char else s[i])
  }

  /** The address without its zone. */
  function WithoutZone(host: string): string {
    Split(host, '%')[0]
  }

  /** A zone, whatever it says, leaves the address as it is. */
  lemma ZoneIgnored(bare: string, zone: string)
    requires '%' !in bare
    ensures WithoutZone(bare) == bare && WithoutZone(bare + (['%'] + zone)) == bare
  {
    SplitPlain(bare, '%');
    SplitFirst(bare, zone, '%');
  }

  const MAPPED := "::ffff:"

  /** Four runs of digits with dots between them. */
  predicate LooksDotted(s: string) {
    var parts := Split(s, '.');
    |parts| == 4 && IsDigits(parts[0]) && IsDigits(parts[1]) && IsDigits(parts[2]) && IsDigits(parts[3])
  }

  function Zeros(n: nat): (r: seq<nat>)
    ensures |r| == n
  {
    seq(n, _ => 0)
  }

  function ExpandBare(bare: string): Option<seq<nat>> {
    if MAPPED <= bare && LooksDotted(bare[7..]) then
      match QuadOf(bare[7..])
      case Some(q) => Some([0, 0, 0, 0, 0, 0xffff, q.a * 256 + q.b, q.c * 256 + q.d])
      case None => None
    else
      var halves := Halves(bare);
      if |halves| > 2 then None
      else
        var head, tail := SideOf(halves[0]), if |halves| == 2 then SideOf(halves[1]) else Some([]);
        if head.None? || tail.None? then None
        else if |halves| == 1 then (if |head.value| == 8 then head else None)
        else if |head.value| + |tail.value| > 7 then None
        else Some(head.value + Zeros(8 - |head.value| - |tail.value|) + tail.value)
  }

  /** What an address as it is given expands to: without its zone and in lower case. */
  function Expanded(host: string): Option<seq<nat>> {
    ExpandBare(Lower(WithoutZone(host)))
  }

  method ExpandIpv6(host: string) returns (groups: Option<seq<nat>>)
    ensures groups == Expanded(host)
  {
    var bare := Lower(WithoutZone(host));
    if MAPPED <= bare && LooksDotted(bare[7..]) {
      var quad := ParseIpv4Octets(bare[7..]);
      if quad == None {
        return None;
      }
      var q := quad.value;
      return Some([0, 0, 0, 0, 0, 0xffff, q.a * 256 + q.b, q.c * 256 + q.d]);
    }
    var halves := Halves(bare);
    if |halves| > 2 {
      return None;
    }
    var head := ParseSide(halves[0]);
    var tail: Option<seq<nat>> := Some([]);
    if |halves| == 2 {
      tail := ParseSide(halves[1]);
    }
    if head == None || tail == None {
      return None;
    }
    if |halves| == 1 {
      return if |head.value| == 8 then head else None;
    }
    if |head.value| + |tail.value| > 7 {
      return None;
    }
    groups := Some(head.value + Zeros(8 - |head.value| - |tail.value|) + tail.value);
  }

  // ---- What is accepted ----

  /** Every accepted text gives eight groups of sixteen bits. */
  lemma ExpandsToEight(bare: string)
    requires ExpandBare(bare).Some?
    ensures |ExpandBare(bare).value| == 8 && forall g :: g in ExpandBare(bare).value ==> g < 65536
  {
    if MAPPED <= bare && LooksDotted(bare[7..]) {
      QuadSizes(bare[7..]);
    } else {
      var halves := Halves(bare);
      SideSizes(halves[0]);
      if |halves| == 2 {
        SideSizes(halves[1]);
      }
    }
  }

  lemma QuadSizes(host: string)
    requires QuadOf(host).Some?
    ensures var q := QuadOf(host).value; q.a < 256 && q.b < 256 && q.c < 256 && q.d < 256
  {
  }

  lemma SideSizes(side: string)
    requires SideOf(side).Some?
    ensures forall g :: g in SideOf(side).value ==> g < 65536
  {
    if side != "" {
      var chunks := Split(side, ':');
      forall i | 0 <= i < |chunks|
        ensures Values(chunks)[i] < 65536
      {
        assert chunks[i] in chunks;
        ParsedSize(chunks[i]);
      }
    }
  }

  lemma ChunkPlain(c: string)
    requires IsChunk(c)
    ensures ':' !in c && '.' !in c && '%' !in c
  {
  }

  /** Chunks joined by colons: no double colon, no colon at the end, and they read back. */
  lemma {:induction false} JoinedPlain(chunks: seq<string>)
    requires AreChunks(chunks)
    ensures NoDouble(Join(chunks, ':')) && '.' !in Join(chunks, ':')
    ensures chunks != [] ==>
              && Join(chunks, ':') != ""
              && Join(chunks, ':')[0] != ':'
              && Join(chunks, ':')[|Join(chunks, ':')| - 1] != ':'
  {
    if chunks != [] {
      assert chunks[0] in chunks;
      ChunkPlain(chunks[0]);
      if |chunks| > 1 {
        assert AreChunks(chunks[1..]);
        JoinedPlain(chunks[1..]);
        ColonJoins(chunks[0], Join(chunks[1..], ':'));
      }
    }
  }

  lemma ColonJoins(c: string, rest: string)
    requires c != "" && ':' !in c && '.' !in c && rest != "" && NoDouble(rest) && '.' !in rest && rest[0] != ':'
    ensures var s := c + [':'] + rest;
            NoDouble(s) && '.' !in s && s[0] != ':' && s[|s| - 1] == rest[|rest| - 1]
  {
  }

  lemma SideReads(chunks: seq<string>)
    requires AreChunks(chunks)
    ensures SideOf(Join(chunks, ':')) == Some(Values(chunks))
  {
    if chunks != [] {
      JoinedPlain(chunks);
      forall c | c in chunks
        ensures ':' !in c
      {
        ChunkPlain(c);
      }
      JoinSplits(chunks, ':');
    }
  }

  lemma NotDotted(bare: string)
    requires '.' !in bare && MAPPED <= bare
    ensures !LooksDotted(bare[7..])
  {
    SplitPlain(bare[7..], '.');
  }

  /** Eight groups, each written with one to four digits, expand to themselves. */
  lemma FullExpands(chunks: seq<string>)
    requires AreChunks(chunks) && |chunks| == 8
    ensures ExpandBare(Join(chunks, ':')) == Some(Values(chunks))
  {
    var s := Join(chunks, ':');
    JoinedPlain(chunks);
    HalvesPlain(s);
    SideReads(chunks);
    if MAPPED <= s {
      NotDotted(s);
    }
  }

  lemma TwoHalves(bare: string, h: string, t: string, head: seq<nat>, tail: seq<nat>)
    requires MAPPED <= bare ==> !LooksDotted(bare[7..])
    requires Halves(bare) == [h, t] && SideOf(h) == Some(head) && SideOf(t) == Some(tail) && |head| + |tail| <= 7
    ensures ExpandBare(bare) == Some(head + Zeros(8 - |head| - |tail|) + tail)
  {
  }

  lemma CompressedPlain(h: string, t: string, s: string)
    requires s == h + ("::" + t) && '.' !in h && '.' !in t
    ensures MAPPED <= s ==> !LooksDotted(s[7..])
  {
    if MAPPED <= s {
      assert '.' !in s;
      NotDotted(s);
    }
  }

  /** Any run of zero groups may be left out at a double colon. */
  lemma CompressedExpands(head: seq<string>, tail: seq<string>, text: string)
    requires AreChunks(head) && AreChunks(tail) && |head| + |tail| <= 7
    requires text == Join(head, ':') + ("::" + Join(tail, ':'))
    ensures ExpandBare(text) == Some(Values(head) + Zeros(8 - |head| - |tail|) + Values(tail))
  {
    var h, t := Join(head, ':'), Join(tail, ':');
    JoinedPlain(head);
    JoinedPlain(tail);
    HalvesTwo(h, t);
    SideReads(head);
    SideReads(tail);
    CompressedPlain(h, t, text);
    TwoHalves(text, h, t, Values(head), Values(tail));
  }

  /** Four octets with dots between them. */
  function Dotted(o0: string, o1: string, o2: string, o3: string): string {
    Join([o0, o1, o2, o3], '.')
  }

  lemma OctetPlain(o: string)
    requires IsOctet(o)
    ensures '.' !in o
  {
  }

  lemma DottedReads(o0: string, o1: string, o2: string, o3: string)
    requires IsOctet(o0) && IsOctet(o1) && IsOctet(o2) && IsOctet(o3)
    ensures LooksDotted(Dotted(o0, o1, o2, o3))
    ensures QuadOf(Dotted(o0, o1, o2, o3)) == Some(Ipv4(Decimal(o0), Decimal(o1), Decimal(o2), Decimal(o3)))
  {
    OctetPlain(o0);
    OctetPlain(o1);
    OctetPlain(o2);
    OctetPlain(o3);
    JoinSplits([o0, o1, o2, o3], '.');
  }

  lemma MappedBranch(bare: string, dotted: string, q: Ipv4)
    requires MAPPED <= bare && bare[7..] == dotted && LooksDotted(dotted) && QuadOf(dotted) == Some(q)
    ensures ExpandBare(bare) == Some(MappedGroups(q))
  {
  }

  /** The groups of the mapped form of an IPv4 address (section 2.5.5.2 of RFC 4291). */
  function MappedGroups(q: Ipv4): seq<nat> {
    [0, 0, 0, 0, 0, 0xffff, q.a * 256 + q.b, q.c * 256 + q.d]
  }

  lemma MappedText(dotted: string)
    ensures MAPPED <= MAPPED + dotted && (MAPPED + dotted)[7..] == dotted
  {
  }

  /** What a mapped address in dotted form expands to. */
  lemma DottedExpands(dotted: string, o0: string, o1: string, o2: string, o3: string)
    requires IsOctet(o0) && IsOctet(o1) && IsOctet(o2) && IsOctet(o3) && dotted == Dotted(o0, o1, o2, o3)
    ensures ExpandBare(MAPPED + dotted) == Some(MappedGroups(Ipv4(Decimal(o0), Decimal(o1), Decimal(o2), Decimal(o3))))
  {
    DottedReads(o0, o1, o2, o3);
    MappedText(dotted);
    MappedBranch(MAPPED + dotted, dotted, Ipv4(Decimal(o0), Decimal(o1), Decimal(o2), Decimal(o3)));
  }

  lemma HexGroups(high: string, low: string, q: Ipv4)
    requires IsChunk(high) && IsChunk(low) && AreChunks(["ffff", high, low])
    requires Parsed(high) == q.a * 256 + q.b && Parsed(low) == q.c * 256 + q.d
    ensures Values([]) + Zeros(5) + Values(["ffff", high, low]) == MappedGroups(q)
  {
    FourFs();
    var groups := Values([]) + Zeros(5) + Values(["ffff", high, low]);
    assert |groups| == 8 && groups[5] == 0xffff && groups[6] == Parsed(high) && groups[7] == Parsed(low);
  }

  lemma FourFs()
    ensures Parsed("ffff") == 0xffff
  {
    assert "ffff"[..3] == "fff" && "fff"[..2] == "ff" && "ff"[..1] == "f" && "f"[..0] == "";
    assert Parsed("f") == 15;
    assert Parsed("ff") == 255;
    assert Parsed("fff") == 4095;
  }

  // ---- Exactly which texts are accepted ----

  /** The forms of section 2.2 of RFC 4291, in lower case. */
  datatype Form =
    | Full(chunks: seq<string>)
    | Compressed(head: seq<string>, tail: seq<string>)
    | Mapped(o0: string, o1: string, o2: string, o3: string)

  predicate FormOk(f: Form) {
    match f
    case Full(chunks) => AreChunks(chunks) && |chunks| == 8
    case Compressed(head, tail) => AreChunks(head) && AreChunks(tail) && |head| + |tail| <= 7
    case Mapped(o0, o1, o2, o3) => IsOctet(o0) && IsOctet(o1) && IsOctet(o2) && IsOctet(o3)
  }

  function TextOf(f: Form): string {
    match f
    case Full(chunks) => Join(chunks, ':')
    case Compressed(head, tail) => Join(head, ':') + ("::" + Join(tail, ':'))
    case Mapped(o0, o1, o2, o3) => "::ffff:" + Dotted(o0, o1, o2, o3)
  }

  function GroupsOf(f: Form): seq<nat>
    requires FormOk(f)
  {
    match f
    case Full(chunks) => Values(chunks)
    case Compressed(head, tail) => Values(head) + Zeros(8 - |head| - |tail|) + Values(tail)
    case Mapped(o0, o1, o2, o3) => MappedGroups(Ipv4(Decimal(o0), Decimal(o1), Decimal(o2), Decimal(o3)))
  }

  ghost predicate Writes(f: Form, bare: string, groups: seq<nat>) {
    FormOk(f) && TextOf(f) == bare && GroupsOf(f) == groups
  }

  /** Every well-formed text expands to its groups. */
  lemma FormExpands(f: Form)
    requires FormOk(f)
    ensures ExpandBare(TextOf(f)) == Some(GroupsOf(f))
  {
    match f
    case Full(chunks) => FullExpands(chunks);
    case Compressed(head, tail) => CompressedExpands(head, tail, TextOf(f));
    case Mapped(o0, o1, o2, o3) => DottedExpands(Dotted(o0, o1, o2, o3), o0, o1, o2, o3);
  }

  /** The pieces between double colons, with double colons between them, are the text. */
  function JoinHalves(halves: seq<string>): string {
    if halves == [] then "" else if |halves| == 1 then halves[0] else halves[0] + ("::" + JoinHalves(halves[1..]))
  }

  lemma HalvesPush(c: char, rest: seq<string>)
    requires rest != []
    ensures JoinHalves([[c] + rest[0]] + rest[1..]) == [c] + JoinHalves(rest)
  {
    assert ([[c] + rest[0]] + rest[1..])[1..] == rest[1..];
  }

  lemma {:induction false} HalvesJoin(s: string)
    ensures JoinHalves(Halves(s)) == s
    decreases |s|
  {
    if |s| >= 2 {
      if s[0] == ':' && s[1] == ':' {
        HalvesJoin(s[2..]);
        assert ([""] + Halves(s[2..]))[1..] == Halves(s[2..]);
        assert s == "::" + s[2..];
      } else {
        hide JoinHalves;
        HalvesJoin(s[1..]);
        HalvesPush(s[0], Halves(s[1..]));
        assert s == [s[0]] + s[1..];
      }
    }
  }

  /** A side that reads is made of chunks with colons between them. */
  lemma SideChunks(side: string) returns (chunks: seq<string>)
    requires SideOf(side).Some?
    ensures AreChunks(chunks) && side == Join(chunks, ':') && SideOf(side).value == Values(chunks)
  {
    if side == "" {
      chunks := [];
    } else {
      chunks := Split(side, ':');
      SplitJoins(side, ':');
    }
  }

  lemma QuadParts(host: string) returns (f: Form)
    requires QuadOf(host).Some?
    ensures f.Mapped? && FormOk(f) && host == Dotted(f.o0, f.o1, f.o2, f.o3)
    ensures QuadOf(host).value == Ipv4(Decimal(f.o0), Decimal(f.o1), Decimal(f.o2), Decimal(f.o3))
  {
    var parts := Split(host, '.');
    SplitJoins(host, '.');
    f := Mapped(parts[0], parts[1], parts[2], parts[3]);
    assert parts == [parts[0], parts[1], parts[2], parts[3]];
  }

  lemma MappedForm(bare: string) returns (f: Form)
    requires MAPPED <= bare && LooksDotted(bare[7..]) && ExpandBare(bare).Some?
    ensures Writes(f, bare, ExpandBare(bare).value)
  {
    f := QuadParts(bare[7..]);
    assert bare == MAPPED + bare[7..];
  }

  lemma PlainForm(bare: string) returns (f: Form)
    requires !(MAPPED <= bare && LooksDotted(bare[7..])) && ExpandBare(bare).Some?
    ensures Writes(f, bare, ExpandBare(bare).value)
  {
    var halves := Halves(bare);
    HalvesJoin(bare);
    var head := SideChunks(halves[0]);
    if |halves| == 1 {
      f := Full(head);
    } else {
      var tail := SideChunks(halves[1]);
      assert halves[1..] == [halves[1]];
      f := Compressed(head, tail);
    }
  }

  lemma SomeForm(bare: string) returns (f: Form)
    requires ExpandBare(bare).Some?
    ensures Writes(f, bare, ExpandBare(bare).value)
  {
    if MAPPED <= bare && LooksDotted(bare[7..]) {
      f := MappedForm(bare);
    } else {
      f := PlainForm(bare);
    }
  }

  /**
   * An address is accepted, with these groups, exactly when what stands before its zone is,
   * in either case, eight groups, groups around one double colon that leaves out at least
   * one, or a mapped address in dotted form, and these are its groups.
   */
  lemma AcceptedExactly(host: string, groups: seq<nat>)
    ensures Expanded(host) == Some(groups) <==>
            exists f :: FormOk(f) && Spells(WithoutZone(host), TextOf(f)) && GroupsOf(f) == groups
  {
    var bare := Lower(WithoutZone(host));
    forall f | FormOk(f)
      ensures Spells(WithoutZone(host), TextOf(f)) <==> TextOf(f) == bare
    {
      TextPlain(f);
      SpellsLower(WithoutZone(host), TextOf(f));
    }
    if ExpandBare(bare) == Some(groups) {
      var f := SomeForm(bare);
    }
    if f :| FormOk(f) && Spells(WithoutZone(host), TextOf(f)) && GroupsOf(f) == groups {
      FormExpands(f);
    }
  }

  /** The same text, but that letters may be upper case. */
  predicate Spells(text: string, lower: string) {
    && |text| == |lower|
    && forall i :: 0 <= i < |text| ==>
         text[i] == lower[i] || ('a' <= lower[i] <= 'z' && (text[i] as int) + 32 == lower[i] as int)
  }

  lemma SpellsLower(text: string, lower: string)
    requires forall c :: 'A' <= c <= 'Z' ==> c !in lower
    ensures Spells(text, lower) <==> lower == Lower(text)
  {
    assert forall i :: 0 <= i < |lower| ==> lower[i] in lower;
    if lower == Lower(text) {
      forall i | 0 <= i < |text|
        ensures text[i] == lower[i] || ('a' <= lower[i] <= 'z' && (text[i] as int) + 32 == lower[i] as int)
      {
        assert lower[i] == Lower(text)[i];
      }
    }
  }

  /** Any spelling of a well-formed text, in either case and with any zone behind it, expands to its groups. */
  lemma HostExpands(f: Form, text: string, zone: string)
    requires FormOk(f) && Spells(text, TextOf(f)) && (zone == "" || zone[0] == '%')
    ensures Expanded(text + zone) == Some(GroupsOf(f))
  {
    TextPlain(f);
    SpellsLower(text, TextOf(f));
    forall i | 0 <= i < |text|
      ensures text[i] != '%'
    {
      assert Lower(text)[i] == TextOf(f)[i];
    }
    if zone == "" {
      assert text + zone == text;
      SplitPlain(text, '%');
    } else {
      assert zone == ['%'] + zone[1..];
      ZoneIgnored(text, zone[1..]);
    }
    FormExpands(f);
  }

  lemma {:induction false} JoinPlain(parts: seq<string>, at: char, c: char)
    requires c != at && forall p :: p in parts ==> c !in p
    ensures c !in Join(parts, at)
  {
    if |parts| > 1 {
      JoinPlain(parts[1..], at, c);
    }
  }

  lemma TextWithout(f: Form, c: char)
    requires FormOk(f) && (c == '%' || 'A' <= c <= 'Z')
    ensures c !in TextOf(f)
  {
    match f
    case Full(chunks) => JoinPlain(chunks, ':', c);
    case Compressed(head, tail) =>
      JoinPlain(head, ':', c);
      JoinPlain(tail, ':', c);
    case Mapped(o0, o1, o2, o3) => JoinPlain([o0, o1, o2, o3], '.', c);
  }

  lemma TextPlain(f: Form)
    requires FormOk(f)
    ensures '%' !in TextOf(f) && forall c :: 'A' <= c <= 'Z' ==> c !in TextOf(f)
  {
    TextWithout(f, '%');
    forall c | 'A' <= c <= 'Z'
      ensures c !in TextOf(f)
    {
      TextWithout(f, c);
    }
  }

  /** Both ways of writing a mapped address, with dots and with hexadecimal digits, expand to the same groups. */
  lemma MappedExpands(dotted: string, hex: string, zone: string, o0: string, o1: string, o2: string, o3: string,
          high: string, low: string)
    requires IsOctet(o0) && IsOctet(o1) && IsOctet(o2) && IsOctet(o3) && IsChunk(high) && IsChunk(low)
    requires zone == "" || zone[0] == '%'
    requires Parsed(high) == Decimal(o0) * 256 + Decimal(o1) && Parsed(low) == Decimal(o2) * 256 + Decimal(o3)
    requires Spells(dotted, TextOf(Mapped(o0, o1, o2, o3)))
    requires Spells(hex, TextOf(Compressed([], ["ffff", high, low])))
    ensures var groups := Some(MappedGroups(Ipv4(Decimal(o0), Decimal(o1), Decimal(o2), Decimal(o3))));
            Expanded(dotted + zone) == groups && Expanded(hex + zone) == groups
  {
    hide WithoutZone;
    hide Decimal;
    hide HexValue;
    hide Join;
    HostExpands(Mapped(o0, o1, o2, o3), dotted, zone);
    assert AreChunks(["ffff", high, low]);
    HostExpands(Compressed([], ["ffff", high, low]), hex, zone);
    HexGroups(high, low, Ipv4(Decimal(o0), Decimal(o1), Decimal(o2), Decimal(o3)));
  }

  // ---- Private addresses ----

  predicate IsPrivateIpv4(q: Ipv4) {
    || q.a == 127 || q.a == 10
    || (q.a == 172 && 16 <= q.b <= 31)
    || (q.a == 192 && q.b == 168)
    || (q.a == 169 && q.b == 254)
  }

  /** The address as one number. */
  function Number(q: Ipv4): nat {
    ((q.a * 256 + q.b) * 256 + q.c) * 256 + q.d
  }

  /** Private are 127.0.0.0/8, 10.0.0.0/8, 172.16.0.0/12, 192.168.0.0/16 and 169.254.0.0/16. */
  lemma PrivateNetworks(q: Ipv4)
    requires q.a < 256 && q.b < 256 && q.c < 256 && q.d < 256
    ensures IsPrivateIpv4(q) <==>
            || Number(q) / 0x1000000 == 0x7f || Number(q) / 0x1000000 == 0x0a
            || Number(q) / 0x100000 == 0xac1 || Number(q) / 0x10000 == 0xc0a8 || Number(q) / 0x10000 == 0xa9fe
  {
  }

  /**
   * Masking off the low 6 bits (0xffc0), the low 9 bits (0xfe00) or one byte of a group is a
   * division here. The mapped test looks at groups 0, 1, 4 and 5 only.
   */
  predicate IsPrivateIpv6(groups: seq<nat>) {
    && |groups| == 8
    && (|| (groups[7] == 1 && forall i :: 0 <= i < 7 ==> groups[i] == 0)
        || groups[0] / 64 == 0xfe80 / 64
        || groups[0] / 512 == 0xfc00 / 512
        || (groups[0] == 0 && groups[1] == 0 && groups[4] == 0 && groups[5] == 0xffff
            && IsPrivateIpv4(Embedded(groups))))
  }

  /** The IPv4 address in the last two groups. */
  function Embedded(groups: seq<nat>): Ipv4
    requires |groups| == 8
  {
    Ipv4(groups[6] / 256, groups[6] % 256, groups[7] / 256, groups[7] % 256)
  }

  /** A mapped address has 80 zero bits and 16 one bits before the IPv4 address (section 2.5.5.2 of RFC 4291). */
  predicate IsMapped(groups: seq<nat>) {
    |groups| == 8 && (forall i :: 0 <= i < 5 ==> groups[i] == 0) && groups[5] == 0xffff
  }

  /** Loopback, link-local, unique-local, or a mapped address that maps a private one. */
  predicate ShouldBePrivate(groups: seq<nat>) {
    && |groups| == 8
    && (|| groups == [0, 0, 0, 0, 0, 0, 0, 1]
        || 0xfe80 <= groups[0] <= 0xfebf
        || 0xfc00 <= groups[0] <= 0xfdff
        || (IsMapped(groups) && IsPrivateIpv4(Embedded(groups))))
  }

  /** An address is classed private exactly when it should be, or looks mapped but for groups 2 and 3. */
  lemma PrivateExactly(groups: seq<nat>)
    requires |groups| == 8
    ensures IsPrivateIpv6(groups) <==>
            || ShouldBePrivate(groups)
            || ((groups[2] != 0 || groups[3] != 0) && IsMapped(groups[2 := 0][3 := 0])
                && IsPrivateIpv4(Embedded(groups)))
  {
    Ranges(groups[0]);
    var cleared := groups[2 := 0][3 := 0];
    assert cleared[0] == groups[0] && cleared[1] == groups[1] && cleared[2] == 0 && cleared[3] == 0;
    assert cleared[4] == groups[4] && cleared[5] == groups[5];
    assert IsMapped(cleared) <==> groups[0] == 0 && groups[1] == 0 && groups[4] == 0 && groups[5] == 0xffff;
    assert groups == [0, 0, 0, 0, 0, 0, 0, 1] <==> groups[7] == 1 && forall i :: 0 <= i < 7 ==> groups[i] == 0;
  }

  lemma Ranges(g: nat)
    ensures g / 64 == 0xfe80 / 64 <==> 0xfe80 <= g <= 0xfebf
    ensures g / 512 == 0xfc00 / 512 <==> 0xfc00 <= g <= 0xfdff
  {
  }

  const LOOSE_CHUNKS := ["0", "0", "1", "1", "0", "ffff", "7f00", "1"]
  const LOOSE_GROUPS: seq<nat> := [0, 0, 1, 1, 0, 0xffff, 0x7f00, 1]

  lemma LooseValues()
    ensures AreChunks(LOOSE_CHUNKS) && Values(LOOSE_CHUNKS) == LOOSE_GROUPS
  {
    FourFs();
    SevenF();
    assert "0"[..0] == "" && "1"[..0] == "";
    assert Parsed("0") == 0 && Parsed("1") == 1;
  }

  lemma SevenF()
    ensures Parsed("7f00") == 0x7f00
  {
    assert "7f00"[..3] == "7f0" && "7f0"[..2] == "7f" && "7f"[..1] == "7" && "7"[..0] == "";
    assert Parsed("7") == 7;
    assert Parsed("7f") == 127;
    assert Parsed("7f0") == 2032;
  }

  lemma JoinCons(part: string, rest: seq<string>, at: char)
    requires rest != []
    ensures Join([part] + rest, at) == part + [at] + Join(rest, at)
  {
    assert ([part] + rest)[1..] == rest;
  }

  lemma LooseTail()
    ensures Join(["0", "ffff", "7f00", "1"], ':') == "0:ffff:7f00:1"
  {
    JoinCons("7f00", ["1"], ':');
    JoinCons("ffff", ["7f00", "1"], ':');
    JoinCons("0", ["ffff", "7f00", "1"], ':');
  }

  lemma LooseMiddle()
    ensures Join(["1", "1"] + ["0", "ffff", "7f00", "1"], ':') == "1:1:0:ffff:7f00:1"
  {
    var tail := ["0", "ffff", "7f00", "1"];
    LooseTail();
    JoinCons("1", tail, ':');
    JoinCons("1", ["1"] + tail, ':');
    assert ["1"] + (["1"] + tail) == ["1", "1"] + tail;
  }

  lemma LooseText()
    ensures Join(LOOSE_CHUNKS, ':') == "0:0:1:1:0:ffff:7f00:1"
  {
    hide Join;
    var middle := ["1", "1"] + ["0", "ffff", "7f00", "1"];
    LooseMiddle();
    JoinCons("0", middle, ':');
    JoinCons("0", ["0"] + middle, ':');
    assert LOOSE_CHUNKS == ["0"] + (["0"] + middle);
  }

  /** A text without upper-case letters and without a zone is taken as it is. */
  lemma PlainHost(f: Form, text: string)
    requires FormOk(f) && TextOf(f) == text && forall c :: c in text ==> !('A' <= c <= 'Z')
    ensures Expanded(text) == Some(GroupsOf(f))
  {
    HostExpands(f, text, "");
    assert text + "" == text;
  }

  lemma LooseLower(text: string)
    requires text == "0:0:1:1:0:ffff:7f00:1"
    ensures forall c :: c in text ==> !('A' <= c <= 'Z')
  {
  }

  /** Such an address: 0:0:1:1:0:ffff:7f00:1 is no mapped address, and is classed private. */
  lemma LooselyMapped(text: string)
    requires text == "0:0:1:1:0:ffff:7f00:1"
    ensures Expanded(text) == Some(LOOSE_GROUPS)
    ensures IsPrivateIpv6(LOOSE_GROUPS) && !ShouldBePrivate(LOOSE_GROUPS)
  {
    LooseValues();
    LooseText();
    LooseLower(text);
    LoosePrivate();
    PlainHost(Full(LOOSE_CHUNKS), text);
  }

  lemma LoosePrivate()
    ensures IsPrivateIpv6(LOOSE_GROUPS) && !ShouldBePrivate(LOOSE_GROUPS)
  {
    assert LOOSE_GROUPS[2] == 1 && LOOSE_GROUPS[6] / 256 == 127;
    assert Embedded(LOOSE_GROUPS).a == 127;
  }

  /** A mapped address, however it is written, is private exactly when the address it maps is. */
  lemma MappedPrivate(host: string, q: Ipv4)
    requires Expanded(host) == Some(MappedGroups(q)) && q.b < 256 && q.d < 256
    ensures IsPrivateIpv6(Expanded(host).value) <==> IsPrivateIpv4(q)
  {
    MappedGroupsPrivate(q);
  }

  lemma MappedGroupsPrivate(q: Ipv4)
    requires q.b < 256 && q.d < 256
    ensures IsPrivateIpv6(MappedGroups(q)) <==> IsPrivateIpv4(q)
  {
    var g := MappedGroups(q);
    TwoOctets(q.a, q.b);
    TwoOctets(q.c, q.d);
    assert g[0] == 0 && g[1] == 0 && g[4] == 0 && g[5] == 0xffff && g[6] == q.a * 256 + q.b && g[7] == q.c * 256 + q.d;
    assert g[0] / 64 == 0 && 0xfe80 / 64 == 1018 && g[0] / 512 == 0 && 0xfc00 / 512 == 126;
    assert Ipv4(g[6] / 256, g[6] % 256, g[7] / 256, g[7] % 256) == q;
  }

  /** The address embedded in a mapped one is the one it maps. */
  lemma EmbeddedIs(q: Ipv4)
    requires q.b < 256 && q.d < 256
    ensures Embedded(MappedGroups(q)) == q
  {
    TwoOctets(q.a, q.b);
    TwoOctets(q.c, q.d);
  }

  lemma TwoOctets(a: nat, b: nat)
    requires b < 256
    ensures (a * 256 + b) / 256 == a && (a * 256 + b) % 256 == b
  {
  }
}
