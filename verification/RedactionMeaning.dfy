/**
 * What redaction does, byte for byte: the rules that decide it, in terms of the bytes of the
 * input alone, and that they decide it completely.
 */
module RedactionMeaning {
  import opened Bytes
  import opened RedactionReference
  import opened RedactionStream
  import opened RedactionProof
  import opened RedactionTurns

  /** `[REDACTED]` */
  const REDACTED: seq<Byte> := [0x5b, 0x52, 0x45, 0x44, 0x41, 0x43, 0x54, 0x45, 0x44, 0x5d]

  /** `--password=`, `--token=`, `--api-key=` and `authorization: ` */
  const PASSWORD_BYTES: seq<Byte> := [0x2d, 0x2d, 0x70, 0x61, 0x73, 0x73, 0x77, 0x6f, 0x72, 0x64, 0x3d]
  const TOKEN_BYTES: seq<Byte> := [0x2d, 0x2d, 0x74, 0x6f, 0x6b, 0x65, 0x6e, 0x3d]
  const API_KEY_BYTES: seq<Byte> := [0x2d, 0x2d, 0x61, 0x70, 0x69, 0x2d, 0x6b, 0x65, 0x79, 0x3d]
  const AUTHORIZATION_BYTES: seq<Byte> :=
    [0x61, 0x75, 0x74, 0x68, 0x6f, 0x72, 0x69, 0x7a, 0x61, 0x74, 0x69, 0x6f, 0x6e, 0x3a, 0x20]

  /** The same bytes, but that letters may be upper case. */
  predicate Spells(s: seq<Byte>, lower: seq<Byte>) {
    && |s| == |lower|
    && forall i :: 0 <= i < |s| ==> s[i] == lower[i] || (0x61 <= lower[i] <= 0x7a && s[i] == lower[i] - 0x20)
  }

  /** One of the four credential prefixes, in any case. */
  predicate IsCredential(s: seq<Byte>) {
    Spells(s, PASSWORD_BYTES) || Spells(s, TOKEN_BYTES) || Spells(s, API_KEY_BYTES) || Spells(s, AUTHORIZATION_BYTES)
  }

  /** Space, tab, carriage return, line feed or NUL. */
  const BREAKS: set<Byte> := {0x20, 0x09, 0x0d, 0x0a, 0x00}

  /** Double and single quote. */
  const QUOTES: set<Byte> := {0x22, 0x27}

  predicate Free(value: seq<Byte>, bytes: set<Byte>) {
    forall b :: b in value ==> b !in bytes
  }

  /** What stands at the front of the input, and how its parts are written. */
  datatype Front =
    | QuotedValue(prefix: seq<Byte>, quote: Byte, value: seq<Byte>)      // and its closing quote
    | OpenValue(prefix: seq<Byte>, quote: Byte, value: seq<Byte>)        // to the end of the input
    | PlainValue(prefix: seq<Byte>, value: seq<Byte>, end: Byte)         // and the byte that ends it
    | LastValue(prefix: seq<Byte>, value: seq<Byte>)                     // to the end of the input
    | SecretBytes(secret: seq<Byte>)
    | OtherByte(byte: Byte)

  predicate Unquoted(value: seq<Byte>) {
    Free(value, BREAKS) && (value != [] ==> value[0] !in QUOTES)
  }

  function TextOf(f: Front): seq<Byte> {
    match f
    case QuotedValue(prefix, quote, value) => prefix + [quote] + value + [quote]
    case OpenValue(prefix, quote, value) => prefix + [quote] + value
    case PlainValue(prefix, value, end) => prefix + value + [end]
    case LastValue(prefix, value) => prefix + value
    case SecretBytes(secret) => secret
    case OtherByte(byte) => [byte]
  }

  /** What comes out for it. */
  function Replaced(f: Front): seq<Byte> {
    match f
    case QuotedValue(prefix, quote, _) => prefix + [quote] + REDACTED + [quote]
    case OpenValue(prefix, quote, _) => prefix + [quote] + REDACTED
    case PlainValue(prefix, _, end) => prefix + REDACTED + [end]
    case LastValue(prefix, _) => prefix + REDACTED
    case SecretBytes(_) => REDACTED
    case OtherByte(byte) => [byte]
  }

  /** Whether it holds a value of more than 65,536 bytes. */
  predicate Oversize(f: Front) {
    (f.QuotedValue? || f.OpenValue? || f.PlainValue? || f.LastValue?) && |f.value| > 65536
  }

  ghost predicate NoCredentialAt(s: seq<Byte>) {
    forall n :: 0 <= n <= |s| ==> !IsCredential(s[..n])
  }

  /** When a front is what the input begins with. */
  ghost predicate Fronts(secrets: seq<seq<Byte>>, s: seq<Byte>, f: Front) {
    && TextOf(f) <= s
    && match f
       case QuotedValue(prefix, quote, value) => IsCredential(prefix) && quote in QUOTES && quote !in value
       case OpenValue(prefix, quote, value) =>
         IsCredential(prefix) && quote in QUOTES && quote !in value && s == TextOf(f)
       case PlainValue(prefix, value, end) => IsCredential(prefix) && Unquoted(value) && end in BREAKS
       case LastValue(prefix, value) => IsCredential(prefix) && Unquoted(value) && s == TextOf(f)
       case SecretBytes(secret) =>
         && NoCredentialAt(s) && secret in secrets && secret != []
         && forall x :: x in secrets && x <= s ==> |x| <= |secret|
       case OtherByte(_) => NoCredentialAt(s) && forall x :: x in secrets && x <= s ==> x == []
  }

  /** `out` is the redaction of `s`: front by front, replaced. */
  ghost predicate Redacts(secrets: seq<seq<Byte>>, s: seq<Byte>, out: Outcome)
    decreases |s|
  {
    if s == [] then out == Outcome([], false)
    else
      exists f, rest ::
        && Fronts(secrets, s, f) && 0 < |TextOf(f)| <= |s| && Redacts(secrets, s[|TextOf(f)|..], rest)
        && out == Outcome(Replaced(f) + rest.bytes, Oversize(f) || rest.oversize)
  }

  // ---- The definitions behind the reference, byte for byte ----

  lemma MarkBytes()
    ensures MARK == REDACTED
  {
  }

  lemma PasswordBytes()
    ensures PASSWORD == PASSWORD_BYTES
  {
  }

  lemma TokenBytes()
    ensures TOKEN == TOKEN_BYTES
  {
  }

  lemma ApiKeyBytes()
    ensures API_KEY == API_KEY_BYTES
  {
  }

  lemma AuthorizationBytes()
    ensures AUTHORIZATION == AUTHORIZATION_BYTES
  {
  }

  lemma FoldSpells(s: seq<Byte>, lower: seq<Byte>)
    requires forall i :: 0 <= i < |lower| ==> !(0x41 <= lower[i] <= 0x5a)
    ensures StartsWithFold(s, lower) <==> |lower| <= |s| && Spells(s[..|lower|], lower)
  {
    if |lower| <= |s| {
      forall i | 0 <= i < |lower|
        ensures Lower(s[i]) == lower[i] <==>
                s[i] == lower[i] || (0x61 <= lower[i] <= 0x7a && s[i] == lower[i] - 0x20)
      {
      }
    }
  }

  lemma PrefixesFold(s: seq<Byte>)
    ensures StartsWithFold(s, PASSWORD) <==> 11 <= |s| && Spells(s[..11], PASSWORD_BYTES)
    ensures StartsWithFold(s, TOKEN) <==> 8 <= |s| && Spells(s[..8], TOKEN_BYTES)
    ensures StartsWithFold(s, API_KEY) <==> 10 <= |s| && Spells(s[..10], API_KEY_BYTES)
    ensures StartsWithFold(s, AUTHORIZATION) <==> 15 <= |s| && Spells(s[..15], AUTHORIZATION_BYTES)
  {
    PasswordBytes();
    TokenBytes();
    ApiKeyBytes();
    AuthorizationBytes();
    FoldSpells(s, PASSWORD_BYTES);
    FoldSpells(s, TOKEN_BYTES);
    FoldSpells(s, API_KEY_BYTES);
    FoldSpells(s, AUTHORIZATION_BYTES);
  }

  /** The length found at the start is that of a credential prefix in any case, and 0 when there is none. */
  lemma CredentialAt(s: seq<Byte>)
    ensures CredentialLength(s) > 0 ==> IsCredential(s[..CredentialLength(s)])
    ensures CredentialLength(s) == 0 ==> NoCredentialAt(s)
  {
    hide Spells, StartsWithFold, CredentialLength;
    FourPrefixes(s);
    PrefixesFold(s);
    PasswordBytes();
    TokenBytes();
    ApiKeyBytes();
    AuthorizationBytes();
    if CredentialLength(s) == 0 {
      forall n | 0 <= n <= |s|
        ensures !IsCredential(s[..n])
      {
        SpelledLength(s[..n]);
      }
    }
  }

  /** The four prefixes have these lengths. */
  lemma SpelledLength(c: seq<Byte>)
    ensures Spells(c, PASSWORD_BYTES) ==> |c| == 11
    ensures Spells(c, TOKEN_BYTES) ==> |c| == 8
    ensures Spells(c, API_KEY_BYTES) ==> |c| == 10
    ensures Spells(c, AUTHORIZATION_BYTES) ==> |c| == 15
  {
  }

  /** Input that begins with a credential prefix is found to. */
  lemma CredentialFound(c: seq<Byte>, more: seq<Byte>)
    requires IsCredential(c)
    ensures CredentialLength(c + more) == |c| > 0
  {
    hide Spells, StartsWithFold, CredentialLength;
    var s := c + more;
    assert s[..|c|] == c;
    SpelledLength(c);
    PrefixesFold(s);
    PasswordBytes();
    TokenBytes();
    ApiKeyBytes();
    AuthorizationBytes();
    FourPrefixes(s);
    if Spells(c, PASSWORD_BYTES) {
      CredentialIs(s, PASSWORD);
    } else if Spells(c, TOKEN_BYTES) {
      CredentialIs(s, TOKEN);
    } else if Spells(c, API_KEY_BYTES) {
      CredentialIs(s, API_KEY);
    } else {
      CredentialIs(s, AUTHORIZATION);
    }
  }

  // ---- Every front is what the reference takes first ----

  /** The first piece of a credential whose value ends, cut where the reference cuts it. */
  lemma EndedPiece(s: seq<Byte>, p: nat, before: seq<Byte>, value: seq<Byte>, end: Byte, rest: seq<Byte>)
    requires 0 < p < |s| && s == before + (value + ([end] + rest)) && ValueStart(s, p) == |before|
    requires ValueLength(ValueMode(s, p), value + ([end] + rest)) == |value|
    ensures CredentialPiece(s, p) == Piece(before + REDACTED + [end], |before| + |value| + 1, |value| > 65536)
  {
    hide ValueStart, ValueMode, ValueLength;
    MarkBytes();
    assert s[|before|..] == value + ([end] + rest) && s[..|before|] == before && s[|before| + |value|] == end;
  }

  lemma UnendedPiece(s: seq<Byte>, p: nat, before: seq<Byte>, value: seq<Byte>)
    requires 0 < p < |s| && s == before + value && ValueStart(s, p) == |before|
    requires ValueLength(ValueMode(s, p), value) == |value|
    ensures CredentialPiece(s, p) == Piece(before + REDACTED, |s|, |value| > 65536)
  {
    hide ValueStart, ValueMode, ValueLength;
    MarkBytes();
    assert s[|before|..] == value && s[..|before|] == before;
  }

  lemma QuotedFirst(prefix: seq<Byte>, quote: Byte, value: seq<Byte>, rest: seq<Byte>)
    requires prefix != [] && quote in QUOTES && quote !in value
    ensures var s := prefix + [quote] + value + [quote] + rest;
            CredentialPiece(s, |prefix|) ==
            Piece(prefix + [quote] + REDACTED + [quote], |prefix| + |value| + 2, |value| > 65536)
  {
    hide CredentialPiece, ValueLength;
    var s, p := prefix + [quote] + value + [quote] + rest, |prefix|;
    assert s == (prefix + [quote]) + (value + ([quote] + rest)) && s[p] == quote;
    ValueEnds(Quoted(quote), value, quote, rest);
    EndedPiece(s, p, prefix + [quote], value, quote, rest);
  }

  lemma OpenFirst(prefix: seq<Byte>, quote: Byte, value: seq<Byte>)
    requires prefix != [] && quote in QUOTES && quote !in value
    ensures var s := prefix + [quote] + value;
            CredentialPiece(s, |prefix|) == Piece(prefix + [quote] + REDACTED, |s|, |value| > 65536)
  {
    hide CredentialPiece, ValueLength;
    var s, p := prefix + [quote] + value, |prefix|;
    assert s[p] == quote;
    ValueLasts(Quoted(quote), value);
    UnendedPiece(s, p, prefix + [quote], value);
  }

  lemma PlainFirst(prefix: seq<Byte>, value: seq<Byte>, end: Byte, rest: seq<Byte>)
    requires prefix != [] && Unquoted(value) && end in BREAKS
    ensures var s := prefix + value + [end] + rest;
            CredentialPiece(s, |prefix|) ==
            Piece(prefix + REDACTED + [end], |prefix| + |value| + 1, |value| > 65536)
  {
    hide CredentialPiece, ValueLength;
    var s, p := prefix + value + [end] + rest, |prefix|;
    assert s == prefix + (value + ([end] + rest)) && s[p] == (if value == [] then end else value[0]);
    ValueEnds(RedactionReference.Unquoted, value, end, rest);
    EndedPiece(s, p, prefix, value, end, rest);
  }

  lemma LastFirst(prefix: seq<Byte>, value: seq<Byte>)
    requires prefix != [] && Unquoted(value)
    ensures var s := prefix + value; CredentialPiece(s, |prefix|) == Piece(prefix + REDACTED, |s|, |value| > 65536)
  {
    hide ValueLength;
    var s, p := prefix + value, |prefix|;
    if value == [] {
      MarkBytes();
      assert s == prefix;
    } else {
      hide CredentialPiece;
      assert s[p] == value[0];
      ValueLasts(RedactionReference.Unquoted, value);
      UnendedPiece(s, p, prefix, value);
    }
  }

  lemma ValueEnds(mode: Mode, value: seq<Byte>, end: Byte, rest: seq<Byte>)
    requires Ends(mode, end) && forall b :: b in value ==> !Ends(mode, b)
    ensures ValueLength(mode, value + ([end] + rest)) == |value|
  {
    var s := value + ([end] + rest);
    assert forall i :: 0 <= i < |value| ==> s[i] in value;
    ValueLengthIs(mode, s, |value|);
  }

  lemma ValueLasts(mode: Mode, value: seq<Byte>)
    requires forall b :: b in value ==> !Ends(mode, b)
    ensures ValueLength(mode, value) == |value|
  {
    assert forall i :: 0 <= i < |value| ==> value[i] in value;
    ValueLengthIs(mode, value, |value|);
  }

  /** A front decides the first piece. */
  lemma FrontFirst(secrets: seq<seq<Byte>>, s: seq<Byte>, f: Front)
    requires s != [] && Fronts(secrets, s, f)
    ensures FirstPiece(secrets, s) == Piece(Replaced(f), |TextOf(f)|, Oversize(f))
  {
    hide IsCredential, CredentialPiece, CredentialLength;
    if f.SecretBytes? || f.OtherByte? {
      hide FirstMatch;
      CredentialAt(s);
      LongestSecretIsGreatest(secrets, s);
      MarkBytes();
      assert s[..LongestSecret(secrets, s)] <= s;
    } else {
      assert s == f.prefix + s[|f.prefix|..];
      CredentialFound(f.prefix, s[|f.prefix|..]);
      CredentialFrontFirst(secrets, s, f);
    }
  }

  lemma CredentialFrontFirst(secrets: seq<seq<Byte>>, s: seq<Byte>, f: Front)
    requires !f.SecretBytes? && !f.OtherByte? && f.prefix != [] && Fronts(secrets, s, f)
    ensures CredentialPiece(s, |f.prefix|) == Piece(Replaced(f), |TextOf(f)|, Oversize(f))
  {
    hide IsCredential, CredentialPiece, NoCredentialAt, Unquoted;
    var rest := s[|TextOf(f)|..];
    assert s == TextOf(f) + rest;
    match f
    case QuotedValue(prefix, quote, value) =>
      QuotedFirst(prefix, quote, value, rest);
    case OpenValue(prefix, quote, value) =>
      OpenFirst(prefix, quote, value);
    case PlainValue(prefix, value, end) =>
      PlainFirst(prefix, value, end, rest);
    case LastValue(prefix, value) =>
      LastFirst(prefix, value);
  }

  /** Every input begins with one of the fronts. */
  lemma SomeFront(secrets: seq<seq<Byte>>, s: seq<Byte>) returns (f: Front)
    requires s != []
    ensures Fronts(secrets, s, f) && 0 < |TextOf(f)| <= |s|
  {
    hide IsCredential, NoCredentialAt;
    CredentialAt(s);
    var p := CredentialLength(s);
    if p > 0 {
      f := CredentialFront(secrets, s, p);
    } else {
      LongestSecretIsGreatest(secrets, s);
      var n := LongestSecret(secrets, s);
      f := if n > 0 then SecretBytes(s[..n]) else OtherByte(s[0]);
    }
  }

  lemma CredentialFront(secrets: seq<seq<Byte>>, s: seq<Byte>, p: nat) returns (f: Front)
    requires 0 < p <= |s| && IsCredential(s[..p])
    ensures Fronts(secrets, s, f) && 0 < |TextOf(f)| <= |s|
  {
    hide IsCredential, Fronts, TextOf, Unquoted;
    var prefix := s[..p];
    assert s == prefix + s[p..];
    if p < |s| && s[p] in QUOTES {
      assert s == prefix + [s[p]] + s[p + 1..];
      f := QuotedFront(secrets, prefix, s[p], s[p + 1..]);
    } else {
      f := PlainFront(secrets, prefix, s[p..]);
    }
  }

  lemma QuotedFront(secrets: seq<seq<Byte>>, prefix: seq<Byte>, quote: Byte, after: seq<Byte>) returns (f: Front)
    requires prefix != [] && IsCredential(prefix) && quote in QUOTES
    ensures var s := prefix + [quote] + after; Fronts(secrets, s, f) && 0 < |TextOf(f)| <= |s|
  {
    hide IsCredential, NoCredentialAt, Unquoted;
    var value, rest := Split(after, {quote});
    if rest == [] {
      f := OpenValue(prefix, quote, value);
      assert prefix + [quote] + after == TextOf(f);
    } else {
      f := QuotedValue(prefix, quote, value);
      assert prefix + [quote] + after == TextOf(f) + rest[1..];
    }
  }

  lemma PlainFront(secrets: seq<seq<Byte>>, prefix: seq<Byte>, after: seq<Byte>) returns (f: Front)
    requires prefix != [] && IsCredential(prefix) && (after != [] ==> after[0] !in QUOTES)
    ensures var s := prefix + after; Fronts(secrets, s, f) && 0 < |TextOf(f)| <= |s|
  {
    hide IsCredential, NoCredentialAt;
    var value, rest := Split(after, BREAKS);
    if rest == [] {
      f := LastValue(prefix, value);
      assert prefix + after == TextOf(f);
    } else {
      f := PlainValue(prefix, value, rest[0]);
      assert prefix + after == TextOf(f) + rest[1..];
    }
  }

  /** Everything before the first of the given bytes, and the rest from it on. */
  lemma {:induction false} Split(s: seq<Byte>, bytes: set<Byte>) returns (before: seq<Byte>, rest: seq<Byte>)
    ensures s == before + rest && Free(before, bytes) && (rest != [] ==> rest[0] in bytes)
  {
    if s == [] || s[0] in bytes {
      before, rest := [], s;
    } else {
      before, rest := Split(s[1..], bytes);
      before := [s[0]] + before;
    }
  }

  /** The reference is the redaction these rules describe, and the only one. */
  lemma {:induction false} ReferenceRedacts(secrets: seq<seq<Byte>>, s: seq<Byte>, out: Outcome)
    ensures Redacts(secrets, s, out) <==> out == Reference(secrets, s)
    decreases |s|
  {
    hide Fronts, TextOf, Replaced, Oversize;
    if s != [] {
      if Redacts(secrets, s, out) {
        var f, rest :| Fronts(secrets, s, f) && 0 < |TextOf(f)| <= |s| && Redacts(secrets, s[|TextOf(f)|..], rest)
                       && out == Outcome(Replaced(f) + rest.bytes, Oversize(f) || rest.oversize);
        FrontFirst(secrets, s, f);
        ReferenceRedacts(secrets, s[|TextOf(f)|..], rest);
        ReferenceIs(secrets, s, FirstPiece(secrets, s));
      } else {
        var f := SomeFront(secrets, s);
        FrontFirst(secrets, s, f);
        var rest := Reference(secrets, s[|TextOf(f)|..]);
        ReferenceRedacts(secrets, s[|TextOf(f)|..], rest);
        ReferenceIs(secrets, s, FirstPiece(secrets, s));
      }
    }
  }

  // ---- What that says of credentials ----

  /**
   * After a credential prefix in any case, a value between two equal quotes is replaced and the
   * quotes stay, whatever the value holds other than that quote.
   */
  lemma QuotedRedacted(secrets: seq<seq<Byte>>, prefix: seq<Byte>, quote: Byte, value: seq<Byte>, rest: seq<Byte>)
    requires IsCredential(prefix) && quote in {0x22, 0x27} && quote !in value
    ensures Reference(secrets, prefix + [quote] + value + [quote] + rest).bytes ==
            prefix + [quote] + REDACTED + [quote] + Reference(secrets, rest).bytes
  {
    hide IsCredential, FirstPiece;
    var f, s := QuotedValue(prefix, quote, value), prefix + [quote] + value + [quote] + rest;
    assert s == TextOf(f) + rest;
    FrontFirst(secrets, s, f);
    ReferenceIs(secrets, s, FirstPiece(secrets, s));
    assert s[|TextOf(f)|..] == rest;
  }

  /**
   * A value that does not begin with a quote is replaced up to the space, tab, carriage return,
   * line feed or NUL after it, and that byte stays.
   */
  lemma UnquotedRedacted(secrets: seq<seq<Byte>>, prefix: seq<Byte>, value: seq<Byte>, end: Byte, rest: seq<Byte>)
    requires IsCredential(prefix) && (value != [] ==> value[0] !in {0x22, 0x27})
    requires Free(value, {0x20, 0x09, 0x0d, 0x0a, 0x00}) && end in {0x20, 0x09, 0x0d, 0x0a, 0x00}
    ensures Reference(secrets, prefix + value + [end] + rest).bytes ==
            prefix + REDACTED + [end] + Reference(secrets, rest).bytes
  {
    hide IsCredential, FirstPiece;
    var f, s := PlainValue(prefix, value, end), prefix + value + [end] + rest;
    assert s == TextOf(f) + rest;
    FrontFirst(secrets, s, f);
    ReferenceIs(secrets, s, FirstPiece(secrets, s));
    assert s[|TextOf(f)|..] == rest;
  }

  /** The redactor's output is what the rules describe, wherever the reads are cut, and nothing else is. */
  lemma StreamRedacts(secrets: seq<seq<Byte>>, limit: nat, chunks: seq<seq<Byte>>, out: Outcome)
    requires ChunkSafe(secrets) && Usable(secrets) && limit <= 65546
    requires forall c :: c in chunks ==> |c| <= limit
    ensures Redacts(secrets, Flatten(chunks), out) <==> out == Stream(secrets, chunks)
  {
    hide ChunkSafe, Usable, Stream, Reference, IsCredential, Redacts;
    StreamIsReference(secrets, limit, chunks);
    ReferenceRedacts(secrets, Flatten(chunks), out);
  }

  lemma StreamHidesQuoted(secrets: seq<seq<Byte>>, limit: nat, chunks: seq<seq<Byte>>, more: seq<seq<Byte>>,
                          prefix: seq<Byte>, quote: Byte, value: seq<Byte>)
    requires ChunkSafe(secrets) && Usable(secrets) && limit <= 65546
    requires forall c :: c in chunks + more ==> |c| <= limit
    requires IsCredential(prefix) && quote in {0x22, 0x27} && quote !in value
    requires Flatten(chunks) == prefix + [quote] + value + [quote] + Flatten(more)
    ensures Stream(secrets, chunks).bytes == prefix + [quote] + REDACTED + [quote] + Stream(secrets, more).bytes
  {
    hide ChunkSafe, Usable, Stream, Reference, IsCredential, Redacts;
    assert forall c :: c in chunks || c in more ==> c in chunks + more;
    StreamIsReference(secrets, limit, chunks);
    StreamIsReference(secrets, limit, more);
    QuotedRedacted(secrets, prefix, quote, value, Flatten(more));
  }

  lemma StreamHidesUnquoted(secrets: seq<seq<Byte>>, limit: nat, chunks: seq<seq<Byte>>, more: seq<seq<Byte>>,
                            prefix: seq<Byte>, value: seq<Byte>, end: Byte)
    requires ChunkSafe(secrets) && Usable(secrets) && limit <= 65546
    requires forall c :: c in chunks + more ==> |c| <= limit
    requires IsCredential(prefix) && (value != [] ==> value[0] !in {0x22, 0x27})
    requires Free(value, {0x20, 0x09, 0x0d, 0x0a, 0x00}) && end in {0x20, 0x09, 0x0d, 0x0a, 0x00}
    requires Flatten(chunks) == prefix + value + [end] + Flatten(more)
    ensures Stream(secrets, chunks).bytes == prefix + REDACTED + [end] + Stream(secrets, more).bytes
  {
    hide ChunkSafe, Usable, Stream, Reference, IsCredential, Redacts;
    assert forall c :: c in chunks || c in more ==> c in chunks + more;
    StreamIsReference(secrets, limit, chunks);
    StreamIsReference(secrets, limit, more);
    UnquotedRedacted(secrets, prefix, value, end, Flatten(more));
  }
}
