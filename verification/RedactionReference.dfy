/**
 * What redaction means: one pass over the whole byte string, with no stash, no
 * discard mode and no limit on the length of a credential value.
 */
module RedactionReference {
  import opened Bytes

  const MAX_VALUE := 65536
  const MARK: seq<Byte> := Ascii("[REDACTED]")

  /** The credential prefixes, in lower case and in the order they are tried. */
  const PASSWORD: seq<Byte> := Ascii("--password=")
  const TOKEN: seq<Byte> := Ascii("--token=")
  const API_KEY: seq<Byte> := Ascii("--api-key=")
  const AUTHORIZATION: seq<Byte> := Ascii("authorization: ")
  const CREDENTIALS := [PASSWORD, TOKEN, API_KEY, AUTHORIZATION]

  function Lower(b: Byte): Byte {
    if 0x41 <= b <= 0x5a then b + 0x20 else b
  }

  /** `s` begins with `p`, ignoring the case of the letters of `s`. */
  predicate StartsWithFold(s: seq<Byte>, p: seq<Byte>) {
    |p| <= |s| && forall i :: 0 <= i < |p| ==> Lower(s[i]) == p[i]
  }

  /** `s` is a strictly shorter beginning of `p`, ignoring case. */
  predicate ProperPrefixFold(s: seq<Byte>, p: seq<Byte>) {
    |s| < |p| && forall i :: 0 <= i < |s| ==> Lower(s[i]) == p[i]
  }

  /** Length of the credential prefix at the start of `s`, 0 when there is none. */
  function CredentialLength(s: seq<Byte>): (n: nat)
    ensures n <= |s|
  {
    FirstMatch(CREDENTIALS, s)
  }

  function FirstMatch(prefixes: seq<seq<Byte>>, s: seq<Byte>): (n: nat)
    ensures n <= |s|
  {
    if prefixes == [] then 0
    else if StartsWithFold(s, prefixes[0]) then |prefixes[0]|
    else FirstMatch(prefixes[1..], s)
  }

  /** Length of the longest configured secret at the start of `s`, 0 when there is none. */
  function LongestSecret(secrets: seq<seq<Byte>>, s: seq<Byte>): (n: nat)
    ensures n <= |s|
  {
    if secrets == [] then 0
    else
      var rest := LongestSecret(secrets[1..], s);
      if secrets[0] <= s && |secrets[0]| > rest then |secrets[0]| else rest
  }

  /** What ends the bytes being withheld; `Copying` when none are. */
  datatype Mode = Copying | Unquoted | Quoted(quote: Byte)

  predicate IsDelimiter(b: Byte) {
    b == 0x20 || b == 0x09 || b == 0x0d || b == 0x0a || b == 0x00
  }

  predicate IsQuote(b: Byte) {
    b == 0x22 || b == 0x27
  }

  predicate Ends(mode: Mode, b: Byte) {
    match mode
    case Copying => true
    case Unquoted => IsDelimiter(b)
    case Quoted(q) => b == q
  }

  /** Number of bytes of `s` before the first one that ends the value; all of them when none does. */
  function ValueLength(mode: Mode, s: seq<Byte>): (n: nat)
    ensures n <= |s|
    ensures n < |s| ==> Ends(mode, s[n])
  {
    if s == [] || Ends(mode, s[0]) then 0 else 1 + ValueLength(mode, s[1..])
  }

  /** How the value after a credential prefix of length `p` is written, and where it starts. */
  function ValueMode(s: seq<Byte>, p: nat): Mode
    requires p < |s|
  {
    if IsQuote(s[p]) then Quoted(s[p]) else Unquoted
  }

  function ValueStart(s: seq<Byte>, p: nat): nat
    requires p < |s|
  {
    if IsQuote(s[p]) then p + 1 else p
  }

  datatype Outcome = Outcome(bytes: seq<Byte>, oversize: bool)

  function Prepend(bytes: seq<Byte>, oversize: bool, rest: Outcome): Outcome {
    Outcome(bytes + rest.bytes, oversize || rest.oversize)
  }

  /** The first piece of the input: what it becomes, how much of it is used up, whether it held an oversize value. */
  datatype Piece = Piece(output: seq<Byte>, used: nat, oversize: bool)

  /** A credential prefix of length `p` and the value after it. */
  function CredentialPiece(s: seq<Byte>, p: nat): (r: Piece)
    requires 0 < p <= |s|
    ensures 0 < r.used <= |s|
    ensures r.output != []
  {
    if |s| == p then Piece(s + MARK, p, false)
    else
      var start := ValueStart(s, p);
      var v := ValueLength(ValueMode(s, p), s[start..]);
      if start + v < |s| then Piece(s[..start] + MARK + [s[start + v]], start + v + 1, v > MAX_VALUE)
      else Piece(s[..start] + MARK, |s|, v > MAX_VALUE)
  }

  function FirstPiece(secrets: seq<seq<Byte>>, s: seq<Byte>): (r: Piece)
    requires s != []
    ensures 0 < r.used <= |s|
    ensures r.output != []
  {
    var p := CredentialLength(s);
    if p > 0 then CredentialPiece(s, p)
    else
      var n := LongestSecret(secrets, s);
      if n > 0 then Piece(MARK, n, false) else Piece([s[0]], 1, false)
  }

  /** A way of taking pieces off the front of the input. */
  type Pieces = seq<Byte> -> Piece

  function PiecesOf(secrets: seq<seq<Byte>>): Pieces {
    (s: seq<Byte>) => if s == [] then Piece([], 0, false) else FirstPiece(secrets, s)
  }

  /** The redaction of a whole byte string, and whether it withheld a value longer than 64 KiB. */
  function OnePass(first: Pieces, s: seq<Byte>): Outcome
    decreases |s|
  {
    var p := first(s);
    if 0 < p.used <= |s| then Prepend(p.output, p.oversize, OnePass(first, s[p.used..]))
    else Outcome([], false)
  }

  function Reference(secrets: seq<seq<Byte>>, s: seq<Byte>): Outcome {
    OnePass(PiecesOf(secrets), s)
  }

  /** The redaction of `s` when it begins inside a value that is being withheld. */
  function Resume(first: Pieces, mode: Mode, s: seq<Byte>): Outcome {
    if mode == Copying then OnePass(first, s)
    else
      var v := ValueLength(mode, s);
      if v == |s| then Outcome([], false)
      else Prepend([s[v]], false, OnePass(first, s[v + 1..]))
  }

  lemma ReferenceIs(secrets: seq<seq<Byte>>, s: seq<Byte>, piece: Piece)
    requires s != [] && FirstPiece(secrets, s) == piece
    ensures Reference(secrets, s) == Prepend(piece.output, piece.oversize, Reference(secrets, s[piece.used..]))
  {
  }

  // ---- Facts about prefixes, secrets and values ----

  /** Two credential prefixes never match the same bytes, so the order they are tried in does not matter. */
  lemma CredentialIs(s: seq<Byte>, c: seq<Byte>)
    requires c in CREDENTIALS && StartsWithFold(s, c)
    ensures CredentialLength(s) == |c| > 0
  {
    FourPrefixes(s);
    assert Lower(s[0]) == c[0] && Lower(s[2]) == c[2];
    assert PASSWORD[0] == TOKEN[0] == API_KEY[0] == 0x2d && AUTHORIZATION[0] == 0x61;
    assert PASSWORD[2] == 0x70 && TOKEN[2] == 0x74 && API_KEY[2] == 0x61;
  }

  lemma FourPrefixes(s: seq<Byte>)
    ensures CredentialLength(s) ==
              if StartsWithFold(s, PASSWORD) then |PASSWORD|
              else if StartsWithFold(s, TOKEN) then |TOKEN|
              else if StartsWithFold(s, API_KEY) then |API_KEY|
              else if StartsWithFold(s, AUTHORIZATION) then |AUTHORIZATION|
              else 0
    ensures forall c :: c in CREDENTIALS <==> c == PASSWORD || c == TOKEN || c == API_KEY || c == AUTHORIZATION
  {
    var cs := CREDENTIALS;
    var last, none := cs[3..], cs[4..];
    assert last[1..] == none == [] && cs[2..][1..] == last && cs[1..][1..] == cs[2..];
    assert FirstMatch(last, s) == if StartsWithFold(s, AUTHORIZATION) then |AUTHORIZATION| else 0;
    assert FirstMatch(cs[2..], s) == if StartsWithFold(s, API_KEY) then |API_KEY| else FirstMatch(last, s);
    assert FirstMatch(cs[1..], s) == if StartsWithFold(s, TOKEN) then |TOKEN| else FirstMatch(cs[2..], s);
    assert cs[0] == PASSWORD && cs[1] == TOKEN && cs[2] == API_KEY && cs[3] == AUTHORIZATION;
  }

  /** A credential prefix at the start is one of the four. */
  lemma CredentialMatches(s: seq<Byte>) returns (c: seq<Byte>)
    requires CredentialLength(s) > 0
    ensures c in CREDENTIALS && StartsWithFold(s, c) && |c| == CredentialLength(s)
  {
    FourPrefixes(s);
    c := if StartsWithFold(s, PASSWORD) then PASSWORD
         else if StartsWithFold(s, TOKEN) then TOKEN
         else if StartsWithFold(s, API_KEY) then API_KEY else AUTHORIZATION;
  }

  /** A credential prefix at the start stays there, and stays the only one, when bytes are appended. */
  lemma CredentialExtends(s: seq<Byte>, f: seq<Byte>)
    requires CredentialLength(s) > 0
    ensures CredentialLength(s + f) == CredentialLength(s)
  {
    var c := CredentialMatches(s);
    CredentialIs(s + f, c);
  }

  /** A credential prefix that only appears once bytes are appended was partly there before. */
  lemma CredentialAppears(s: seq<Byte>, f: seq<Byte>)
    requires CredentialLength(s) == 0 && CredentialLength(s + f) > 0
    ensures exists c :: c in CREDENTIALS && ProperPrefixFold(s, c)
  {
    var c := CredentialMatches(s + f);
    if |c| <= |s| {
      assert forall i :: 0 <= i < |c| ==> (s + f)[i] == s[i];
      CredentialIs(s, c);
      assert false;
    }
    assert forall i :: 0 <= i < |s| ==> (s + f)[i] == s[i];
    assert ProperPrefixFold(s, c);
  }

  /** The result depends only on which secrets are configured: it is the greatest length of one that matches. */
  lemma {:induction false} LongestSecretIsGreatest(secrets: seq<seq<Byte>>, s: seq<Byte>)
    ensures forall x :: x in secrets && x <= s ==> |x| <= LongestSecret(secrets, s)
    ensures LongestSecret(secrets, s) > 0 ==> s[..LongestSecret(secrets, s)] in secrets
  {
    if secrets != [] {
      LongestSecretIsGreatest(secrets[1..], s);
      if secrets[0] <= s {
        assert s[..|secrets[0]|] == secrets[0];
      }
    }
  }

  lemma {:induction false} ValueLengthExtends(mode: Mode, s: seq<Byte>, f: seq<Byte>)
    ensures ValueLength(mode, s) < |s| ==> ValueLength(mode, s + f) == ValueLength(mode, s)
    ensures ValueLength(mode, s) == |s| ==> ValueLength(mode, s + f) == |s| + ValueLength(mode, f)
  {
    if s == [] {
      assert s + f == f;
    } else if !Ends(mode, s[0]) {
      assert (s + f)[1..] == s[1..] + f;
      ValueLengthExtends(mode, s[1..], f);
    }
  }

  /** Skipping bytes of a value that do not end it leaves its end where it was. */
  lemma {:induction false} ValueLengthSkips(mode: Mode, s: seq<Byte>, k: nat)
    requires k <= ValueLength(mode, s)
    ensures ValueLength(mode, s[k..]) == ValueLength(mode, s) - k
  {
    if k > 0 {
      ValueLengthSkips(mode, s[1..], k - 1);
      assert s[1..][k - 1..] == s[k..];
    }
  }

  lemma {:induction false} ValueLengthIs(mode: Mode, s: seq<Byte>, v: nat)
    requires v <= |s| && forall i :: 0 <= i < v ==> !Ends(mode, s[i])
    ensures ValueLength(mode, s) >= v
    ensures v < |s| && Ends(mode, s[v]) ==> ValueLength(mode, s) == v
  {
    if v > 0 {
      assert forall i :: 0 <= i < v - 1 ==> s[1..][i] == s[i + 1];
      ValueLengthIs(mode, s[1..], v - 1);
    }
  }

  lemma {:induction false} NoEndBefore(mode: Mode, s: seq<Byte>, i: nat)
    requires i < ValueLength(mode, s)
    ensures !Ends(mode, s[i])
  {
    if i > 0 {
      NoEndBefore(mode, s[1..], i - 1);
    }
  }
}
