/**
 * The conditions of `RedactionTurns.StreamIsReference` are exact: secrets that are not
 * chunk-safe, and chunks above 65,546 bytes, each have an input that shows it.
 */
module RedactionLimits {
  import opened Bytes
  import opened RedactionReference
  import opened RedactionStream
  import opened RedactionProof
  import opened RedactionTurns

  /**
   * The stream comes out as the reference for every way of cutting every input into chunks of
   * at most `limit` bytes.
   */
  ghost predicate AlwaysReference(secrets: seq<seq<Byte>>, limit: nat) {
    forall chunks: seq<seq<Byte>> | forall c :: c in chunks ==> |c| <= limit ::
      Stream(secrets, chunks) == Reference(secrets, Flatten(chunks))
  }

  // ---- A secret that begins another secret or a credential prefix ----

  lemma TurnEmits(secrets: seq<seq<Byte>>, s: seq<Byte>, final: bool)
    requires s != []
    ensures var turn := NextTurn(secrets, s, final);
            if turn.Wait? then !final else turn.output != []
  {
  }

  lemma TurnsEmit(secrets: seq<seq<Byte>>, s: seq<Byte>, final: bool)
    requires s != []
    ensures Scan(TurnsOf(secrets), s, final).output == [] ==>
              !final && Scan(TurnsOf(secrets), s, final) == Scanned([], s, Copying, false)
  {
    hide NextTurn;
    TurnEmits(secrets, s, final);
  }

  lemma {:induction false} StreamEmits(secrets: seq<seq<Byte>>, stash: seq<Byte>, n: nat, chunks: seq<seq<Byte>>)
    requires stash + Flatten(chunks) != []
    ensures StreamFrom(TurnsOf(secrets), State(stash, Copying, n), chunks).bytes != []
    decreases |chunks|
  {
    if chunks == [] {
      TurnsEmit(secrets, stash, true);
    } else if chunks[0] == [] {
      StreamEmits(secrets, stash, n, chunks[1..]);
    } else {
      var s := stash + chunks[0];
      TurnsEmit(secrets, s, false);
      var r := Scan(TurnsOf(secrets), s, false);
      if r.output == [] {
        StreamEmits(secrets, s, Counted(n, r.oversize), chunks[1..]);
      }
    }
  }

  /** The shortest beginning of `s` that is a secret. */
  lemma ShortestSecret(secrets: seq<seq<Byte>>, s: seq<Byte>, n: nat) returns (k: nat)
    requires Usable(secrets) && 0 < n <= |s| && s[..n] in secrets
    ensures 0 < k <= n && LongestSecret(secrets, s[..k]) == k
    ensures forall j :: 0 < j < k ==> LongestSecret(secrets, s[..j]) == 0 && PartialSecret(secrets, s[..j])
  {
    k := 1;
    while LongestSecret(secrets, s[..k]) == 0
      invariant 0 < k <= n
      invariant forall j :: 0 < j < k ==> LongestSecret(secrets, s[..j]) == 0
      decreases n - k
    {
      if k == n {
        LongestSecretIsGreatest(secrets, s[..n]);
        assert false;
      }
      k := k + 1;
    }
    var m := LongestSecret(secrets, s[..k]);
    LongestSecretIsGreatest(secrets, s[..k]);
    assert s[..k][..m] == s[..m];
    if m < k {
      LongestSecretIsGreatest(secrets, s[..m]);
      assert false;
    }
    forall j | 0 < j < k
      ensures PartialSecret(secrets, s[..j])
    {
      assert s[..k] in secrets && s[..j] <= s[..k];
    }
  }

  /** Fed one byte at a time, the shortest matching secret is redacted at once. */
  lemma {:induction false} FedByBytes(secrets: seq<seq<Byte>>, s: seq<Byte>, j: nat, k: nat)
    requires j < k <= |s| && LongestSecret(secrets, s[..k]) == k
    requires forall i :: 0 < i <= k ==> CredentialLength(s[..i]) == 0
    requires forall i :: 0 < i < k ==> LongestSecret(secrets, s[..i]) == 0 && PartialSecret(secrets, s[..i])
    ensures var rest := Stream(secrets, Singles(s[k..]));
            StreamFrom(TurnsOf(secrets), State(s[..j], Copying, 0), Singles(s[j..])) ==
            Outcome(MARK + rest.bytes, rest.oversize)
    decreases k - j
  {
    var chunks := Singles(s[j..]);
    assert chunks[0] == [s[j]] && s[j..][1..] == s[j + 1..];
    assert chunks[1..] == Singles(s[j + 1..]);
    var t := s[..j + 1];
    assert s[..j] + [s[j]] == t;
    var (next, out) := Push(TurnsOf(secrets), State(s[..j], Copying, 0), chunks[0]);
    if j + 1 < k {
      assert Scan(TurnsOf(secrets), t, false) == Scanned([], t, Copying, false);
      FedByBytes(secrets, s, j + 1, k);
      var rest := Stream(secrets, Singles(s[k..]));
      assert [] + (MARK + rest.bytes) == MARK + rest.bytes;
    } else {
      assert NextTurn(secrets, t, false) == Emit(MARK, k);
      assert t[k..] == [] && MARK + [] == MARK;
      assert Scan(TurnsOf(secrets), t, false) == Scanned(MARK, [], Copying, false);
    }
  }

  /** No byte is an upper-case letter. */
  predicate NoUpper(c: seq<Byte>) {
    forall i :: 0 <= i < |c| ==> !(0x41 <= c[i] <= 0x5a)
  }

  lemma PasswordLower()
    ensures NoUpper(PASSWORD)
  {
  }

  lemma TokenLower()
    ensures NoUpper(TOKEN)
  {
  }

  lemma ApiKeyLower()
    ensures NoUpper(API_KEY)
  {
  }

  lemma AuthorizationLower()
    ensures NoUpper(AUTHORIZATION)
  {
    assert AUTHORIZATION ==
           [0x61, 0x75, 0x74, 0x68, 0x6f, 0x72, 0x69, 0x7a, 0x61, 0x74, 0x69, 0x6f, 0x6e, 0x3a, 0x20];
  }

  lemma LowerFixes(c: seq<Byte>)
    requires c in CREDENTIALS
    ensures forall i :: 0 <= i < |c| ==> Lower(c[i]) == c[i]
  {
    PasswordLower();
    TokenLower();
    ApiKeyLower();
    AuthorizationLower();
    assert NoUpper(c);
  }

  /** An input that starts with the secret `a` and continues it to another secret or to a credential prefix. */
  lemma Continuation(secrets: seq<seq<Byte>>, a: seq<Byte>) returns (s: seq<Byte>)
    requires PartialSecret(secrets, a) || PartialCredential(a)
    ensures |a| < |s| && a <= s
    ensures s in secrets || CredentialLength(s) > 0
  {
    if PartialSecret(secrets, a) {
      s :| s in secrets && |a| < |s| && a <= s;
    } else {
      var c :| c in CREDENTIALS && ProperPrefixFold(a, c);
      LowerFixes(c);
      s := a + c[|a|..];
      CredentialIs(s, c);
    }
  }

  lemma NoCredentialInside(a: seq<Byte>, i: nat)
    requires CredentialLength(a) == 0 && i <= |a|
    ensures CredentialLength(a[..i]) == 0
  {
    MatchHasNoCredential(a, i);
  }

  lemma CredentialBegins(secrets: seq<seq<Byte>>, s: seq<Byte>)
    requires s != [] && CredentialLength(s) > 0
    ensures Reference(secrets, s).bytes != [] && Reference(secrets, s).bytes[0] == s[0] != MARK[0]
  {
    hide ValueMode, FirstMatch;
    var c := CredentialMatches(s);
    FourPrefixes(s);
    assert c[0] == 0x2d || c[0] == 0x61;
    assert s[0] != 0x5b && MARK[0] == 0x5b;
    var piece := CredentialPiece(s, CredentialLength(s));
    assert piece.output[0] == s[0];
  }

  /** The reference of a continuation is not the mark followed by more output. */
  lemma ContinuationDiffers(secrets: seq<seq<Byte>>, s: seq<Byte>, more: seq<Byte>)
    requires s != [] && more != []
    requires s in secrets || CredentialLength(s) > 0
    ensures Reference(secrets, s).bytes != MARK + more
  {
    if CredentialLength(s) > 0 {
      CredentialBegins(secrets, s);
      assert (MARK + more)[0] == MARK[0];
    } else {
      LongestSecretIsGreatest(secrets, s);
      ReferenceIs(secrets, s, Piece(MARK, |s|, false));
      assert s[|s|..] == [];
      assert |Reference(secrets, s).bytes| == |MARK|;
    }
  }

  lemma UnsafeSecretsDiffer(secrets: seq<seq<Byte>>) returns (chunks: seq<seq<Byte>>)
    requires Usable(secrets) && !ChunkSafe(secrets)
    ensures forall c :: c in chunks ==> |c| == 1
    ensures Stream(secrets, chunks) != Reference(secrets, Flatten(chunks))
  {
    hide Singles, StreamFrom, Reference;
    var a :| a in secrets && CredentialLength(a) == 0 && (PartialSecret(secrets, a) || PartialCredential(a));
    var s := Continuation(secrets, a);
    chunks := Singles(s);
    FlattenSingles(s);
    assert s[..|a|] == a;
    var k := ShortestSecret(secrets, s, |a|);
    forall i | 0 < i <= k
      ensures CredentialLength(s[..i]) == 0
    {
      NoCredentialInside(a, i);
      assert a[..i] == s[..i];
    }
    FedByBytes(secrets, s, 0, k);
    assert s[..0] == [] && s[0..] == s;
    FlattenSingles(s[k..]);
    assert [] + s[k..] == s[k..];
    StreamEmits(secrets, [], 0, Singles(s[k..]));
    ContinuationDiffers(secrets, s, Stream(secrets, Singles(s[k..])).bytes);
  }

  // ---- Chunks above the limit ----

  function Letters(n: nat): (r: seq<Byte>)
    ensures |r| == n
  {
    seq(n, _ => 0x61)
  }

  lemma {:induction false} LettersAreValue(n: nat, rest: seq<Byte>)
    ensures ValueLength(Unquoted, Letters(n) + rest) == n + ValueLength(Unquoted, rest)
  {
    if n == 0 {
      assert Letters(0) + rest == rest;
    } else {
      assert (Letters(n) + rest)[1..] == Letters(n - 1) + rest;
      LettersAreValue(n - 1, rest);
    }
  }

  const LONG := TOKEN + Letters(MAX_VALUE)
  const LEAK := [0x61, 0x20] + (TOKEN + Letters(MAX_VALUE + 1))

  lemma TokenValue(value: seq<Byte>)
    requires value != [] && value[0] == 0x61
    ensures CredentialLength(TOKEN + value) == 8
    ensures ValueMode(TOKEN + value, 8) == Unquoted && ValueStart(TOKEN + value, 8) == 8
    ensures (TOKEN + value)[8..] == value && (TOKEN + value)[..8] == TOKEN
  {
    FourPrefixes(TOKEN);
    assert TOKEN in CREDENTIALS;
    LowerFixes(TOKEN);
    CredentialIs(TOKEN + value, TOKEN);
  }

  /** The final call on an oversize unquoted value leaves its last byte, which is then emitted as it is. */
  lemma OversizeAtEnd(secrets: seq<seq<Byte>>)
    ensures var s := TOKEN + Letters(MAX_VALUE + 1);
            && Scan(TurnsOf(secrets), s, true) == Scanned(TOKEN + MARK, [0x61], Unquoted, true)
            && Reference(secrets, s) == Outcome(TOKEN + MARK, true)
  {
    var value := Letters(MAX_VALUE + 1);
    var s := TOKEN + value;
    TokenValue(value);
    LettersAreValue(MAX_VALUE + 1, []);
    assert value + [] == value;
    assert NextTurn(secrets, s, true) == Discard(TOKEN + MARK, 8 + MAX_VALUE, Unquoted);
    assert s[8 + MAX_VALUE..] == [0x61];
    ReferenceIs(secrets, s, Piece(TOKEN + MARK, |s|, true));
    assert s[|s|..] == [] && (TOKEN + MARK) + [] == TOKEN + MARK;
  }

  lemma LongWaits(secrets: seq<seq<Byte>>)
    ensures Push(TurnsOf(secrets), START, LONG) == (State(LONG, Copying, 0), [])
  {
    TokenValue(Letters(MAX_VALUE));
    LettersAreValue(MAX_VALUE, []);
    assert Letters(MAX_VALUE) + [] == Letters(MAX_VALUE);
    assert [] + LONG == LONG;
    assert NextTurn(secrets, LONG, false) == Wait;
  }

  lemma LeakValue()
    ensures LONG + LEAK == TOKEN + (Letters(MAX_VALUE) + LEAK)
    ensures ValueLength(Unquoted, Letters(MAX_VALUE) + LEAK) == MAX_VALUE + 1
    ensures ValueLength(Unquoted, LEAK) == 1
    ensures LEAK[2..] == TOKEN + Letters(MAX_VALUE + 1)
    ensures (Letters(MAX_VALUE) + LEAK)[MAX_VALUE + 1] == 0x20
  {
    assert LEAK == Letters(1) + LEAK[1..];
    LettersAreValue(1, LEAK[1..]);
    LettersAreValue(MAX_VALUE, LEAK);
  }

  lemma LeakDiscards(secrets: seq<seq<Byte>>)
    ensures Push(TurnsOf(secrets), State(LONG, Copying, 0), LEAK) == (State(LEAK, Unquoted, 1), TOKEN + MARK)
  {
    LeakValue();
    TokenValue(Letters(MAX_VALUE) + LEAK);
    var s := LONG + LEAK;
    assert NextTurn(secrets, s, false) == Discard(TOKEN + MARK, 8 + MAX_VALUE, Unquoted);
    assert s[8 + MAX_VALUE..] == LEAK;
  }

  lemma LeakFlushes(secrets: seq<seq<Byte>>)
    ensures Flush(TurnsOf(secrets), State(LEAK, Unquoted, 1)).1 == [0x20] + (TOKEN + MARK) + [0x61]
  {
    LeakValue();
    OversizeAtEnd(secrets);
    assert LEAK[1 + 1..] == LEAK[2..];
    assert Process(TurnsOf(secrets), LEAK, Unquoted, true) == Scanned([0x20] + (TOKEN + MARK), [0x61], Unquoted, true);
  }

  lemma TwoChunks(secrets: seq<seq<Byte>>, a: seq<Byte>, b: seq<Byte>)
    ensures Flatten([a, b]) == a + b
    ensures var (s1, out1) := Push(TurnsOf(secrets), START, a);
            var (s2, out2) := Push(TurnsOf(secrets), s1, b);
            Stream(secrets, [a, b]).bytes == out1 + (out2 + Flush(TurnsOf(secrets), s2).1)
  {
    assert [a, b][1..] == [b];
    assert Flatten([b]) == b;
    var (s1, out1) := Push(TurnsOf(secrets), START, a);
    var (s2, out2) := Push(TurnsOf(secrets), s1, b);
    assert [b][0] == b && |[b][1..]| == 0;
    assert StreamFrom(TurnsOf(secrets), s2, [b][1..]).bytes == Flush(TurnsOf(secrets), s2).1;
    assert StreamFrom(TurnsOf(secrets), s1, [b]).bytes == out2 + Flush(TurnsOf(secrets), s2).1;
  }

  lemma LeakStream(secrets: seq<seq<Byte>>)
    ensures Stream(secrets, [LONG, LEAK]).bytes
         == [] + ((TOKEN + MARK) + ([0x20] + (TOKEN + MARK) + [0x61]))
  {
    TwoChunks(secrets, LONG, LEAK);
    LongWaits(secrets);
    LeakDiscards(secrets);
    LeakFlushes(secrets);
  }

  lemma LeakReference(secrets: seq<seq<Byte>>)
    ensures Reference(secrets, LONG + LEAK).bytes == ((TOKEN + MARK) + [0x20]) + (TOKEN + MARK)
  {
    LeakValue();
    OversizeAtEnd(secrets);
    var value := Letters(MAX_VALUE) + LEAK;
    TokenValue(value);
    var s := LONG + LEAK;
    ReferenceIs(secrets, s, Piece(TOKEN + MARK + [0x20], 8 + MAX_VALUE + 2, true));
    assert s[8 + MAX_VALUE + 2..] == LEAK[2..];
  }

  /** The last byte of the second value comes out in the clear. */
  lemma LargeChunksDiffer(secrets: seq<seq<Byte>>)
    ensures Stream(secrets, [LONG, LEAK]) != Reference(secrets, Flatten([LONG, LEAK]))
  {
    LeakStream(secrets);
    LeakReference(secrets);
    TwoChunks(secrets, LONG, LEAK);
    LengthsDiffer(TOKEN + MARK);
  }

  lemma LengthsDiffer(x: seq<Byte>)
    ensures [] + (x + ([0x20] + x + [0x61])) != (x + [0x20]) + x
  {
  }

  /** Exactly when chunk boundaries never show: a condition on the configured secrets and on the size of a read. */
  lemma ExactCondition(secrets: seq<seq<Byte>>, limit: nat)
    requires Usable(secrets) && limit > 0
    ensures AlwaysReference(secrets, limit) <==> ChunkSafe(secrets) && limit <= MAX_SAFE_CHUNK
  {
    hide Stream, StreamFrom, Reference;
    if ChunkSafe(secrets) && limit <= MAX_SAFE_CHUNK {
      forall chunks: seq<seq<Byte>> | forall c :: c in chunks ==> |c| <= limit
        ensures Stream(secrets, chunks) == Reference(secrets, Flatten(chunks))
      {
        StreamIsReference(secrets, limit, chunks);
      }
    } else if !ChunkSafe(secrets) {
      var chunks := UnsafeSecretsDiffer(secrets);
      assert forall c :: c in chunks ==> |c| <= limit;
    } else {
      LargeChunksDiffer(secrets);
      assert |LONG| <= 65547 && |LEAK| == 65547;
      assert forall c :: c in [LONG, LEAK] ==> |c| <= limit;
    }
  }
}
