/** The redactor's turns are faithful to the reference, and the results this gives for whole streams. */
module RedactionTurns {
  import opened Bytes
  import opened RedactionReference
  import opened RedactionStream
  import opened RedactionProof

  // ---- Credentials ----

  lemma ValueExtends(s: seq<Byte>, p: nat, f: seq<Byte>)
    requires p < |s|
    ensures ValueMode(s + f, p) == ValueMode(s, p) && ValueStart(s + f, p) == ValueStart(s, p)
    ensures (s + f)[ValueStart(s, p)..] == s[ValueStart(s, p)..] + f
    ensures (s + f)[..ValueStart(s, p)] == s[..ValueStart(s, p)]
  {
  }

  lemma CredentialEmitAgrees(s: seq<Byte>, p: nat, final: bool, f: seq<Byte>)
    requires 0 < p <= |s| && CredentialTurn(s, p, final).Emit?
    ensures var t := CredentialTurn(s, p, final);
            CredentialPiece(s + f, p) == Piece(t.output, t.used, false)
  {
    ValueExtends(s, p, f);
    var start := ValueStart(s, p);
    var v := ValueLength(ValueMode(s, p), s[start..]);
    ValueLengthExtends(ValueMode(s, p), s[start..], f);
    assert (s + f)[start + v] == s[start + v];
  }

  /** Starting to discard leaves exactly the rest of the oversize value to be dropped. */
  lemma CredentialDiscardAgrees(s: seq<Byte>, p: nat, f: seq<Byte>)
    requires 8 <= p <= |s| && CredentialTurn(s, p, false).Discard?
    ensures var t := CredentialTurn(s, p, false);
            && t.mode != Copying && MAX_VALUE + 8 <= t.used < |s| && !Ends(t.mode, s[t.used])
            && CredentialPiece(s + f, p) == DroppedPiece(t.output, t.used, t.mode, s[t.used..] + f)
  {
    hide ValueLength, Ends, IsQuote;
    ValueExtends(s, p, f);
    var start, mode := ValueStart(s, p), ValueMode(s, p);
    var value := s[start..] + f;
    ValueLengthExtends(mode, s[start..], f);
    ValueLengthSkips(mode, value, MAX_VALUE);
    NoEndBefore(mode, s[start..], MAX_VALUE);
    assert value[MAX_VALUE..] == s[start + MAX_VALUE..] + f;
    var v := ValueLength(mode, value);
    if v < |value| {
      assert (s + f)[start + v] == value[v] == value[MAX_VALUE..][v - MAX_VALUE];
    }
  }

  lemma CredentialFinal(s: seq<Byte>, p: nat)
    requires 8 <= p <= |s|
    requires |s| <= MAX_VALUE + 8 || CredentialTurn(s, p, false).Wait?
    ensures match CredentialTurn(s, p, true)
            case Emit(_, used) => |s| <= used + MAX_VALUE
            case Finish(output) => CredentialPiece(s, p) == Piece(output, |s|, false)
            case _ => false
  {
  }

  /** A stash waiting inside a credential value is used up by the turn that gets enough bytes. */
  lemma CredentialWaitEnds(s: seq<Byte>, p: nat, f: seq<Byte>)
    requires 0 < p <= |s| && CredentialTurn(s, p, false).Wait?
    ensures |s| <= p + 1 + MAX_VALUE
    ensures match CredentialTurn(s + f, p, false)
            case Emit(_, used) => |s| < used
            case Discard(_, used, _) => |s| <= used
            case _ => true
  {
    if p < |s| {
      ValueExtends(s, p, f);
      var start := ValueStart(s, p);
      ValueLengthExtends(ValueMode(s, p), s[start..], f);
    }
  }

  lemma CredentialSizes(s: seq<Byte>)
    requires CredentialLength(s) > 0
    ensures 8 <= CredentialLength(s) <= 15
  {
    FourPrefixes(s);
  }

  // ---- Exact secrets ----

  /** The bytes that must begin nothing longer: the match, or everything when there is none. */
  function Committed(secrets: seq<seq<Byte>>, s: seq<Byte>): (a: seq<Byte>)
    ensures a <= s
  {
    if LongestSecret(secrets, s) > 0 then s[..LongestSecret(secrets, s)] else s
  }

  /** Outside credentials, appended bytes change neither what matches nor that nothing does. */
  lemma PlainAgrees(secrets: seq<seq<Byte>>, s: seq<Byte>, f: seq<Byte>)
    requires s != [] && CredentialLength(s) == 0 && ChunkSafe(secrets)
    requires LongestSecret(secrets, s) > 0 || !(PartialSecret(secrets, s) || PartialCredential(s))
    ensures CredentialLength(s + f) == 0
    ensures LongestSecret(secrets, s + f) == LongestSecret(secrets, s)
  {
    var a := Committed(secrets, s);
    CommittedBeginsNothing(secrets, s);
    NothingBegins(a, s[|a|..] + f);
    assert a + (s[|a|..] + f) == s + f;
    SecretsAgree(secrets, s, f, a);
  }

  lemma CommittedBeginsNothing(secrets: seq<seq<Byte>>, s: seq<Byte>)
    requires CredentialLength(s) == 0 && ChunkSafe(secrets)
    requires LongestSecret(secrets, s) > 0 || !(PartialSecret(secrets, s) || PartialCredential(s))
    ensures var a := Committed(secrets, s);
            CredentialLength(a) == 0 && !PartialSecret(secrets, a) && !PartialCredential(a)
  {
    LongestSecretIsGreatest(secrets, s);
    MatchHasNoCredential(s, LongestSecret(secrets, s));
  }

  lemma SecretsAgree(secrets: seq<seq<Byte>>, s: seq<Byte>, f: seq<Byte>, a: seq<Byte>)
    requires a == Committed(secrets, s) && !PartialSecret(secrets, a)
    ensures LongestSecret(secrets, s + f) == LongestSecret(secrets, s)
  {
    var n, m := LongestSecret(secrets, s), LongestSecret(secrets, s + f);
    LongestSecretIsGreatest(secrets, s);
    LongestSecretIsGreatest(secrets, s + f);
    var b := (s + f)[..m];
    if m > 0 {
      assert b in secrets;
      assert |a| < m ==> a <= b;
      assert m <= |a| ==> b <= s;
    }
    if n > 0 {
      assert s[..n] <= s + f;
    }
  }

  /** What begins no credential prefix has none at its start, however it continues. */
  lemma NothingBegins(a: seq<Byte>, f: seq<Byte>)
    requires CredentialLength(a) == 0 && !PartialCredential(a)
    ensures CredentialLength(a + f) == 0
  {
    if CredentialLength(a + f) > 0 {
      CredentialAppears(a, f);
      assert false;
    }
  }

  lemma MatchHasNoCredential(s: seq<Byte>, n: nat)
    requires n <= |s| && CredentialLength(s) == 0
    ensures CredentialLength(s[..n]) == 0
  {
    if CredentialLength(s[..n]) > 0 {
      CredentialExtends(s[..n], s[n..]);
      assert s[..n] + s[n..] == s;
    }
  }

  lemma PartialSizes(secrets: seq<seq<Byte>>, s: seq<Byte>)
    requires Usable(secrets) && (PartialSecret(secrets, s) || PartialCredential(s))
    ensures |s| < MAX_VALUE
  {
  }

  // ---- Turns ----

  lemma TurnAgreement(secrets: seq<seq<Byte>>, s: seq<Byte>, f: seq<Byte>)
    requires s != [] && ChunkSafe(secrets)
    ensures TurnAgrees(PiecesOf(secrets), TurnsOf(secrets), s, f)
  {
    var t := NextTurn(secrets, s, false);
    var p := CredentialLength(s);
    assert TurnsOf(secrets)(s, false) == t && PiecesOf(secrets)(s + f) == FirstPiece(secrets, s + f);
    if p > 0 {
      CredentialExtends(s, f);
      CredentialSizes(s);
      if t.Emit? {
        CredentialEmitAgrees(s, p, false, f);
      } else if t.Discard? {
        CredentialDiscardAgrees(s, p, f);
      }
    } else if t.Emit? {
      PlainAgrees(secrets, s, f);
      assert (s + f)[0] == s[0];
    }
  }

  lemma LastTurnAgreement(secrets: seq<seq<Byte>>, s: seq<Byte>)
    requires s != [] && Usable(secrets)
    ensures LastTurnAgrees(PiecesOf(secrets), TurnsOf(secrets), s)
  {
    var p := CredentialLength(s);
    assert TurnsOf(secrets)(s, true) == NextTurn(secrets, s, true);
    assert TurnsOf(secrets)(s, false) == NextTurn(secrets, s, false);
    assert PiecesOf(secrets)(s) == FirstPiece(secrets, s);
    if Final(TurnsOf(secrets), s) {
      if p > 0 {
        CredentialSizes(s);
        CredentialFinal(s, p);
        if CredentialTurn(s, p, true).Emit? {
          CredentialEmitAgrees(s, p, true, []);
          assert s + [] == s;
        }
      } else if |s| > MAX_VALUE + 8 {
        PartialSizes(secrets, s);
      }
    }
  }

  lemma WaitAgreement(secrets: seq<seq<Byte>>, s: seq<Byte>)
    requires s != [] && Usable(secrets)
    ensures WaitIsShort(TurnsOf(secrets), s)
  {
    var next := TurnsOf(secrets);
    assert next(s, false) == NextTurn(secrets, s, false);
    var p := CredentialLength(s);
    if NextTurn(secrets, s, false).Wait? {
      if p > 0 {
        CredentialSizes(s);
        CredentialWaitEnds(s, p, []);
        forall f
          ensures OutgrowsWait(next, s, f)
        {
          CredentialExtends(s, f);
          CredentialWaitEnds(s, p, f);
          assert next(s + f, false) == CredentialTurn(s + f, p, false);
        }
      } else {
        PartialSizes(secrets, s);
      }
    }
  }

  lemma MovesOnAlways(secrets: seq<seq<Byte>>, s: seq<Byte>)
    requires s != []
    ensures MovesOn(TurnsOf(secrets), s)
  {
    var t := NextTurn(secrets, s, false);
    assert TurnsOf(secrets)(s, false) == t;
    if CredentialLength(s) > 0 {
      CredentialSizes(s);
      if t.Discard? {
        CredentialDiscardAgrees(s, CredentialLength(s), []);
      }
    }
  }

  lemma TurnsAreSteady(secrets: seq<seq<Byte>>)
    requires Usable(secrets)
    ensures Steady(PiecesOf(secrets), TurnsOf(secrets))
  {
    forall s | s != []
      ensures MovesOn(TurnsOf(secrets), s) && WaitIsShort(TurnsOf(secrets), s)
      ensures LastTurnAgrees(PiecesOf(secrets), TurnsOf(secrets), s)
    {
      MovesOnAlways(secrets, s);
      LastTurnAgreement(secrets, s);
      WaitAgreement(secrets, s);
    }
  }

  lemma TurnsAreFaithful(secrets: seq<seq<Byte>>)
    requires ChunkSafe(secrets) && Usable(secrets)
    ensures Faithful(PiecesOf(secrets), TurnsOf(secrets))
  {
    TurnsAreSteady(secrets);
    forall s, f | s != []
      ensures TurnAgrees(PiecesOf(secrets), TurnsOf(secrets), s, f)
    {
      TurnAgreement(secrets, s, f);
    }
  }

  // ---- Results ----

  /** Whatever the chunk boundaries, the stream comes out as the one-pass reference. */
  lemma StreamIsReference(secrets: seq<seq<Byte>>, limit: nat, chunks: seq<seq<Byte>>)
    requires ChunkSafe(secrets) && Usable(secrets) && limit <= MAX_SAFE_CHUNK
    requires forall c :: c in chunks ==> |c| <= limit
    ensures Stream(secrets, chunks) == Reference(secrets, Flatten(chunks))
  {
    TurnsAreFaithful(secrets);
    StreamAgrees(PiecesOf(secrets), TurnsOf(secrets), limit, START, chunks);
    assert [] + Flatten(chunks) == Flatten(chunks);
  }

  /** Between calls the stash holds at most a prefix, a quote and a value, or one chunk's worth of a dropped value. */
  lemma StashSize(secrets: seq<seq<Byte>>, limit: nat, stash: seq<Byte>, mode: Mode)
    requires Usable(secrets) && limit <= MAX_SAFE_CHUNK
    requires Bounded(TurnsOf(secrets), limit, stash, mode)
    ensures |stash| <= MAX_STASH
    ensures mode != Copying ==> |stash| <= limit
  {
    if mode == Copying && stash != [] {
      WaitAgreement(secrets, stash);
    }
  }

  /** What the runner configures, its own secret of at least 22 bytes, never lets chunk boundaries show. */
  lemma OneLongSecretIsSafe(secret: seq<Byte>, chunks: seq<seq<Byte>>)
    requires 22 <= |secret| <= MAX_VALUE && forall c :: c in chunks ==> |c| <= 65536
    ensures ChunkSafe([secret]) && Stream([secret], chunks) == Reference([secret], Flatten(chunks))
  {
    FourPrefixes(secret);
    assert forall c :: c in CREDENTIALS ==> |c| <= 15;
    StreamIsReference([secret], 65536, chunks);
  }

  /** The redactor's state and everything it has emitted after the given chunks. */
  function Fed(next: Turns, chunks: seq<seq<Byte>>): (r: (State, seq<Byte>)) {
    if chunks == [] then (START, [])
    else
      var before := Fed(next, chunks[..|chunks| - 1]);
      var (state, out) := Push(next, before.0, chunks[|chunks| - 1]);
      (state, before.1 + out)
  }

  /** Feeding chunks one by one is what `StreamFrom` describes. */
  lemma {:induction false} FedStreams(next: Turns, chunks: seq<seq<Byte>>, more: seq<seq<Byte>>)
    ensures var (state, out) := Fed(next, chunks);
            var rest := StreamFrom(next, state, more);
            StreamFrom(next, START, chunks + more) == Outcome(out + rest.bytes, rest.oversize)
    decreases |chunks|
  {
    if chunks == [] {
      assert chunks + more == more;
      var rest := StreamFrom(next, START, more);
      assert [] + rest.bytes == rest.bytes;
    } else {
      var n := |chunks| - 1;
      var last := chunks[n];
      FedStreams(next, chunks[..n], [last] + more);
      assert chunks[..n] + ([last] + more) == chunks + more;
      assert ([last] + more)[1..] == more;
      var (state, out) := Fed(next, chunks[..n]);
      var (after, o) := Push(next, state, last);
      var rest := StreamFrom(next, after, more);
      assert (out + o) + rest.bytes == out + (o + rest.bytes);
    }
  }

  lemma {:induction false} FedBounded(secrets: seq<seq<Byte>>, chunks: seq<seq<Byte>>, limit: nat)
    requires Usable(secrets) && limit <= MAX_SAFE_CHUNK && forall x :: x in chunks ==> |x| <= limit
    requires Steady(PiecesOf(secrets), TurnsOf(secrets))
    ensures var state := Fed(TurnsOf(secrets), chunks).0; Bounded(TurnsOf(secrets), limit, state.stash, state.mode)
    decreases |chunks|
  {
    if chunks != [] {
      var n := |chunks| - 1;
      FedBounded(secrets, chunks[..n], limit);
      assert chunks[n] in chunks;
      var before := Fed(TurnsOf(secrets), chunks[..n]).0;
      ProcessBounded(PiecesOf(secrets), TurnsOf(secrets), limit, before.stash, before.mode, chunks[n]);
    }
  }

  /**
   * After any reads of at most 65,546 bytes, and whatever the secrets are, the redactor
   * buffers at most 65,552 bytes, no more than one read of a value it is dropping, and
   * the end of input leaves nothing to be emitted as it is.
   */
  lemma StashStaysBounded(secrets: seq<seq<Byte>>, chunks: seq<seq<Byte>>, limit: nat)
    requires Usable(secrets) && limit <= MAX_SAFE_CHUNK && forall x :: x in chunks ==> |x| <= limit
    ensures var state := Fed(TurnsOf(secrets), chunks).0;
            && |state.stash| <= MAX_STASH == 65552
            && (state.mode != Copying ==> |state.stash| <= limit)
            && Process(TurnsOf(secrets), state.stash, state.mode, true).rest == []
  {
    TurnsAreSteady(secrets);
    FedBounded(secrets, chunks, limit);
    var state := Fed(TurnsOf(secrets), chunks).0;
    StashSize(secrets, limit, state.stash, state.mode);
    FlushAgrees(PiecesOf(secrets), TurnsOf(secrets), limit, state.stash, state.mode);
  }
}
