/**
 * The streaming redactor computes the one-pass reference, whatever the chunk
 * boundaries, when no usable secret begins another secret or a credential prefix
 * and chunks are at most 65,546 bytes; and its stash stays bounded.
 */
module RedactionProof {
  import opened Bytes
  import opened RedactionReference
  import opened RedactionStream

  /**
   * No secret that can be matched (one that does not itself start with a credential
   * prefix) is strictly a beginning of another secret or, ignoring case, of a
   * credential prefix.
   */
  ghost predicate ChunkSafe(secrets: seq<seq<Byte>>) {
    forall a :: a in secrets && CredentialLength(a) == 0 ==> !PartialSecret(secrets, a) && !PartialCredential(a)
  }

  /** What the constructor keeps: secrets that are not empty and at most 64 KiB. */
  ghost predicate Usable(secrets: seq<seq<Byte>>) {
    forall a :: a in secrets ==> 0 < |a| <= MAX_VALUE
  }

  // ---- What one turn owes the reference ----

  /** The piece the reference finds where `output` was emitted and a value started being dropped after `used` bytes. */
  function DroppedPiece(output: seq<Byte>, used: nat, mode: Mode, left: seq<Byte>): Piece {
    var v := ValueLength(mode, left);
    if v < |left| then Piece(output + [left[v]], used + v + 1, true) else Piece(output, used + v, true)
  }

  /** A turn taken before the end of input treats the bytes it uses as the reference does, whatever follows. */
  ghost predicate TurnAgrees(first: Pieces, next: Turns, s: seq<Byte>, f: seq<Byte>) {
    match next(s, false)
    case Wait => true
    case Emit(output, used) => 0 < used <= |s| && first(s + f) == Piece(output, used, false)
    case Finish(output) => s == [] && output == []
    case Discard(output, used, mode) =>
      && mode != Copying && MAX_VALUE + 8 <= used < |s| && !Ends(mode, s[used])
      && first(s + f) == DroppedPiece(output, used, mode, s[used..] + f)
  }

  /** Short enough for the final call to see every value whole. */
  ghost predicate Final(next: Turns, s: seq<Byte>) {
    |s| <= MAX_VALUE + 8 || next(s, false).Wait?
  }

  /** A turn of the final call on such bytes is the reference's. */
  ghost predicate LastTurnAgrees(first: Pieces, next: Turns, s: seq<Byte>) {
    Final(next, s) ==>
      match next(s, true)
      case Emit(output, used) =>
        0 < used <= |s| && first(s) == Piece(output, used, false) && |s| - used <= MAX_VALUE + 8
      case Finish(output) => first(s) == Piece(output, |s|, false) && (s == [] ==> output == [])
      case _ => false
  }

  /** Bytes kept waiting are few, or inside one credential value that the next turn will end or drop. */
  ghost predicate WaitIsShort(next: Turns, s: seq<Byte>) {
    next(s, false).Wait? ==> |s| <= MAX_STASH && (|s| < MAX_VALUE + 8 || forall f :: OutgrowsWait(next, s, f))
  }

  ghost predicate OutgrowsWait(next: Turns, s: seq<Byte>, f: seq<Byte>) {
    match next(s + f, false)
    case Emit(_, used) => |s| < used
    case Discard(_, used, _) => |s| <= used
    case _ => true
  }

  /** A turn before the end of input makes progress, and starts dropping a value only well inside it. */
  ghost predicate MovesOn(next: Turns, s: seq<Byte>) {
    match next(s, false)
    case Wait => true
    case Emit(_, used) => 0 < used <= |s|
    case Finish(_) => s == []
    case Discard(_, used, mode) => mode != Copying && MAX_VALUE + 8 <= used < |s| && !Ends(mode, s[used])
  }

  /** What keeps the stash bounded and the end of input exact, whatever the secrets are. */
  ghost predicate Steady(first: Pieces, next: Turns) {
    forall s :: MovesOn(next, s) && WaitIsShort(next, s) && LastTurnAgrees(first, next, s)
  }

  ghost predicate Agreeing(first: Pieces, next: Turns) {
    forall s, f :: TurnAgrees(first, next, s, f)
  }

  ghost predicate Faithful(first: Pieces, next: Turns) {
    Steady(first, next) && Agreeing(first, next)
  }

  // ---- One call against the reference ----

  lemma PrependTwice(a: seq<Byte>, b: seq<Byte>, rest: Outcome)
    ensures (a + b) + rest.bytes == a + (b + rest.bytes)
  {
  }

  /** Dropping up to the end of the value and emitting what ends it is what resuming does. */
  lemma DroppedResumes(first: Pieces, s: seq<Byte>, f: seq<Byte>, output: seq<Byte>, used: nat, mode: Mode)
    requires s != [] && used <= |s| && mode != Copying
    requires first(s + f) == DroppedPiece(output, used, mode, s[used..] + f)
    ensures OnePass(first, s + f) == Prepend(output, true, Resume(first, mode, s[used..] + f))
  {
    var left := s[used..] + f;
    var v := ValueLength(mode, left);
    if v < |left| {
      assert (s + f)[used + v + 1..] == left[v + 1..];
      PrependTwice(output, [left[v]], OnePass(first, left[v + 1..]));
    } else {
      assert (s + f)[used + v..] == [];
    }
  }

  lemma {:induction false} ScanAgrees(first: Pieces, next: Turns, s: seq<Byte>, f: seq<Byte>)
    requires Agreeing(first, next)
    ensures var r := Scan(next, s, false);
            OnePass(first, s + f) == Prepend(r.output, r.oversize, Resume(first, r.mode, r.rest + f))
    decreases |s|
  {
    if s == [] {
      assert s + f == f;
    } else {
      assert TurnAgrees(first, next, s, f);
      match next(s, false)
      case Wait =>
      case Discard(output, used, mode) => DroppedResumes(first, s, f, output, used, mode);
      case Emit(output, used) =>
        assert (s + f)[used..] == s[used..] + f;
        ScanAgrees(first, next, s[used..], f);
        var r := Scan(next, s[used..], false);
        PrependTwice(output, r.output, Resume(first, r.mode, r.rest + f));
    }
  }

  lemma ProcessAgrees(first: Pieces, next: Turns, s: seq<Byte>, mode: Mode, f: seq<Byte>)
    requires Agreeing(first, next)
    ensures var r := Process(next, s, mode, false);
            Resume(first, mode, s + f) == Prepend(r.output, r.oversize, Resume(first, r.mode, r.rest + f))
  {
    hide ValueLength;
    if mode == Copying {
      ScanAgrees(first, next, s, f);
    } else {
      ValueLengthExtends(mode, s, f);
      var v := ValueLength(mode, s);
      if v < |s| {
        ScanAgrees(first, next, s[v + 1..], f);
        ResumeAt(first, mode, s + f, v, s[v], s[v + 1..] + f);
        var r := Scan(next, s[v + 1..], false);
        PrependTwice([s[v]], r.output, Resume(first, r.mode, r.rest + f));
      } else {
        ResumeLater(first, mode, s, f);
        assert [] + f == f;
      }
    }
  }

  lemma ResumeAt(first: Pieces, mode: Mode, s: seq<Byte>, v: nat, end: Byte, left: seq<Byte>)
    requires mode != Copying && v < |s| && ValueLength(mode, s) == v
    requires s[v] == end && s[v + 1..] == left
    ensures Resume(first, mode, s) == Prepend([end], false, OnePass(first, left))
  {
  }

  /** Bytes inside a withheld value leave no trace. */
  lemma ResumeLater(first: Pieces, mode: Mode, s: seq<Byte>, f: seq<Byte>)
    requires mode != Copying && ValueLength(mode, s) == |s|
    ensures Resume(first, mode, s + f) == Resume(first, mode, f)
  {
    ValueLengthExtends(mode, s, f);
    var v := ValueLength(mode, f);
    if v < |f| {
      assert (s + f)[|s| + v + 1..] == f[v + 1..];
      ResumeAt(first, mode, s + f, |s| + v, f[v], f[v + 1..]);
      ResumeAt(first, mode, f, v, f[v], f[v + 1..]);
    }
  }

  // ---- The stash between calls ----

  /**
   * The stash between calls when chunks are at most `limit` bytes: empty, waiting for
   * more bytes, or, while a value is dropped, a few bytes the first of which does not end it.
   */
  ghost predicate Bounded(next: Turns, limit: nat, stash: seq<Byte>, mode: Mode) {
    if mode == Copying then stash == [] || next(stash, false).Wait?
    else |stash| <= limit && (stash == [] || !Ends(mode, stash[0]))
  }

  lemma {:induction false} ScanBounded(first: Pieces, next: Turns, limit: nat, s: seq<Byte>)
    requires Steady(first, next) && |s| <= MAX_VALUE + 8 + limit
    ensures var r := Scan(next, s, false); Bounded(next, limit, r.rest, r.mode)
    decreases |s|
  {
    if s != [] {
      assert MovesOn(next, s);
      var t := next(s, false);
      if t.Emit? {
        ScanBounded(first, next, limit, s[t.used..]);
      } else if t.Discard? {
        assert s[t.used..][0] == s[t.used];
      }
    }
  }

  lemma CopyingBounded(first: Pieces, next: Turns, limit: nat, stash: seq<Byte>, chunk: seq<Byte>)
    requires Steady(first, next) && Bounded(next, limit, stash, Copying) && |chunk| <= limit
    ensures var r := Scan(next, stash + chunk, false); Bounded(next, limit, r.rest, r.mode)
  {
    var s := stash + chunk;
    if |stash| < MAX_VALUE + 8 {
      ScanBounded(first, next, limit, s);
    } else {
      assert WaitIsShort(next, stash);
      assert OutgrowsWait(next, stash, chunk);
      assert MovesOn(next, s);
      var t := next(s, false);
      if t.Emit? {
        ScanBounded(first, next, limit, s[t.used..]);
      } else if t.Discard? {
        assert s[t.used..][0] == s[t.used];
      }
    }
  }

  lemma ProcessBounded(first: Pieces, next: Turns, limit: nat, stash: seq<Byte>, mode: Mode, chunk: seq<Byte>)
    requires Steady(first, next) && limit <= MAX_SAFE_CHUNK
    requires Bounded(next, limit, stash, mode) && |chunk| <= limit
    ensures var r := Process(next, stash + chunk, mode, false); Bounded(next, limit, r.rest, r.mode)
  {
    if mode == Copying {
      CopyingBounded(first, next, limit, stash, chunk);
    } else {
      var s := stash + chunk;
      var v := ValueLength(mode, s);
      if v < |s| {
        assert stash != [] ==> s[0] == stash[0];
        ScanBounded(first, next, limit, s[v + 1..]);
      }
    }
  }

  // ---- End of input ----

  lemma {:induction false} ScanFinal(first: Pieces, next: Turns, s: seq<Byte>)
    requires Steady(first, next) && Final(next, s)
    ensures var r := Scan(next, s, true);
            r.rest == [] && r.mode == Copying && OnePass(first, s) == Outcome(r.output, r.oversize)
    decreases |s|
  {
    assert LastTurnAgrees(first, next, s);
    if s != [] {
      match next(s, true)
      case Emit(output, used) => ScanFinal(first, next, s[used..]);
      case Finish(output) => assert s[|s|..] == [] && output + [] == output;
    }
  }

  /** The final call emits exactly what was still owed and leaves nothing behind. */
  lemma FlushAgrees(first: Pieces, next: Turns, limit: nat, stash: seq<Byte>, mode: Mode)
    requires Steady(first, next) && limit <= MAX_SAFE_CHUNK
    requires Bounded(next, limit, stash, mode)
    ensures var r := Process(next, stash, mode, true);
            r.rest == [] && r.mode == Copying && Resume(first, mode, stash) == Outcome(r.output, r.oversize)
  {
    if mode == Copying {
      ScanFinal(first, next, stash);
    } else {
      var v := ValueLength(mode, stash);
      if v < |stash| {
        ScanFinal(first, next, stash[v + 1..]);
      }
    }
  }

  // ---- Whole streams ----

  lemma {:induction false} StreamAgrees(first: Pieces, next: Turns, limit: nat, state: State, chunks: seq<seq<Byte>>)
    requires Faithful(first, next) && limit <= MAX_SAFE_CHUNK
    requires Bounded(next, limit, state.stash, state.mode)
    requires forall c :: c in chunks ==> |c| <= limit
    ensures var owed := Resume(first, state.mode, state.stash + Flatten(chunks));
            StreamFrom(next, state, chunks) == Outcome(owed.bytes, state.oversize > 0 || owed.oversize)
    decreases |chunks|
  {
    if chunks == [] {
      assert state.stash + [] == state.stash;
      FlushAgrees(first, next, limit, state.stash, state.mode);
      var out := Process(next, state.stash, state.mode, true).output;
      assert out + [] == out;
    } else {
      var f := Flatten(chunks[1..]);
      var (after, out) := Push(next, state, chunks[0]);
      assert state.stash + Flatten(chunks) == (state.stash + chunks[0]) + f;
      if chunks[0] == [] {
        assert state.stash + [] == state.stash;
        var rest := StreamFrom(next, state, chunks[1..]).bytes;
        assert [] + rest == rest;
      } else {
        ProcessBounded(first, next, limit, state.stash, state.mode, chunks[0]);
        ProcessAgrees(first, next, state.stash + chunks[0], state.mode, f);
      }
      StreamAgrees(first, next, limit, after, chunks[1..]);
    }
  }
}
