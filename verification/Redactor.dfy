/** The redactor object: a stash, a discard mode and an oversize counter, updated call by call. */
module Redactor {
  import opened Bytes
  import opened RedactionReference
  import opened RedactionStream
  import opened RedactionProof
  import RedactionTurns

  /** The configured secrets that are used: not empty and at most 64 KiB. */
  function Kept(options: seq<seq<Byte>>): (r: seq<seq<Byte>>)
    ensures Usable(r)
    ensures forall x :: x in r <==> x in options && 0 < |x| <= MAX_VALUE
  {
    if options == [] then []
    else if 0 < |options[0]| <= MAX_VALUE then [options[0]] + Kept(options[1..])
    else Kept(options[1..])
  }

  /** Where the first byte that ends the value stands in `buffer[start..limit]`, or -1. */
  method FindEnd(mode: Mode, buffer: seq<Byte>, start: nat, limit: nat) returns (at: int)
    requires mode != Copying && start <= limit <= |buffer|
    ensures at == -1 ==> start + ValueLength(mode, buffer[start..]) >= limit
    ensures at != -1 ==> start <= at < limit && at == start + ValueLength(mode, buffer[start..])
  {
    var i := start;
    at := -1;
    while i < limit
      invariant start <= i <= limit
      invariant at == -1
      invariant forall k :: start <= k < i ==> !Ends(mode, buffer[k])
    {
      if Ends(mode, buffer[i]) {
        at := i;
        ValueLengthIs(mode, buffer[start..], i - start);
        return;
      }
      i := i + 1;
    }
    ValueLengthIs(mode, buffer[start..], limit - start);
  }

  /** `whole` is what was emitted so far followed by what `r` still does. */
  ghost predicate Extends(whole: Scanned, emitted: seq<Byte>, r: Scanned) {
    whole == After(emitted, r)
  }

  function After(output: seq<Byte>, r: Scanned): Scanned {
    Scanned(output + r.output, r.rest, r.mode, r.oversize)
  }

  /** What one turn of the loop at position `pos` does to what was emitted so far. */
  lemma TurnStep(next: Turns, bytes: seq<Byte>, pos: nat, final: bool, turn: Turn, whole: Scanned, emitted: seq<Byte>)
    requires pos < |bytes| && turn == next(bytes[pos..], final)
    requires turn.Emit? ==> 0 < turn.used <= |bytes| - pos
    requires turn.Discard? ==> turn.mode != Copying && turn.used <= |bytes| - pos
    requires Extends(whole, emitted, Scan(next, bytes[pos..], final))
    ensures turn.Wait? ==> whole == Scanned(emitted, bytes[pos..], Copying, false)
    ensures turn.Finish? ==> whole == Scanned(emitted + turn.output, [], Copying, false)
    ensures turn.Discard? ==>
              whole == Scanned(emitted + turn.output, bytes[pos + turn.used..], turn.mode, true)
    ensures turn.Emit? ==>
              Extends(whole, emitted + turn.output, Scan(next, bytes[pos + turn.used..], final))
  {
    match turn
    case Wait => assert emitted + [] == emitted;
    case Finish(_) =>
    case Discard(_, used, _) => assert bytes[pos..][used..] == bytes[pos + used..];
    case Emit(output, used) =>
      assert bytes[pos..][used..] == bytes[pos + used..];
      var r := Scan(next, bytes[pos + used..], final);
      assert (emitted + output) + r.output == emitted + (output + r.output);
  }

  /** `next` takes the decisions of the redactor configured with `secrets`. */
  ghost predicate Decides(next: Turns, secrets: seq<seq<Byte>>) {
    forall s, final :: DecidesAt(next, secrets, s, final)
  }

  ghost predicate DecidesAt(next: Turns, secrets: seq<seq<Byte>>, s: seq<Byte>, final: bool) {
    next(s, final) == TurnsOf(secrets)(s, final)
  }

  lemma NothingScanned(secrets: seq<seq<Byte>>, final: bool)
    ensures Scan(TurnsOf(secrets), [], final) == Scanned([], [], Copying, false)
  {
  }

  lemma LoopStarts(next: Turns, bytes: seq<Byte>, final: bool)
    ensures Extends(Scan(next, bytes, final), [], Scan(next, bytes[0..], final))
  {
  }

  lemma LoopEnds(next: Turns, secrets: seq<seq<Byte>>, bytes: seq<Byte>, final: bool, whole: Scanned,
          emitted: seq<Byte>)
    requires Decides(next, secrets)
    requires Extends(whole, emitted, Scan(next, bytes[|bytes|..], final))
    ensures whole == Scanned(emitted, bytes[|bytes|..], Copying, false)
  {
    assert DecidesAt(next, secrets, [], final);
    assert bytes[|bytes|..] == [] && emitted + [] == emitted;
  }

  class Redactor {
    const secrets: seq<seq<Byte>>
    var stash: seq<Byte>
    var discarding: Mode
    var oversizeCount: nat

    constructor (options: seq<seq<Byte>>)
      ensures secrets == Kept(options)
      ensures StateOf() == START
    {
      secrets := Kept(options);
      stash, discarding, oversizeCount := [], Copying, 0;
    }

    function StateOf(): State
      reads this
    {
      State(stash, discarding, oversizeCount)
    }

    method FindLongestSecretAtStart(buffer: seq<Byte>) returns (longest: nat)
      ensures longest == LongestSecret(secrets, buffer)
    {
      longest := 0;
      var i := 0;
      assert secrets[0..] == secrets;
      while i < |secrets|
        invariant i <= |secrets|
        invariant LongestSecret(secrets, buffer) ==
                  var rest := LongestSecret(secrets[i..], buffer);
                  if rest > longest then rest else longest
      {
        assert secrets[i..][1..] == secrets[i + 1..];
        if secrets[i] <= buffer && |secrets[i]| > longest {
          longest := |secrets[i]|;
        }
        i := i + 1;
      }
    }

    /** What the loop does with a credential prefix of length `p` at the start of `remaining`. */
    method CredentialStep(remaining: seq<Byte>, p: nat, isFinal: bool) returns (turn: Turn)
      requires 0 < p <= |remaining|
      ensures turn == CredentialTurn(remaining, p, isFinal)
    {
      if |remaining| <= p {
        assert remaining[..p] == remaining;
        return if isFinal then Finish(remaining[..p] + MARK) else Wait;
      }
      var quoted := IsQuote(remaining[p]);
      var mode := if quoted then Quoted(remaining[p]) else Unquoted;
      var start := if quoted then p + 1 else p;
      turn := ValueStep(remaining, start, mode, isFinal);
    }

    method ValueStep(remaining: seq<Byte>, start: nat, mode: Mode, isFinal: bool) returns (turn: Turn)
      requires start <= |remaining| && mode != Copying
      ensures turn == ValueTurn(remaining, start, mode, isFinal)
    {
      var limit := if |remaining| < start + MAX_VALUE + 1 then |remaining| else start + MAX_VALUE + 1;
      var at := FindEnd(mode, remaining, start, limit);
      if at != -1 {
        return Emit(remaining[..start] + MARK + [remaining[at]], at + 1);
      }
      if !isFinal && |remaining| < start + MAX_VALUE + 1 {
        return Wait;
      }
      if |remaining| - start > MAX_VALUE && !(isFinal && mode.Quoted?) {
        return Discard(remaining[..start] + MARK, start + MAX_VALUE, mode);
      }
      return Finish(remaining[..start] + MARK);
    }

    /** One turn of the loop on the bytes not yet looked at. */
    method TurnAt(remaining: seq<Byte>, isFinal: bool) returns (turn: Turn)
      requires remaining != []
      ensures turn == NextTurn(secrets, remaining, isFinal)
      ensures turn.Emit? ==> 0 < turn.used <= |remaining|
      ensures turn.Discard? ==> turn.mode != Copying && turn.used <= |remaining|
    {
      var cred := CredentialLength(remaining);
      if cred > 0 {
        turn := CredentialStep(remaining, cred, isFinal);
        return;
      }
      var longest := FindLongestSecretAtStart(remaining);
      if longest > 0 {
        return Emit(MARK, longest);
      }
      if !isFinal && (PartialSecret(secrets, remaining) || PartialCredential(remaining)) {
        return Wait;
      }
      return Emit([remaining[0]], 1);
    }

    /** Drops the rest of an oversize value from the stash; `pos` is where ordinary processing goes on. */
    method SkipValue(isFinal: bool) returns (out: seq<Byte>, pos: nat)
      requires discarding != Copying
      modifies this`discarding
      ensures var v := ValueLength(old(discarding), stash);
              if v < |stash| then out == [stash[v]] && pos == v + 1 && discarding == Copying
              else out == [] && pos == |stash| && discarding == (if isFinal then Copying else old(discarding))
    {
      var at := FindEnd(discarding, stash, 0, |stash|);
      assert stash[0..] == stash;
      if at != -1 {
        out, pos := [stash[at]], at + 1;
        discarding := Copying;
      } else {
        out, pos := [], |stash|;
        if isFinal {
          discarding := Copying;
        }
      }
    }

    /** Withheld bytes first, then the loop over the rest of the stash. */
    method ProcessChunk(isFinal: bool) returns (emitted: seq<Byte>)
      modifies this
      ensures var r := Process(TurnsOf(secrets), old(stash), old(discarding), isFinal);
              && emitted == r.output
              && StateOf() == State(r.rest, r.mode, Counted(old(oversizeCount), r.oversize))
    {
      hide Scan;
      var head: seq<Byte>, pos: nat := [], 0;
      if discarding != Copying {
        head, pos := SkipValue(isFinal);
        if discarding != Copying {
          stash := stash[pos..];
          return head;
        }
      }
      assert stash[0..] == stash;
      NothingScanned(secrets, isFinal);
      var rest, used, found := ScanLoop(TurnsOf(secrets), stash[pos..], isFinal);
      emitted := head + rest;
      assert stash[pos..][used..] == stash[pos + used..];
      discarding := found;
      if found != Copying && oversizeCount == 0 {
        oversizeCount := 1;
      }
      stash := stash[pos + used..];
    }

    /** The loop itself: what is emitted, how many bytes are used up, and what is being discarded at the end. */
    method ScanLoop(ghost next: Turns, bytes: seq<Byte>, isFinal: bool) returns (emitted: seq<Byte>, pos: nat,
            found: Mode)
      requires Decides(next, secrets)
      ensures pos <= |bytes|
      ensures Scan(next, bytes, isFinal) == Scanned(emitted, bytes[pos..], found, found != Copying)
    {
      hide Scan, Extends, Decides;
      emitted, pos, found := [], 0, Copying;
      ghost var whole := Scan(next, bytes, isFinal);
      LoopStarts(next, bytes, isFinal);
      while pos < |bytes|
        invariant pos <= |bytes| && found == Copying
        invariant Extends(whole, emitted, Scan(next, bytes[pos..], isFinal))
      {
        var output, used, mode, stop := Advance(next, bytes, pos, isFinal, whole, emitted);
        emitted, pos, found := emitted + output, pos + used, mode;
        if stop {
          return;
        }
      }
      LoopEnds(next, secrets, bytes, isFinal, whole, emitted);
    }

    /** The turn the redactor decides on. */
    method Decide(ghost next: Turns, remaining: seq<Byte>, isFinal: bool) returns (turn: Turn)
      requires Decides(next, secrets) && remaining != []
      ensures turn == next(remaining, isFinal)
      ensures turn.Emit? ==> 0 < turn.used <= |remaining|
      ensures turn.Discard? ==> turn.mode != Copying && turn.used <= |remaining|
    {
      assert DecidesAt(next, secrets, remaining, isFinal);
      turn := TurnAt(remaining, isFinal);
    }

    /**
     * The turn at position `pos`: what it emits, the bytes it uses, what it starts discarding,
     * and whether the loop stops.
     */
    method Advance(ghost next: Turns, bytes: seq<Byte>, pos: nat, isFinal: bool, ghost whole: Scanned,
            ghost emitted: seq<Byte>)
      returns (output: seq<Byte>, used: nat, mode: Mode, stop: bool)
      requires Decides(next, secrets) && pos < |bytes|
      requires Extends(whole, emitted, Scan(next, bytes[pos..], isFinal))
      ensures pos + used <= |bytes|
      ensures stop ==> whole == Scanned(emitted + output, bytes[pos + used..], mode, mode != Copying)
      ensures !stop ==>
                && 0 < used
                && mode == Copying
                && Extends(whole, emitted + output, Scan(next, bytes[pos + used..], isFinal))
    {
      var turn := Decide(next, bytes[pos..], isFinal);
      TurnStep(next, bytes, pos, isFinal, turn, whole, emitted);
      match turn {
        case Wait =>
          output, used, mode, stop := [], 0, Copying, true;
          assert emitted + [] == emitted;
        case Finish(out) =>
          assert bytes[|bytes|..] == [];
          output, used, mode, stop := out, |bytes| - pos, Copying, true;
        case Discard(out, n, m) =>
          output, used, mode, stop := out, n, m, true;
        case Emit(out, n) =>
          output, used, mode, stop := out, n, Copying, false;
      }
    }

    method Push(chunk: seq<Byte>) returns (out: seq<Byte>)
      modifies this
      ensures (StateOf(), out) == RedactionStream.Push(TurnsOf(secrets), old(StateOf()), chunk)
    {
      if |chunk| == 0 {
        return [];
      }
      stash := stash + chunk;
      out := ProcessChunk(false);
    }

    /** End of input; bytes the last call leaves behind, if any, come out as they are. */
    method Flush() returns (out: seq<Byte>)
      modifies this
      ensures (StateOf(), out) == RedactionStream.Flush(TurnsOf(secrets), old(StateOf()))
    {
      out := ProcessChunk(true);
      discarding := Copying;
      out := out + stash;
      stash := [];
    }

    /** How much is buffered after the given reads: never more than a prefix, a quote and a value. */
    method BufferedBytes(ghost chunks: seq<seq<Byte>>) returns (n: nat)
      requires StateOf() == RedactionTurns.Fed(TurnsOf(secrets), chunks).0 && Usable(secrets)
      ensures n == |stash|
      ensures (forall c :: c in chunks ==> |c| <= MAX_SAFE_CHUNK) ==>
                n <= MAX_STASH == 65552 && (discarding != Copying ==> n <= MAX_SAFE_CHUNK)
    {
      if forall c :: c in chunks ==> |c| <= MAX_SAFE_CHUNK {
        RedactionTurns.StashStaysBounded(secrets, chunks, MAX_SAFE_CHUNK);
      }
      n := |stash|;
    }
  }
}
