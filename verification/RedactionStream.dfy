/**
 * The streaming redactor as a function of its stash: what one call emits, what it
 * keeps for the next call, and whether it starts discarding an oversize value.
 */
module RedactionStream {
  import opened Bytes
  import opened RedactionReference

  /** Longest credential prefix, the opening quote, and a value of the maximal length. */
  const MAX_STASH := 15 + 1 + MAX_VALUE

  /** The largest chunk for which the stash bound and the end-of-input handling work out. */
  const MAX_SAFE_CHUNK := 65546

  datatype State = State(stash: seq<Byte>, mode: Mode, oversize: nat)

  const START := State([], Copying, 0)

  /** What is kept back because more bytes could turn it into a secret or a credential prefix. */
  predicate PartialSecret(secrets: seq<seq<Byte>>, s: seq<Byte>) {
    exists x :: x in secrets && |s| < |x| && s <= x
  }

  predicate PartialCredential(s: seq<Byte>) {
    exists c :: c in CREDENTIALS && ProperPrefixFold(s, c)
  }

  /** One turn of the redactor's loop on the bytes not yet looked at. */
  datatype Turn =
    | Wait                                              // keep everything for the next call
    | Emit(output: seq<Byte>, used: nat)                // and go on
    | Finish(output: seq<Byte>)                         // uses up everything
    | Discard(output: seq<Byte>, used: nat, mode: Mode) // an oversize value starts being dropped

  function CredentialTurn(s: seq<Byte>, p: nat, final: bool): (r: Turn)
    requires 0 < p <= |s|
    ensures r.Emit? || r.Discard? ==> 0 < r.used <= |s|
  {
    if |s| == p then if final then Finish(s + MARK) else Wait
    else ValueTurn(s, ValueStart(s, p), ValueMode(s, p), final)
  }

  /** A value that starts at `start`, with everything before it kept. */
  function ValueTurn(s: seq<Byte>, start: nat, mode: Mode, final: bool): (r: Turn)
    requires start <= |s|
    ensures r.Emit? || r.Discard? ==> 0 < r.used <= |s|
  {
    var v := ValueLength(mode, s[start..]);
    if start + v < |s| && v <= MAX_VALUE then Emit(s[..start] + MARK + [s[start + v]], start + v + 1)
    else if !final && |s| < start + MAX_VALUE + 1 then Wait
    else if |s| - start > MAX_VALUE && !(final && mode.Quoted?) then
      Discard(s[..start] + MARK, start + MAX_VALUE, mode)
    else Finish(s[..start] + MARK)
  }

  function NextTurn(secrets: seq<seq<Byte>>, s: seq<Byte>, final: bool): (r: Turn)
    requires s != []
    ensures r.Emit? || r.Discard? ==> 0 < r.used <= |s|
  {
    var p := CredentialLength(s);
    if p > 0 then CredentialTurn(s, p, final)
    else
      var n := LongestSecret(secrets, s);
      if n > 0 then Emit(MARK, n)
      else if !final && (PartialSecret(secrets, s) || PartialCredential(s)) then Wait
      else Emit([s[0]], 1)
  }

  /** The decision the loop takes on the bytes not yet looked at, for a call that is final or not. */
  type Turns = (seq<Byte>, bool) -> Turn

  function TurnsOf(secrets: seq<seq<Byte>>): Turns {
    (s: seq<Byte>, final: bool) => if s == [] then Finish([]) else NextTurn(secrets, s, final)
  }

  /** What one call emits and leaves behind. */
  datatype Scanned = Scanned(output: seq<Byte>, rest: seq<Byte>, mode: Mode, oversize: bool)

  function Scan(next: Turns, s: seq<Byte>, final: bool): (r: Scanned)
    decreases |s|
  {
    match next(s, final)
    case Emit(output, used) =>
      if 0 < used <= |s| then
        var r := Scan(next, s[used..], final);
        Scanned(output + r.output, r.rest, r.mode, r.oversize)
      else Scanned([], [], Copying, false)
    case Discard(output, used, mode) =>
      if used <= |s| then Scanned(output, s[used..], mode, true) else Scanned([], [], Copying, false)
    case Finish(output) => Scanned(output, [], Copying, false)
    case Wait => Scanned([], s, Copying, false)
  }

  /** One call on the whole stash, first dropping the rest of an oversize value. */
  function Process(next: Turns, s: seq<Byte>, mode: Mode, final: bool): (r: Scanned) {
    if mode == Copying then Scan(next, s, final)
    else
      var v := ValueLength(mode, s);
      if v < |s| then
        var r := Scan(next, s[v + 1..], final);
        Scanned([s[v]] + r.output, r.rest, r.mode, r.oversize)
      else Scanned([], [], if final then Copying else mode, false)
  }

  function Counted(before: nat, oversize: bool): nat {
    if before == 0 && oversize then 1 else before
  }

  function Push(next: Turns, state: State, chunk: seq<Byte>): (r: (State, seq<Byte>)) {
    if chunk == [] then (state, [])
    else
      var r := Process(next, state.stash + chunk, state.mode, false);
      (State(r.rest, r.mode, Counted(state.oversize, r.oversize)), r.output)
  }

  /** End of input: bytes the final call leaves behind are emitted as they are. */
  function Flush(next: Turns, state: State): (r: (State, seq<Byte>)) {
    var r := Process(next, state.stash, state.mode, true);
    (State([], Copying, Counted(state.oversize, r.oversize)), r.output + r.rest)
  }

  /** Everything emitted for a sequence of chunks followed by the end of input. */
  function StreamFrom(next: Turns, state: State, chunks: seq<seq<Byte>>): (r: Outcome)
    decreases |chunks|
  {
    if chunks == [] then
      var (last, out) := Flush(next, state);
      Outcome(out, last.oversize > 0)
    else
      var (after, out) := Push(next, state, chunks[0]);
      var rest := StreamFrom(next, after, chunks[1..]);
      Outcome(out + rest.bytes, rest.oversize)
  }

  function Stream(secrets: seq<seq<Byte>>, chunks: seq<seq<Byte>>): (r: Outcome) {
    StreamFrom(TurnsOf(secrets), START, chunks)
  }
}
