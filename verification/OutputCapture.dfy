/**
 * A supervised process: its output is redacted and collected as it arrives, and its
 * result settles once, whether the process closes, is cancelled, or both race.
 */
module OutputCapture {
  import opened Bytes
  import opened RedactionReference
  import opened RedactionStream
  import opened RedactionProof
  import opened RedactionTurns
  import opened BoundedOutput
  import opened Wrappers
  import R = Redactor

  const RETAINED_OUTPUT := 16777216 // 16 MiB

  /** What the tail completes: all output, and whether an oversize value was dropped. */
  lemma FlushCompletes(secrets: seq<seq<Byte>>, chunks: seq<seq<Byte>>)
    ensures var (state, out) := Fed(TurnsOf(secrets), chunks);
            var (last, tail) := Flush(TurnsOf(secrets), state);
            Stream(secrets, chunks) == Outcome(out + tail, last.oversize > 0)
  {
    FedStreams(TurnsOf(secrets), chunks, []);
    assert chunks + [] == chunks;
  }

  function TotalLength(chunks: seq<seq<Byte>>): nat {
    |Flatten(chunks)|
  }

  /** One output stream of the process: a redactor feeding a collector. */
  class Channel {
    const redactor: R.Redactor
    const collector: BoundedCollector
    ghost var chunks: seq<seq<Byte>> // what the process wrote, read by read
    ghost var open: bool             // no tail flushed yet

    ghost predicate Valid()
      reads this, redactor, collector
    {
      && collector.Valid()
      && collector.limit == RETAINED_OUTPUT
      && (open ==>
            && (redactor.StateOf(), collector.produced) == Fed(TurnsOf(redactor.secrets), chunks)
            && collector.inputBytesSeen == TotalLength(chunks))
    }

    constructor (secrets: seq<seq<Byte>>)
      ensures Valid() && fresh(redactor) && fresh(collector)
      ensures open && chunks == [] && redactor.secrets == R.Kept(secrets)
    {
      redactor := new R.Redactor(secrets);
      collector := new BoundedCollector(RETAINED_OUTPUT);
      chunks, open := [], true;
    }

    /** The handler of a read from the process. */
    method OnData(chunk: seq<Byte>)
      requires Valid()
      modifies this, redactor, collector
      ensures Valid() && open == old(open)
      ensures chunks == old(chunks) + [chunk]
    {
      var redacted := redactor.Push(chunk);
      collector.Push(|chunk|, redacted);
      FlattenAppend(chunks, chunk);
      chunks := chunks + [chunk];
      assert chunks[..|chunks| - 1] == old(chunks);
    }

    /** Flushes the tail into the collector and reads the result. */
    method Finish() returns (bytes: seq<Byte>, meta: TruncationMeta)
      requires Valid() && open
      modifies this, redactor, collector
      ensures Valid() && !open && chunks == old(chunks)
      ensures var whole := Stream(redactor.secrets, chunks).bytes;
              bytes == Take(whole, RETAINED_OUTPUT) && Describes(meta, RETAINED_OUTPUT, TotalLength(chunks), |whole|)
    {
      FlushCompletes(redactor.secrets, chunks);
      var tail := redactor.Flush();
      if |tail| > 0 {
        collector.Push(0, tail);
      }
      assert collector.produced == old(collector.produced) + tail;
      open := false;
      meta := collector.Meta();
      bytes := collector.Combined();
    }
  }

  /** What a settled run reports about one stream. */
  datatype Captured = Captured(bytes: seq<Byte>, meta: TruncationMeta)

  datatype ProcessResult = Unsettled | Settled(
    exitCode: int, stdout: Captured, stderr: Captured, truncated: bool, cleanupFailed: bool)

  /** The capture of a stream that wrote `chunks`: the first 16 MiB of the redaction of all its bytes. */
  ghost predicate Captures(c: Captured, secrets: seq<seq<Byte>>, chunks: seq<seq<Byte>>) {
    var whole := Stream(secrets, chunks).bytes;
    c.bytes == Take(whole, RETAINED_OUTPUT) && Describes(c.meta, RETAINED_OUTPUT, TotalLength(chunks), |whole|)
  }

  /** The same in terms of the reference, for configurations whose chunk boundaries never show. */
  lemma CapturesReference(c: Captured, secrets: seq<seq<Byte>>, chunks: seq<seq<Byte>>)
    requires Captures(c, secrets, chunks)
    requires Usable(secrets) && ChunkSafe(secrets)
    requires forall x :: x in chunks ==> |x| <= MAX_SAFE_CHUNK
    ensures var whole := Reference(secrets, Flatten(chunks)).bytes;
            && c.bytes == (if |whole| <= 16777216 then whole else whole[..16777216])
            && c.meta.bytesRetained == |c.bytes|
            && c.meta.redactedBytesProduced == |whole| == c.meta.bytesRetained + c.meta.bytesDropped
            && (c.meta.truncated <==> |whole| > 16777216)
            && c.meta.firstDropped == (if |whole| > 16777216 then At(16777216) else NoOffset)
            && c.meta.inputBytesSeen == |Flatten(chunks)|
  {
    StreamIsReference(secrets, MAX_SAFE_CHUNK, chunks);
  }

  datatype Cancellation = NotStarted | Running | Done

  /** One event of a supervised process; events may come in any order. */
  datatype Event =
    | Stdout(chunk: seq<Byte>)
    | Stderr(chunk: seq<Byte>)
    | Cancel
    | CancelFinished(termDenied: bool, goneAfterTerm: bool, killDenied: bool, goneAfterKill: bool, exitCode: int)
    | Close(exitCode: int)

  /** What an event brings to standard output, or to standard error. */
  function Reads(event: Event, toStderr: bool): seq<seq<Byte>> {
    match event
    case Stdout(chunk) => if toStderr then [] else [chunk]
    case Stderr(chunk) => if toStderr then [chunk] else []
    case _ => []
  }

  function WorkAfter(work: Cancellation, event: Event): Cancellation {
    if event.Cancel? && work == NotStarted then Running
    else if event.CancelFinished? && work == Running then Done
    else work
  }

  /** A close settles the result unless cancellation is at work; then the end of that work does. */
  predicate SettledBy(work: Cancellation, event: Event) {
    if work == Running then event.CancelFinished? else event.Close?
  }

  /** Everything the events so far brought to one of the streams, read by read. */
  function Written(events: seq<Event>, toStderr: bool): seq<seq<Byte>> {
    if events == [] then []
    else Written(events[..|events| - 1], toStderr) + Reads(events[|events| - 1], toStderr)
  }

  function WorkOf(events: seq<Event>): Cancellation {
    if events == [] then NotStarted
    else WorkAfter(WorkOf(events[..|events| - 1]), events[|events| - 1])
  }

  /** The event at index `i` is one that settles an unsettled result. */
  predicate SettlesAt(events: seq<Event>, i: nat)
    requires i < |events|
  {
    SettledBy(WorkOf(events[..i]), events[i])
  }

  /**
   * What a run has done so far: cancellation work, what was read, and by which event (if any)
   * the result settled with what.
   */
  datatype Progress = Progress(
    work: Cancellation,
    out: seq<seq<Byte>>,
    err: seq<seq<Byte>>,
    settledBy: Option<Event>,
    settledOut: seq<seq<Byte>>,
    settledErr: seq<seq<Byte>>)
  {
    predicate Settled() {
      settledBy.Some?
    }
  }

  /** The exit code a settling event brings. */
  function ExitOf(event: Event): int {
    match event
    case CancelFinished(_, _, _, _, exitCode) => exitCode
    case Close(exitCode) => exitCode
    case _ => 0
  }

  /**
   * Whether the cleanup that a settling event ends failed: a signal was refused, or the group
   * outlived the last wait.
   */
  predicate CleanupFailed(event: Event) {
    match event
    case CancelFinished(termDenied, goneAfterTerm, killDenied, goneAfterKill, _) =>
      termDenied || (!goneAfterTerm && (killDenied || !goneAfterKill))
    case _ => false
  }

  /** `p` is where a run that saw exactly `events` stands, its result settled at index `at` if at all. */
  ghost predicate Traces(p: Progress, events: seq<Event>, at: nat) {
    && p.work == WorkOf(events) && p.out == Written(events, false) && p.err == Written(events, true)
    && (forall k :: 0 <= k < |events| && (p.Settled() ==> k < at) ==> !SettlesAt(events, k))
    && (p.Settled() ==>
          && at < |events| && SettlesAt(events, at) && p.settledBy == Some(events[at])
          && p.settledOut == Written(events[..at + 1], false) && p.settledErr == Written(events[..at + 1], true))
  }

  const IDLE := Progress(NotStarted, [], [], None, [], [])

  function Next(p: Progress, event: Event): Progress {
    var out, err := p.out + Reads(event, false), p.err + Reads(event, true);
    if !p.Settled() && SettledBy(p.work, event)
    then Progress(WorkAfter(p.work, event), out, err, Some(event), out, err)
    else Progress(WorkAfter(p.work, event), out, err, p.settledBy, p.settledOut, p.settledErr)
  }

  function After(p: Progress, events: seq<Event>): Progress
    decreases |events|
  {
    if events == [] then p else After(Next(p, events[0]), events[1..])
  }

  /** What one more event adds. */
  lemma OneMoreEvent(events: seq<Event>, event: Event)
    ensures var longer := events + [event];
            && WorkOf(longer) == WorkAfter(WorkOf(events), event)
            && Written(longer, false) == Written(events, false) + Reads(event, false)
            && Written(longer, true) == Written(events, true) + Reads(event, true)
            && (SettlesAt(longer, |events|) <==> SettledBy(WorkOf(events), event))
  {
    var longer := events + [event];
    assert longer[..|longer| - 1] == events && longer[..|events|] == events;
  }

  /** Whether an event settles the result depends on nothing behind it. */
  lemma SettlesSame(events: seq<Event>, event: Event, k: nat)
    requires k < |events|
    ensures SettlesAt(events + [event], k) == SettlesAt(events, k)
  {
    assert (events + [event])[..k] == events[..k];
  }

  lemma TracesOn(p: Progress, events: seq<Event>, at: nat, event: Event)
    requires Traces(p, events, at)
    ensures Traces(Next(p, event), events + [event], if p.Settled() then at else |events|)
  {
    hide WorkOf, Written, WorkAfter, SettledBy, SettlesAt;
    var longer := events + [event];
    OneMoreEvent(events, event);
    forall k | 0 <= k < |events|
      ensures SettlesAt(longer, k) == SettlesAt(events, k)
    {
      SettlesSame(events, event, k);
    }
    assert longer[..|longer|] == longer;
    if p.Settled() {
      assert longer[..at + 1] == events[..at + 1];
    }
  }

  /** Where a run stands is told by its first settling event. */
  lemma {:induction false} AfterTraces(p: Progress, seen: seq<Event>, at: nat, events: seq<Event>)
      returns (settledAt: nat)
    requires Traces(p, seen, at)
    ensures Traces(After(p, events), seen + events, settledAt)
    decreases |events|
  {
    if events == [] {
      assert seen + events == seen;
      settledAt := at;
    } else {
      TracesOn(p, seen, at, events[0]);
      settledAt := AfterTraces(Next(p, events[0]), seen + [events[0]], if p.Settled() then at else |seen|, events[1..]);
      assert (seen + [events[0]]) + events[1..] == seen + events;
    }
  }

  // ---- When the result settles, in terms of the events before ----

  predicate CancelBefore(events: seq<Event>, i: nat) {
    exists c :: 0 <= c < i && c < |events| && events[c].Cancel?
  }

  /** The cancellation work started and came to its end. */
  predicate CancelOverBefore(events: seq<Event>, i: nat) {
    exists c, f :: 0 <= c < f < i && f < |events| && events[c].Cancel? && events[f].CancelFinished?
  }

  lemma {:induction false} WorkIs(events: seq<Event>)
    ensures WorkOf(events) != NotStarted <==> CancelBefore(events, |events|)
    ensures WorkOf(events) == Done <==> CancelOverBefore(events, |events|)
  {
    if events != [] {
      var n := |events| - 1;
      WorkIs(events[..n]);
      assert CancelBefore(events, |events|) <==> CancelBefore(events[..n], n) || events[n].Cancel?;
      OverGrows(events);
    }
  }

  lemma OverGrows(events: seq<Event>)
    requires events != []
    ensures var n := |events| - 1;
            CancelOverBefore(events, |events|) <==>
            CancelOverBefore(events[..n], n) || (events[n].CancelFinished? && CancelBefore(events[..n], n))
  {
    var n := |events| - 1;
    if CancelOverBefore(events[..n], n) {
      var c, f :| 0 <= c < f < n && events[..n][c].Cancel? && events[..n][f].CancelFinished?;
      assert events[c].Cancel? && events[f].CancelFinished?;
    }
    if events[n].CancelFinished? && CancelBefore(events[..n], n) {
      var c :| 0 <= c < n && events[..n][c].Cancel?;
      assert events[c].Cancel?;
    }
    if CancelOverBefore(events, |events|) {
      var c, f :| 0 <= c < f < |events| && events[c].Cancel? && events[f].CancelFinished?;
      assert events[..n][c].Cancel?;
      assert f < n ==> events[..n][f].CancelFinished?;
    }
  }

  /**
   * The result can settle at a close that no cancellation work is under way for, and at the end
   * of that work: after a cancel, the first time it ends.
   */
  lemma SettlesExactly(events: seq<Event>, i: nat)
    requires i < |events|
    ensures SettlesAt(events, i) <==>
            || (events[i].Close? && (CancelBefore(events, i) ==> CancelOverBefore(events, i)))
            || (events[i].CancelFinished? && CancelBefore(events, i) && !CancelOverBefore(events, i))
  {
    var before := events[..i];
    WorkIs(before);
    assert CancelBefore(before, i) <==> CancelBefore(events, i);
    if CancelOverBefore(events, i) {
      var c, f :| 0 <= c < f < i && events[c].Cancel? && events[f].CancelFinished?;
      assert before[c].Cancel? && before[f].CancelFinished?;
    }
    if CancelOverBefore(before, i) {
      var c, f :| 0 <= c < f < i && before[c].Cancel? && before[f].CancelFinished?;
      assert events[c].Cancel? && events[f].CancelFinished?;
    }
  }

  class SupervisedProcess {
    const stdout: Channel
    const stderr: Channel
    var cancelRequested: bool
    var cancellationWork: Cancellation
    var cleanupFailed: bool
    var resultSettled: bool
    var result: ProcessResult
    ghost var settledStdout: seq<seq<Byte>> // what had been read when the result settled
    ghost var settledStderr: seq<seq<Byte>>
    ghost var settledBy: Option<Event>      // and which event settled it

    ghost predicate Valid()
      reads this, stdout, stdout.redactor, stdout.collector, stderr, stderr.redactor, stderr.collector
    {
      Consistent() && (cleanupFailed ==> resultSettled)
    }

    /** Valid, but for a cleanup that failed and whose result has yet to settle. */
    ghost predicate Consistent()
      reads this, stdout, stdout.redactor, stdout.collector, stderr, stderr.redactor, stderr.collector
    {
      && stdout.Valid() && stderr.Valid()
      && stdout != stderr && stdout.redactor != stderr.redactor && stdout.collector != stderr.collector
      && stdout.open == stderr.open == !resultSettled
      && (resultSettled <==> result.Settled?) && (resultSettled <==> settledBy.Some?)
      && (cancellationWork != NotStarted <==> cancelRequested)
      && (cancellationWork == Done ==> resultSettled)
      && (resultSettled ==>
            && Captures(result.stdout, stdout.redactor.secrets, settledStdout)
            && Captures(result.stderr, stderr.redactor.secrets, settledStderr)
            && result.truncated == (result.stdout.meta.truncated || result.stderr.meta.truncated)
            && result.exitCode == ExitOf(settledBy.value) && result.cleanupFailed == CleanupFailed(settledBy.value)
            && settledStdout <= stdout.chunks && settledStderr <= stderr.chunks)
    }

    ghost function Frame(): set<object>
      reads this
    {
      {this, stdout, stdout.redactor, stdout.collector, stderr, stderr.redactor, stderr.collector}
    }

    ghost function ProgressOf(): Progress
      reads this, stdout, stderr
    {
      Progress(cancellationWork, stdout.chunks, stderr.chunks, settledBy, settledStdout, settledStderr)
    }

    constructor (secrets: seq<seq<Byte>>)
      ensures Valid() && fresh(Frame())
      ensures stdout.redactor.secrets == stderr.redactor.secrets == R.Kept(secrets)
      ensures ProgressOf() == IDLE && result == Unsettled && !cancelRequested && !cleanupFailed
    {
      hide Captures, Channel.Valid;
      stdout := new Channel(secrets);
      stderr := new Channel(secrets);
      cancelRequested, cancellationWork, cleanupFailed, resultSettled := false, NotStarted, false, false;
      result := Unsettled;
      settledStdout, settledStderr, settledBy := [], [], None;
    }

    method OnStdout(chunk: seq<Byte>)
      requires Valid()
      modifies stdout, stdout.redactor, stdout.collector
      ensures Valid() && ProgressOf() == Next(old(ProgressOf()), Stdout(chunk))
    {
      hide Captures, Channel.Valid;
      stdout.OnData(chunk);
    }

    method OnStderr(chunk: seq<Byte>)
      requires Valid()
      modifies stderr, stderr.redactor, stderr.collector
      ensures Valid() && ProgressOf() == Next(old(ProgressOf()), Stderr(chunk))
    {
      hide Captures, Channel.Valid;
      stderr.OnData(chunk);
    }

    /** Flushes both tails. */
    method FinishBoth() returns (out: Captured, err: Captured)
      requires stdout.Valid() && stderr.Valid() && stdout.open && stderr.open
      requires stdout != stderr && stdout.redactor != stderr.redactor && stdout.collector != stderr.collector
      modifies stdout, stdout.redactor, stdout.collector, stderr, stderr.redactor, stderr.collector
      ensures stdout.Valid() && stderr.Valid() && !stdout.open && !stderr.open
      ensures stdout.chunks == old(stdout.chunks) && stderr.chunks == old(stderr.chunks)
      ensures Captures(out, stdout.redactor.secrets, stdout.chunks)
      ensures Captures(err, stderr.redactor.secrets, stderr.chunks)
    {
      var outBytes, outMeta := stdout.Finish();
      var errBytes, errMeta := stderr.Finish();
      out, err := Captured(outBytes, outMeta), Captured(errBytes, errMeta);
    }

    /** Settles the result from everything read so far; every later call leaves it alone. */
    method SettleResult(exitCode: int, ghost event: Event)
      requires Consistent() && exitCode == ExitOf(event) && (!resultSettled ==> cleanupFailed == CleanupFailed(event))
      modifies Frame()
      ensures Valid() && resultSettled
      ensures unchanged(this`cancelRequested) && unchanged(this`cancellationWork) && unchanged(this`cleanupFailed)
      ensures stdout.chunks == old(stdout.chunks) && stderr.chunks == old(stderr.chunks)
      ensures old(resultSettled) ==> result == old(result) && settledBy == old(settledBy)
      ensures old(resultSettled) ==> settledStdout == old(settledStdout) && settledStderr == old(settledStderr)
      ensures !old(resultSettled) ==>
                settledBy == Some(event) && settledStdout == stdout.chunks && settledStderr == stderr.chunks
    {
      hide Captures, Channel.Valid;
      if resultSettled {
        return;
      }
      resultSettled := true;
      var out, err := FinishBoth();
      Record(Settled(exitCode, out, err, out.meta.truncated || err.meta.truncated, cleanupFailed), event);
    }

    /** What the result is, once both tails are flushed. */
    method Record(settled: ProcessResult, ghost event: Event)
      requires stdout.Valid() && stderr.Valid() && !stdout.open && !stderr.open && resultSettled && settled.Settled?
      requires stdout != stderr && stdout.redactor != stderr.redactor && stdout.collector != stderr.collector
      requires cancellationWork != NotStarted <==> cancelRequested
      requires Captures(settled.stdout, stdout.redactor.secrets, stdout.chunks)
      requires Captures(settled.stderr, stderr.redactor.secrets, stderr.chunks)
      requires settled.truncated == (settled.stdout.meta.truncated || settled.stderr.meta.truncated)
      requires settled.exitCode == ExitOf(event) && settled.cleanupFailed == CleanupFailed(event)
      modifies this`result, this`settledStdout, this`settledStderr, this`settledBy
      ensures Consistent() && result == settled && settledBy == Some(event)
      ensures settledStdout == stdout.chunks && settledStderr == stderr.chunks
    {
      hide Captures, Channel.Valid;
      result := settled;
      settledStdout, settledStderr, settledBy := stdout.chunks, stderr.chunks, Some(event);
    }

    /** Cancel asked for: the signalling work starts at most once. */
    method DoCancel()
      requires Valid()
      modifies this`cancelRequested, this`cancellationWork
      ensures Valid() && cancelRequested
      ensures ProgressOf() == Next(old(ProgressOf()), Cancel)
    {
      hide Captures, Channel.Valid;
      cancelRequested := true;
      if cancellationWork == NotStarted {
        cancellationWork := Running;
      }
    }

    /** A signal that was refused, or a process group still there after the last wait, means cleanup failed. */
    method NoteCleanup(termDenied: bool, goneAfterTerm: bool, killDenied: bool, goneAfterKill: bool)
      modifies this`cleanupFailed
      ensures cleanupFailed == (old(cleanupFailed) || termDenied || (!goneAfterTerm && (killDenied || !goneAfterKill)))
    {
      if termDenied {
        cleanupFailed := true;
      }
      if !goneAfterTerm {
        if killDenied {
          cleanupFailed := true;
        }
        if !goneAfterKill {
          cleanupFailed := true;
        }
      }
    }

    /**
     * The end of the cancellation work, given what signalling and waiting for the process
     * group found; it settles the result when no close event has.
     */
    method FinishCancellation(termDenied: bool, goneAfterTerm: bool, killDenied: bool, goneAfterKill: bool,
            exitCode: int)
      requires Valid() && cancellationWork == Running
      modifies Frame()
      ensures Valid()
      ensures ProgressOf() ==
              Next(old(ProgressOf()), CancelFinished(termDenied, goneAfterTerm, killDenied, goneAfterKill, exitCode))
      ensures cleanupFailed == (old(cleanupFailed) || termDenied || (!goneAfterTerm && (killDenied || !goneAfterKill)))
      ensures old(resultSettled) ==> result == old(result)
      ensures !old(resultSettled) ==> result.cleanupFailed == cleanupFailed && result.exitCode == exitCode
    {
      hide Captures, Channel.Valid, Next;
      NoteCleanup(termDenied, goneAfterTerm, killDenied, goneAfterKill);
      SettleAndEnd(exitCode, CancelFinished(termDenied, goneAfterTerm, killDenied, goneAfterKill, exitCode));
    }

    /** The result settles, if it has not, and the cancellation work is done. */
    method SettleAndEnd(exitCode: int, ghost event: Event)
      requires Consistent() && cancellationWork == Running && event.CancelFinished? && exitCode == ExitOf(event)
      requires !resultSettled ==> cleanupFailed == CleanupFailed(event)
      modifies Frame()
      ensures Valid() && ProgressOf() == Next(old(ProgressOf()), event) && cleanupFailed == old(cleanupFailed)
      ensures old(resultSettled) ==> result == old(result)
      ensures !old(resultSettled) ==> result.cleanupFailed == cleanupFailed && result.exitCode == exitCode
    {
      hide Captures, Channel.Valid;
      SettleResult(exitCode, event);
      EndWork();
    }

    method EndWork()
      requires Valid() && cancellationWork == Running && resultSettled
      modifies this`cancellationWork
      ensures Valid() && cancellationWork == Done
    {
      hide Captures, Channel.Valid;
      cancellationWork := Done;
    }

    /** The close event: after a cancel it settles only once the cancellation work is done. */
    method OnClose(exitCode: int)
      requires Valid()
      modifies Frame()
      ensures Valid() && cleanupFailed == old(cleanupFailed)
      ensures ProgressOf() == Next(old(ProgressOf()), Close(exitCode))
      ensures old(resultSettled) ==> result == old(result)
      ensures !old(resultSettled) && resultSettled ==> result.exitCode == exitCode && !result.cleanupFailed
    {
      hide Captures, Channel.Valid;
      if cancelRequested && cancellationWork != Done {
        return; // the end of the cancellation work settles the result
      }
      SettleResult(exitCode, Close(exitCode));
    }

    /** One event; cancellation work that is not under way cannot finish. */
    method Dispatch(event: Event)
      requires Valid()
      modifies Frame()
      ensures Valid() && ProgressOf() == Next(old(ProgressOf()), event)
      ensures old(resultSettled) ==> result == old(result)
    {
      hide Valid;
      match event {
        case Stdout(chunk) => OnStdout(chunk);
        case Stderr(chunk) => OnStderr(chunk);
        case Cancel => DoCancel();
        case Close(exitCode) => OnClose(exitCode);
        case CancelFinished(termDenied, goneAfterTerm, killDenied, goneAfterKill, exitCode) =>
          if cancellationWork == Running {
            FinishCancellation(termDenied, goneAfterTerm, killDenied, goneAfterKill, exitCode);
          }
      }
    }
  }

  /** Handles events one after the other. */
  method HandleAll(process: SupervisedProcess, events: seq<Event>)
    requires process.Valid()
    modifies process.Frame()
    ensures process.Valid() && process.ProgressOf() == After(old(process.ProgressOf()), events)
    ensures old(process.resultSettled) ==> process.result == old(process.result)
    decreases |events|
  {
    if |events| > 0 {
      process.Dispatch(events[0]);
      HandleAll(process, events[1..]);
    }
  }

  /** Where a whole run stands, and the first event that could settle it. */
  lemma RunTraces(events: seq<Event>) returns (settledAt: nat)
    ensures Traces(After(IDLE, events), events, settledAt)
    ensures After(IDLE, events).Settled() <==> exists k :: 0 <= k < |events| && SettlesAt(events, k)
  {
    settledAt := AfterTraces(IDLE, [], 0, events);
    assert [] + events == events;
    if After(IDLE, events).Settled() {
      assert SettlesAt(events, settledAt);
    }
  }

  /**
   * The result of a whole run: it settles at the first event that can settle it, holds
   * what both streams had written up to then, and no later event changes it.
   */
  method Supervise(secrets: seq<seq<Byte>>, events: seq<Event>) returns (result: ProcessResult, ghost settledAt: nat)
    ensures result.Settled? <==> exists k :: 0 <= k < |events| && SettlesAt(events, k)
    ensures result.Settled? ==> settledAt < |events| && SettlesAt(events, settledAt)
    ensures forall k :: 0 <= k < |events| && (result.Settled? ==> k < settledAt) ==> !SettlesAt(events, k)
    ensures result.Settled? ==>
              && Captures(result.stdout, R.Kept(secrets), Written(events[..settledAt + 1], false))
              && Captures(result.stderr, R.Kept(secrets), Written(events[..settledAt + 1], true))
              && result.truncated == (result.stdout.meta.truncated || result.stderr.meta.truncated)
    ensures result.Settled? && events[settledAt].Close? ==>
              result.exitCode == events[settledAt].exitCode && !result.cleanupFailed
    ensures result.Settled? && !events[settledAt].Close? ==>
              var e := events[settledAt];
              && e.CancelFinished? && result.exitCode == e.exitCode
              && (result.cleanupFailed <==> e.termDenied || (!e.goneAfterTerm && (e.killDenied || !e.goneAfterKill)))
  {
    var process := new SupervisedProcess(secrets);
    HandleAll(process, events);
    settledAt := RunTraces(events);
    result := process.result;
  }
}
