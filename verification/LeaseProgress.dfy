/** What the lease protocol brings about: how the end of the work becomes the end of the run. */
module LeaseProgress {
  import opened LeaseModel
  import opened LeaseSafety
  import opened Wrappers

  // ---- From one look at authority to the next ----

  /** No look at its authority, and no crash, of the attempt strictly between two moments. */
  predicate Undisturbed(steps: seq<Step>, a: nat, i: nat, j: nat) {
    forall k :: i <= k < j && k < |steps| ==> !(steps[k].Advance? && steps[k].a == a) && steps[k] != Crash(a)
  }

  predicate At(s: State, a: nat, fence: nat, stage: Stage) {
    IsActive(s, a) && s.agents[a].fence == fence && s.agents[a].stage == stage
  }

  /** An attempt that does not wait for the answer to a result stays where it is until it looks again. */
  lemma {:induction false} StageKept(run: seq<State>, steps: seq<Step>, duration: nat, i: nat, j: nat, a: nat,
          fence: nat, stage: Stage)
    requires IsRun(run, steps, duration) && i <= j < |run| && Undisturbed(steps, a, i, j)
    requires At(run[i], a, fence, stage) && !stage.ResultSent?
    ensures At(run[j], a, fence, stage)
  {
    if i < j {
      StageKept(run, steps, duration, i, j - 1, a, fence, stage);
      StepAt(run, steps, duration, j - 1);
    }
  }

  predicate LooksAt(steps: seq<Step>, a: nat, i: nat) {
    i < |steps| && steps[i].Advance? && steps[i].a == a
  }

  /** Two moments at which an attempt looks at its authority, with none in between. */
  predicate NextLook(steps: seq<Step>, a: nat, i: nat, j: nat) {
    i < j && LooksAt(steps, a, i) && LooksAt(steps, a, j) && Undisturbed(steps, a, i + 1, j)
  }

  // ---- The end of the work ----

  /**
   * A tool that ended while authority was held and no cancel was seen has its own outcome sent,
   * once its evidence is published and if authority is still held then: succeeded exactly when
   * the tool succeeded, failed otherwise.
   */
  lemma OutcomeReported(run: seq<State>, steps: seq<Step>, duration: nat, ended: nat, published: nat, reported: nat,
          a: nat, fence: nat)
    requires IsRun(run, steps, duration) && NextLook(steps, a, ended, published)
    requires NextLook(steps, a, published, reported)
    requires At(run[ended], a, fence, Working) && HoldsAuthority(run[ended], a)
    requires !run[ended].agents[a].heart.cancelSeen && steps[ended].ok && steps[published].ok
    requires HoldsAuthority(run[reported], a)
    ensures steps[ended].kind == Succeeded ==> CompletionSent(fence, Succeeded) in run[reported + 1].sent
    ensures steps[ended].kind != Succeeded ==> CompletionSent(fence, Failed) in run[reported + 1].sent
  {
    var kind := if steps[ended].kind == Succeeded then Succeeded else RunState.Failed;
    StepAt(run, steps, duration, ended);
    StageKept(run, steps, duration, ended + 1, published, a, fence, Publishing(kind));
    StepAt(run, steps, duration, published);
    StageKept(run, steps, duration, published + 1, reported, a, fence, ResultReady(kind));
    StepAt(run, steps, duration, reported);
  }

  /**
   * A cancel seen while authority is held stops the tool, and once the evidence is published it
   * is acknowledged, if the cleanup went well and authority is still held; otherwise the run is
   * reported failed.
   */
  lemma CancelReported(run: seq<State>, steps: seq<Step>, duration: nat, noticed: nat, stopped: nat, published: nat,
          reported: nat, a: nat, fence: nat)
    requires IsRun(run, steps, duration) && NextLook(steps, a, noticed, stopped)
    requires NextLook(steps, a, stopped, published) && NextLook(steps, a, published, reported)
    requires At(run[noticed], a, fence, Working) && HoldsAuthority(run[noticed], a)
    requires run[noticed].agents[a].heart.cancelSeen && HoldsAuthority(run[stopped], a) && steps[published].ok
    ensures steps[stopped].ok && HoldsAuthority(run[reported], a) ==>
              CompletionSent(fence, Cancelled) in run[reported + 1].sent
    ensures !(steps[stopped].ok && HoldsAuthority(run[reported], a)) ==>
              CompletionSent(fence, Failed) in run[reported + 1].sent
  {
    StepAt(run, steps, duration, noticed);
    StageKept(run, steps, duration, noticed + 1, stopped, a, fence, Stopping);
    StepAt(run, steps, duration, stopped);
    StageKept(run, steps, duration, stopped + 1, published, a, fence, CancelPublishing(!steps[stopped].ok));
    StepAt(run, steps, duration, published);
    StageKept(run, steps, duration, published + 1, reported, a, fence, CancelReady(!steps[stopped].ok));
    StepAt(run, steps, duration, reported);
  }

  /** Without authority, or without publishing, all that is ever reported is failure. */
  lemma FailureReported(s: State, a: nat, ok: bool, kind: RunState, duration: nat)
    requires Enabled(s, Advance(a, ok, kind))
    ensures var stage, t := s.agents[a].stage, After(s, Advance(a, ok, kind), duration);
            || (!HoldsAuthority(s, a) && (stage in {Working, Conflict, Stopping} || stage.ResultReady?))
            || (!ok && (stage.Publishing? || stage.CancelPublishing?))
            || (!ok && stage == Working && !s.agents[a].heart.cancelSeen)
            ==> CompletionSent(s.agents[a].fence, Failed) in t.sent && At(t, a, s.agents[a].fence, LeaseModel.Finished)
  {
  }

  /** Work begins once, with the lease; nothing that happens later leads back to it. */
  lemma WorkBegins(s: State, step: Step, duration: nat, a: nat)
    requires Enabled(s, step) && IsActive(After(s, step, duration), a)
    requires After(s, step, duration).agents[a].stage == Working
    ensures step == Begin(a) || (IsActive(s, a) && s.agents[a].stage == Working)
  {
  }

  /** The answer to a result ends the attempt, or says that the control plane refused the transition. */
  lemma ResultAnswered(s: State, a: nat, conflict: bool, duration: nat)
    requires Enabled(s, ResultAnswer(a, conflict))
    ensures var t := After(s, ResultAnswer(a, conflict), duration);
            && t.sent == s.sent && t.server == s.server
            && At(t, a, s.agents[a].fence, if conflict then Conflict else LeaseModel.Finished)
  {
  }

  /** A result the control plane refuses is left at that, or turned into a cancel that is seen by then. */
  lemma RefusedResult(s: State, a: nat, ok: bool, kind: RunState, duration: nat)
    requires Enabled(s, Advance(a, ok, kind)) && s.agents[a].stage == Conflict && HoldsAuthority(s, a)
    ensures var t := After(s, Advance(a, ok, kind), duration);
            && t.sent == s.sent
            && At(t, a, s.agents[a].fence,
                  if s.agents[a].heart.cancelSeen then Stopping else LeaseModel.Finished)
  {
  }

  // ---- Heartbeats that are refused ----

  /**
   * A new heartbeat is accepted exactly when its lease is in force and has not run out, and the
   * refusal tells which; one that was accepted before is replayed, and an older one refused.
   */
  lemma HeartbeatJudged(sv: Server, now: nat, f: nat, q: nat)
    ensures f !in sv.leases ==> JudgeHeartbeat(sv, now, f, q) == Rejected(StaleFence)
    ensures f in sv.leases && q > sv.leases[f].heartbeat ==>
              JudgeHeartbeat(sv, now, f, q) ==
              if sv.current != Some(f) then Rejected(StaleFence)
              else if now < sv.leases[f].expiresAt then Accepted else Rejected(LeaseExpired)
    ensures f in sv.leases && 0 < q == sv.leases[f].heartbeat ==> JudgeHeartbeat(sv, now, f, q) == Replayed
    ensures f in sv.leases && (q < sv.leases[f].heartbeat || q == 0) ==>
              JudgeHeartbeat(sv, now, f, q) ==
              Rejected(if sv.current != Some(f) then StaleFence
                       else if now < sv.leases[f].expiresAt then SequenceStale else LeaseExpired)
  {
  }

  /**
   * A refusal because the lease is gone or not the runner's, or because the runner is, ends its
   * authority; no other failed heartbeat does.
   */
  lemma RefusalEndsAuthority(s: State, a: nat, error: HeartbeatError, duration: nat)
    requires Enabled(s, HeartbeatFailure(a, error))
    ensures HoldsAuthority(After(s, HeartbeatFailure(a, error), duration), a) <==>
            && HoldsAuthority(s, a)
            && error !in {StaleFence, LeaseExpired, LeaseOwnerMismatch, Status(401), Status(403)}
  {
  }

  // ---- What the control plane takes, and what that does to the run ----

  /** A completion is taken exactly from the lease in force, before it runs out, and for these ends of these states. */
  lemma CompletionTaken(s: State, f: nat, kind: RunState, duration: nat)
    ensures Enabled(s, StoreCompletion(f, kind)) <==>
            && CompletionSent(f, kind) in s.sent && s.server.current == Some(f)
            && f in s.server.leases && s.now < s.server.leases[f].expiresAt
            && (s.server.state, kind) in
                 {(Running, Succeeded), (Running, Failed), (CancelRequested, Cancelled), (CancelRequested, Failed),
                  (Leased, Failed), (Queued, Cancelled), (Queued, Failed)}
    ensures Enabled(s, StoreCompletion(f, kind)) ==>
              After(s, StoreCompletion(f, kind), duration).server == s.server.(state := kind, current := None)
  {
  }

  /** A start is recorded once, from the lease in force; a cancel that came first stands. */
  lemma StartTaken(s: State, f: nat, duration: nat)
    ensures Enabled(s, StoreStarted(f)) <==>
            && StartedSent(f) in s.sent && f in s.server.leases
            && (|| s.server.leases[f].started
                || (s.server.current == Some(f) && s.now < s.server.leases[f].expiresAt
                    && s.server.state in {Leased, CancelRequested}))
    ensures Enabled(s, StoreStarted(f)) ==>
              var sv := After(s, StoreStarted(f), duration).server;
              if s.server.leases[f].started then sv == s.server
              else && sv.state == (if s.server.state == Leased then Running else s.server.state)
                   && sv.leases == s.server.leases[f := s.server.leases[f].(started := true)]
                   && sv.current == s.server.current && sv.fence == s.server.fence
  {
  }

  /** An operator's cancel ends a run that waits, and asks a runner to end one that does not. */
  lemma CancelTaken(s: State, duration: nat)
    ensures var sv := After(s, CancelByOperator, duration).server;
            && (s.server.state == Queued ==> sv == s.server.(state := Cancelled, current := None))
            && (s.server.state in {Leased, Running} ==> sv == s.server.(state := CancelRequested))
            && (s.server.state in {CancelRequested, Succeeded, Failed, Cancelled} ==> sv == s.server)
  {
  }

  /** A lease that ran out is put out of force: an unstarted run waits again, another one failed. */
  lemma ExpiryTaken(s: State, duration: nat)
    ensures Enabled(s, ExpireLease) <==>
            && s.server.current.Some? && s.server.current.value in s.server.leases
            && s.now >= s.server.leases[s.server.current.value].expiresAt
            && s.server.state in {Leased, Running, CancelRequested}
    ensures Enabled(s, ExpireLease) ==>
              After(s, ExpireLease, duration).server ==
              s.server.(state := if s.server.state == Leased then Queued else Failed, current := None)
  {
  }

  /** Revoking a runner takes the lease out of force and asks for the run to end. */
  lemma RevokeTaken(s: State, duration: nat)
    requires Enabled(s, RevokeRunner)
    ensures var sv := After(s, RevokeRunner, duration).server;
            && sv.current == None && sv.leases == s.server.leases && sv.fence == s.server.fence
            && sv.state == if s.server.state in {Leased, Running} then CancelRequested else s.server.state
  {
  }

  /** A lease that is out of force stays so, whatever its runner still sends. */
  lemma {:induction false} OutOfForce(run: seq<State>, steps: seq<Step>, duration: nat, i: nat, j: nat, f: nat)
    requires IsRun(run, steps, duration) && i <= j < |run|
    requires f in run[i].server.leases && run[i].server.current != Some(f)
    ensures f in run[j].server.leases && run[j].server.current != Some(f)
  {
    if i < j {
      hide StartedInv, StepTaken;
      OutOfForce(run, steps, duration, i, j - 1, f);
      NoneNewer(run, steps, duration, j - 1, f);
      OutOfForceStep(run, steps, duration, j - 1, f);
    }
  }

  lemma NoneNewer(run: seq<State>, steps: seq<Step>, duration: nat, i: nat, f: nat)
    requires IsRun(run, steps, duration) && i < |run| && f in run[i].server.leases
    ensures f <= run[i].server.fence
  {
    StartedThroughout(run, steps, duration, i);
    assert StartedLast(run[i].server, f);
  }

  lemma OutOfForceStep(run: seq<State>, steps: seq<Step>, duration: nat, i: nat, f: nat)
    requires IsRun(run, steps, duration) && i < |steps|
    requires f in run[i].server.leases && run[i].server.current != Some(f) && f <= run[i].server.fence
    ensures f in run[i + 1].server.leases && run[i + 1].server.current != Some(f)
  {
    StepAt(run, steps, duration, i);
  }

  /** Fences are signed 64-bit numbers in every run; the run that would need the next one fails. */
  lemma {:induction false} FencesFit(run: seq<State>, steps: seq<Step>, duration: nat, i: nat)
    requires IsRun(run, steps, duration) && i < |run|
    ensures run[i].server.fence <= 9223372036854775807
  {
    if i > 0 {
      FencesFit(run, steps, duration, i - 1);
      StepAt(run, steps, duration, i - 1);
    }
  }

  /** A run that waits is granted to whoever asks, under the next fence and for 30 s. */
  lemma GrantTaken(s: State, a: nat, duration: nat)
    ensures Enabled(s, GrantLease(a)) <==>
            AcquireSent(a) in s.sent && s.server.state == Queued && s.server.current == None
    ensures Enabled(s, GrantLease(a)) ==>
              var t, f := After(s, GrantLease(a), duration), s.server.fence + 1;
              if f > 9223372036854775807 then t == s.(server := s.server.(state := Failed))
              else && t.server == Server(Leased, f, s.server.leases[f := Lease(a, s.now + 30000, 0, false)], Some(f))
                   && t.sent == s.sent + {LeaseGranted(a, f)} && t.agents == s.agents
  {
  }

  // ---- Runs that come to each end ----

  /** A run that goes on for one more step. */
  lemma Extended(run: seq<State>, steps: seq<Step>, duration: nat, step: Step)
    returns (more: seq<State>, taken: seq<Step>)
    requires IsRun(run, steps, duration) && Enabled(run[|run| - 1], step)
    ensures IsRun(more, taken, duration) && |more| == |run| + 1
    ensures more[|more| - 1] == After(run[|run| - 1], step, duration)
  {
    more, taken := run + [After(run[|run| - 1], step, duration)], steps + [step];
    forall i | 0 <= i < |taken|
      ensures StepTaken(more[i], taken[i], more[i + 1], duration)
    {
      if i < |steps| {
        assert StepTaken(run[i], steps[i], run[i + 1], duration);
      }
    }
  }

  /** A started lease, asked for, granted and begun in the same millisecond. */
  lemma Begun() returns (run: seq<State>, steps: seq<Step>)
    ensures IsRun(run, steps, 30000) && |run| == 6
    ensures run[5].now == 0 && run[5].server == Server(Running, 1, map[1 := Lease(0, 30000, 0, true)], Some(1))
    ensures run[5].agents == map[0 := Active(1, Heart(1, 30000, false, false, None, None, false), Working)]
  {
    LeaseStarted(30000);
    steps := FIRST_STEPS;
    run := seq(6, i requires 0 <= i < 6 => StateAfter(i, 30000));
    forall i | 0 <= i < 5
      ensures StepTaken(run[i], steps[i], run[i + 1], 30000)
    {
      assert run[i] == StateAfter(i, 30000) && run[i + 1] == StateAfter(i + 1, 30000);
    }
  }

  lemma RunSucceeds() returns (run: seq<State>, steps: seq<Step>)
    ensures IsRun(run, steps, 30000) && run[|run| - 1].server.state == Succeeded
  {
    run, steps := Begun();
    run, steps := Extended(run, steps, 30000, Advance(0, true, Succeeded));
    run, steps := Extended(run, steps, 30000, Advance(0, true, Succeeded));
    run, steps := Extended(run, steps, 30000, Advance(0, true, Succeeded));
    run, steps := Extended(run, steps, 30000, StoreCompletion(1, Succeeded));
  }

  /** A cancel by the operator reaches the runner with its next heartbeat. */
  lemma CancelNoticed() returns (run: seq<State>, steps: seq<Step>)
    ensures IsRun(run, steps, 30000)
    ensures var s := run[|run| - 1];
            && s.now == 0 && s.server.state == CancelRequested && s.server.current == Some(1)
            && s.server.leases == map[1 := Lease(0, 30000, 2, true)]
            && s.agents == map[0 := Active(1, Heart(2, 30000, false, true, None, None, false), Working)]
  {
    run, steps := Begun();
    run, steps := Extended(run, steps, 30000, CancelByOperator);
    run, steps := Extended(run, steps, 30000, PollHeartbeat(0));
    run, steps := Extended(run, steps, 30000, StoreHeartbeat(1, 2));
    run, steps := Extended(run, steps, 30000, HeartbeatAnswer(0, true));
  }

  lemma CancelCleaned() returns (run: seq<State>, steps: seq<Step>)
    ensures IsRun(run, steps, 30000)
    ensures var s := run[|run| - 1];
            && s.now == 0 && s.server.state == CancelRequested && s.server.current == Some(1)
            && s.server.leases == map[1 := Lease(0, 30000, 2, true)]
            && s.agents ==
               map[0 := Active(1, Heart(2, 30000, false, true, None, None, false), CancelPublishing(false))]
  {
    run, steps := CancelNoticed();
    run, steps := Extended(run, steps, 30000, Advance(0, true, Succeeded));
    run, steps := Extended(run, steps, 30000, Advance(0, true, Succeeded));
  }

  lemma RunCancelled() returns (run: seq<State>, steps: seq<Step>)
    ensures IsRun(run, steps, 30000) && run[|run| - 1].server.state == RunState.Cancelled
  {
    run, steps := CancelCleaned();
    run, steps := Extended(run, steps, 30000, Advance(0, true, Succeeded));
    run, steps := Extended(run, steps, 30000, Advance(0, true, Succeeded));
    run, steps := Extended(run, steps, 30000, StoreCompletion(1, RunState.Cancelled));
  }

  /** Time passes. */
  lemma {:induction false} Waited(run: seq<State>, steps: seq<Step>, n: nat)
    returns (more: seq<State>, taken: seq<Step>)
    requires IsRun(run, steps, 30000)
    ensures IsRun(more, taken, 30000)
    ensures more[|more| - 1] == run[|run| - 1].(now := run[|run| - 1].now + n)
  {
    if n == 0 {
      more, taken := run, steps;
    } else {
      more, taken := Waited(run, steps, n - 1);
      more, taken := Extended(more, taken, 30000, Tick);
    }
  }

  lemma LeaseUnused() returns (run: seq<State>, steps: seq<Step>)
    ensures IsRun(run, steps, 30000)
    ensures var s := run[|run| - 1];
            && s.now == 30000 && s.agents == map[0 := Acquiring(0)]
            && s.server == Server(Leased, 1, map[1 := Lease(0, 30000, 0, false)], Some(1))
  {
    assert IsRun([START_STATE], [], 30000);
    run, steps := Extended([START_STATE], [], 30000, AskForLease(0));
    run, steps := Extended(run, steps, 30000, GrantLease(0));
    run, steps := Waited(run, steps, 30000);
  }

  /** A lease that was not started within 30 s goes to the next runner, under the next fence. */
  lemma RunRequeued() returns (run: seq<State>, steps: seq<Step>)
    ensures IsRun(run, steps, 30000)
    ensures run[|run| - 1].server ==
            Server(Leased, 2, map[1 := Lease(0, 30000, 0, false), 2 := Lease(1, 60000, 0, false)], Some(2))
  {
    run, steps := LeaseUnused();
    run, steps := Extended(run, steps, 30000, ExpireLease);
    run, steps := Extended(run, steps, 30000, AskForLease(1));
    run, steps := Extended(run, steps, 30000, GrantLease(1));
  }

  /** A started run whose lease ran out failed. */
  lemma RunLost() returns (run: seq<State>, steps: seq<Step>)
    ensures IsRun(run, steps, 30000) && run[|run| - 1].server.state == RunState.Failed
  {
    run, steps := Begun();
    run, steps := Waited(run, steps, 30000);
    run, steps := Extended(run, steps, 30000, ExpireLease);
  }
}
