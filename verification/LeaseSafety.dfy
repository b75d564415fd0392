/** What the lease protocol guarantees over whole runs. */
module LeaseSafety {
  import opened LeaseModel
  import opened LeaseInvariant
  import opened Wrappers

  lemma StepAt(run: seq<State>, steps: seq<Step>, duration: nat, i: nat)
    requires IsRun(run, steps, duration) && i < |steps|
    ensures StepTaken(run[i], steps[i], run[i + 1], duration)
  {
  }

  // ---- The deadline never outlives the lease ----

  /** The runner's deadline is covered by the lease the control plane stores. */
  ghost predicate Covered(s: State, a: nat) {
    IsActive(s, a) ==>
      && s.agents[a].fence in s.server.leases
      && s.server.leases[s.agents[a].fence].acquiredBy == a
      && s.agents[a].heart.deadline <= s.server.leases[s.agents[a].fence].expiresAt
  }

  ghost predicate AlwaysCovered(duration: nat) {
    forall run, steps :: IsRun(run, steps, duration) ==> CoveredThroughout(run)
  }

  ghost predicate CoveredThroughout(run: seq<State>) {
    forall i, a: nat :: 0 <= i < |run| ==> Covered(run[i], a)
  }

  lemma DeadlineCovered(run: seq<State>, steps: seq<Step>, duration: nat, i: nat, a: nat)
    requires IsRun(run, steps, duration) && duration <= LEASE_MS && i < |run|
    ensures Covered(run[i], a)
  {
    RunKeeps(run, steps, duration, i);
    if IsActive(run[i], a) {
      assert AgentInv(run[i], a, run[i].agents[a]);
    }
  }

  const FIRST_STEPS := [AskForLease(0), GrantLease(0), TakeLease(0, 1), StoreStarted(1), Begin(0)]

  function StateAfter(k: nat, duration: nat): State {
    if k == 0 then START_STATE
    else
      var s := StateAfter(k - 1, duration);
      if k <= |FIRST_STEPS| && Enabled(s, FIRST_STEPS[k - 1]) then LeaseModel.After(s, FIRST_STEPS[k - 1], duration)
      else s
  }

  lemma LeaseTaken(duration: nat)
    ensures forall k :: 0 <= k < 3 ==> Enabled(StateAfter(k, duration), FIRST_STEPS[k])
    ensures var s := StateAfter(3, duration);
            && s.server == Server(Leased, 1, map[1 := Lease(0, 30000, 0, false)], Some(1))
            && s.now == 0 && s.agents == map[0 := Starting(1, 0)] && StartedSent(1) in s.sent
  {
    assert StateAfter(0, duration) == START_STATE;
    assert AcquireSent(0) in StateAfter(1, duration).sent;
    assert LeaseGranted(0, 1) in StateAfter(2, duration).sent;
  }

  lemma LeaseStarted(duration: nat)
    ensures forall k :: 0 <= k < 5 ==> Enabled(StateAfter(k, duration), FIRST_STEPS[k])
    ensures var s := StateAfter(5, duration);
            && s.now == 0 && s.server == Server(Running, 1, map[1 := Lease(0, 30000, 0, true)], Some(1))
            && s.agents == map[0 := Active(1, StartHeart(0, duration), Working)]
  {
    LeaseTaken(duration);
    assert StateAfter(4, duration) == LeaseModel.After(StateAfter(3, duration), StoreStarted(1), duration);
  }

  /** A runner configured with a longer lease outlives it from the start. */
  lemma LongLeaseUncovered(duration: nat) returns (run: seq<State>)
    requires duration > LEASE_MS
    ensures IsRun(run, FIRST_STEPS, duration) && !CoveredThroughout(run)
  {
    LeaseStarted(duration);
    run := seq(6, i requires 0 <= i < 6 => StateAfter(i, duration));
    forall i | 0 <= i < 5
      ensures StepTaken(run[i], FIRST_STEPS[i], run[i + 1], duration)
    {
      assert run[i] == StateAfter(i, duration) && run[i + 1] == StateAfter(i + 1, duration);
    }
    assert !Covered(run[5], 0);
  }

  /** Exactly when runner and control plane agree on authority: the configured lease is at most the granted 30 s. */
  lemma CoveredExactly(duration: nat)
    ensures AlwaysCovered(duration) <==> duration <= 30000
  {
    if duration <= LEASE_MS {
      forall run, steps | IsRun(run, steps, duration)
        ensures CoveredThroughout(run)
      {
        forall i, a: nat | 0 <= i < |run|
          ensures Covered(run[i], a)
        {
          DeadlineCovered(run, steps, duration, i, a);
        }
      }
    } else {
      var run := LongLeaseUncovered(duration);
    }
  }

  // ---- One executor, one authority ----

  /** Once a lease is started, it is the newest and the run is never handed out again. */
  ghost predicate StartedInv(s: State) {
    LeasesLast(s) && MessagesStand(s) && AgentsGranted(s)
  }

  ghost predicate LeasesLast(s: State) {
    && (forall f :: f in s.server.leases ==> StartedLast(s.server, f))
    && (s.server.current.Some? ==> s.server.current.value == s.server.fence)
  }

  ghost predicate MessagesStand(s: State) {
    && (forall f :: StartedStored(f) in s.sent ==> f in s.server.leases && s.server.leases[f].started)
    && (forall a, f :: LeaseGranted(a, f) in s.sent ==> f in s.server.leases && s.server.leases[f].acquiredBy == a)
  }

  ghost predicate AgentsGranted(s: State) {
    && (forall a :: IsActive(s, a) ==> StartedStored(s.agents[a].fence) in s.sent)
    && (forall a :: a in s.agents && (s.agents[a].Starting? || s.agents[a].Active?) ==>
          LeaseGranted(a, s.agents[a].fence) in s.sent)
  }

  predicate StartedLast(sv: Server, f: nat)
    requires f in sv.leases
  {
    f <= sv.fence && (sv.leases[f].started ==> f == sv.fence && sv.state != Queued && sv.state != Leased)
  }

  lemma LeasesKept(s: State, step: Step, duration: nat)
    requires LeasesLast(s) && Enabled(s, step)
    ensures LeasesLast(After(s, step, duration))
  {
    var t := After(s, step, duration);
    forall f | f in t.server.leases
      ensures StartedLast(t.server, f)
    {
      assert f in s.server.leases ==> StartedLast(s.server, f);
    }
  }

  lemma MessagesKept(s: State, step: Step, duration: nat)
    requires LeasesLast(s) && MessagesStand(s) && Enabled(s, step)
    ensures MessagesStand(After(s, step, duration))
  {
    NextIsNew(s.server);
  }

  lemma AgentsKept(s: State, step: Step, duration: nat)
    requires AgentsGranted(s) && Enabled(s, step)
    ensures AgentsGranted(After(s, step, duration))
  {
  }

  lemma StartedKept(s: State, step: Step, duration: nat)
    requires StartedInv(s) && Enabled(s, step)
    ensures StartedInv(After(s, step, duration))
  {
    LeasesKept(s, step, duration);
    MessagesKept(s, step, duration);
    AgentsKept(s, step, duration);
  }

  lemma NextIsNew(sv: Server)
    requires forall f :: f in sv.leases ==> StartedLast(sv, f)
    ensures sv.fence + 1 !in sv.leases
  {
  }

  lemma {:induction false} StartedThroughout(run: seq<State>, steps: seq<Step>, duration: nat, i: nat)
    requires IsRun(run, steps, duration) && i < |run|
    ensures StartedInv(run[i])
  {
    if i > 0 {
      StartedThroughout(run, steps, duration, i - 1);
      StepAt(run, steps, duration, i - 1);
      StartedKept(run[i - 1], steps[i - 1], duration);
    }
  }

  lemma {:induction false} SentGrows(run: seq<State>, steps: seq<Step>, duration: nat, i: nat, j: nat)
    requires IsRun(run, steps, duration) && i <= j < |run|
    ensures run[i].sent <= run[j].sent
  {
    if i < j {
      SentGrows(run, steps, duration, i, j - 1);
      StepAt(run, steps, duration, j - 1);
    }
  }

  /** Over a whole run, whatever expires, crashes or is lost, at most one attempt ever gets to execute. */
  lemma SoleExecutor(run: seq<State>, steps: seq<Step>, duration: nat, i: nat, j: nat, a: nat, b: nat)
    requires IsRun(run, steps, duration) && i <= j < |run|
    requires IsActive(run[i], a) && IsActive(run[j], b)
    ensures a == b && run[i].agents[a].fence == run[j].agents[b].fence
  {
    StartedThroughout(run, steps, duration, i);
    StartedThroughout(run, steps, duration, j);
    SentGrows(run, steps, duration, i, j);
    var f, g := run[i].agents[a].fence, run[j].agents[b].fence;
    assert StartedStored(f) in run[j].sent && StartedStored(g) in run[j].sent;
    assert LeaseGranted(a, f) in run[j].sent && LeaseGranted(b, g) in run[j].sent;
    assert StartedLast(run[j].server, f) && StartedLast(run[j].server, g);
  }

  /** Two attempts never both hold authority, and one that does has more than 7 s of stored lease left. */
  lemma SingleAuthority(run: seq<State>, steps: seq<Step>, duration: nat, i: nat, a: nat, b: nat)
    requires IsRun(run, steps, duration) && duration <= LEASE_MS && i < |run|
    requires HoldsAuthority(run[i], a)
    ensures HoldsAuthority(run[i], b) ==> b == a
    ensures var f := run[i].agents[a].fence;
            f in run[i].server.leases && run[i].now + 7000 < run[i].server.leases[f].expiresAt
  {
    DeadlineCovered(run, steps, duration, i, a);
    if HoldsAuthority(run[i], b) {
      SoleExecutor(run, steps, duration, i, i, a, b);
    }
  }

  // ---- Lost authority stays lost ----

  lemma LostStep(s: State, step: Step, duration: nat, a: nat)
    requires Enabled(s, step) && a in s.agents && (s.agents[a].Active? ==> Lost(s.agents[a].heart, s.now))
    requires s.agents[a].Active? || s.agents[a].Stopped?
    ensures var t := After(s, step, duration);
            && a in t.agents && (t.agents[a].Active? ==> Lost(t.agents[a].heart, t.now))
            && (t.agents[a].Active? || t.agents[a].Stopped?)
  {
  }

  /** No late answer revives an attempt: once it sees authority lost, it never sees it held again. */
  lemma {:induction false} LostForever(run: seq<State>, steps: seq<Step>, duration: nat, i: nat, j: nat, a: nat)
    requires IsRun(run, steps, duration) && i <= j < |run|
    requires IsActive(run[i], a) && !HoldsAuthority(run[i], a)
    ensures a in run[j].agents && (run[j].agents[a].Active? || run[j].agents[a].Stopped?)
    ensures !HoldsAuthority(run[j], a)
  {
    if i < j {
      LostForever(run, steps, duration, i, j - 1, a);
      StepAt(run, steps, duration, j - 1);
      LostStep(run[j - 1], steps[j - 1], duration, a);
    }
  }

  // ---- Cancel and success serialize ----

  predicate CancelCommitted(state: RunState) {
    state.CancelRequested? || state.Cancelled? || state.Failed?
  }

  lemma RunStateStep(s: State, step: Step, duration: nat)
    requires Enabled(s, step)
    ensures CancelCommitted(s.server.state) ==> CancelCommitted(After(s, step, duration).server.state)
    ensures Terminal(s.server.state) ==> After(s, step, duration).server.state == s.server.state
  {
  }

  /** A run whose cancel committed first never ends succeeded. */
  lemma {:induction false} CancelWins(run: seq<State>, steps: seq<Step>, duration: nat, i: nat, j: nat)
    requires IsRun(run, steps, duration) && i <= j < |run|
    requires run[i].server.state == CancelRequested
    ensures CancelCommitted(run[j].server.state)
  {
    if i < j {
      CancelWins(run, steps, duration, i, j - 1);
      StepAt(run, steps, duration, j - 1);
      RunStateStep(run[j - 1], steps[j - 1], duration);
    }
  }

  /** A finished run stays as it is. */
  lemma {:induction false} TerminalStays(run: seq<State>, steps: seq<Step>, duration: nat, i: nat, j: nat)
    requires IsRun(run, steps, duration) && i <= j < |run|
    requires Terminal(run[i].server.state)
    ensures run[j].server.state == run[i].server.state
  {
    if i < j {
      TerminalStays(run, steps, duration, i, j - 1);
      StepAt(run, steps, duration, j - 1);
      RunStateStep(run[j - 1], steps[j - 1], duration);
    }
  }

  /** Every change of the run's state is one of the permitted transitions. */
  lemma TransitionsAllowed(s: State, step: Step, duration: nat)
    requires Enabled(s, step) && After(s, step, duration).server.state != s.server.state
    ensures (s.server.state, After(s, step, duration).server.state) in
              {(Queued, Leased), (Queued, Cancelled), (Queued, Failed),
               (Leased, Queued), (Leased, Running), (Leased, CancelRequested), (Leased, Failed),
               (Running, CancelRequested), (Running, Succeeded), (Running, Failed),
               (CancelRequested, Cancelled), (CancelRequested, Failed)}
  {
  }

  /** Whoever was told of a cancel was told the truth. */
  ghost predicate ToldTruly(s: State) {
    && (forall f, q :: HeartbeatStored(f, q, true) in s.sent ==> CancelCommitted(s.server.state))
    && (forall a :: IsActive(s, a) && s.agents[a].heart.cancelSeen ==> CancelCommitted(s.server.state))
  }

  lemma ToldStep(s: State, step: Step, duration: nat)
    requires ToldTruly(s) && Enabled(s, step)
    ensures ToldTruly(After(s, step, duration))
  {
    RunStateStep(s, step, duration);
  }

  /** An attempt that sees a cancel requested sees one that was committed. */
  lemma {:induction false} CancelSeenWasCommitted(run: seq<State>, steps: seq<Step>, duration: nat, i: nat, a: nat)
    requires IsRun(run, steps, duration) && i < |run|
    ensures ToldTruly(run[i])
    ensures IsActive(run[i], a) && run[i].agents[a].heart.cancelSeen ==> CancelCommitted(run[i].server.state)
  {
    if i > 0 {
      CancelSeenWasCommitted(run, steps, duration, i - 1, a);
      StepAt(run, steps, duration, i - 1);
      ToldStep(run[i - 1], steps[i - 1], duration);
    }
  }

  // ---- Why a run ended as it did ----

  /** The step by which an attempt reaches a stage, and what it rests on. */
  ghost predicate Reaches(s: State, step: Step, a: nat, stage: Stage) {
    && IsActive(s, a)
    && var before := s.agents[a].stage;
       match stage
       case Publishing(kind) =>
         && step.Advance? && step.a == a && before.Working? && step.ok
         && kind == (if step.kind == Succeeded then Succeeded else Failed)
         && HoldsAuthority(s, a) && !s.agents[a].heart.cancelSeen
       case ResultReady(kind) => step.Advance? && step.a == a && before == Publishing(kind) && step.ok
       case ResultSent(kind) => step.Advance? && step.a == a && before == ResultReady(kind) && HoldsAuthority(s, a)
       case Conflict => step.ResultAnswer? && step.a == a && before.ResultSent?
       case Stopping =>
         && step.Advance? && step.a == a && (before.Working? || before.Conflict?)
         && HoldsAuthority(s, a) && s.agents[a].heart.cancelSeen
       case CancelPublishing(cleanupFailed) =>
         step.Advance? && step.a == a && before.Stopping? && step.ok == !cleanupFailed && HoldsAuthority(s, a)
       case CancelReady(cleanupFailed) =>
         step.Advance? && step.a == a && before == CancelPublishing(cleanupFailed) && step.ok
       case _ => false
  }

  /** A stage other than the first and last is only reached so. */
  lemma StageEntered(s: State, step: Step, duration: nat, a: nat, stage: Stage)
    requires Enabled(s, step) && IsActive(After(s, step, duration), a)
    requires After(s, step, duration).agents[a].stage == stage
    requires !stage.Working? && !stage.Finished? && !(IsActive(s, a) && s.agents[a].stage == stage)
    ensures Reaches(s, step, a, stage)
  {
  }

  lemma {:induction false} StageOrigin(run: seq<State>, steps: seq<Step>, duration: nat, i: nat, a: nat, stage: Stage)
    returns (h: nat)
    requires IsRun(run, steps, duration) && i < |run| && IsActive(run[i], a) && run[i].agents[a].stage == stage
    requires !stage.Working? && !stage.Finished?
    ensures h < i && Reaches(run[h], steps[h], a, stage)
  {
    StepAt(run, steps, duration, i - 1);
    if IsActive(run[i - 1], a) && run[i - 1].agents[a].stage == stage {
      h := StageOrigin(run, steps, duration, i - 1, a, stage);
    } else {
      StageEntered(run[i - 1], steps[i - 1], duration, a, stage);
      h := i - 1;
    }
  }

  /** A cancellation is never the result of the work itself. */
  lemma NoCancelledResult(run: seq<State>, steps: seq<Step>, duration: nat, i: nat, a: nat)
    requires IsRun(run, steps, duration) && i < |run| && IsActive(run[i], a)
    ensures run[i].agents[a].stage != ResultReady(Cancelled)
  {
    if run[i].agents[a].stage == ResultReady(Cancelled) {
      var published := StageOrigin(run, steps, duration, i, a, ResultReady(Cancelled));
      var began := StageOrigin(run, steps, duration, published, a, Publishing(Cancelled));
    }
  }

  /** The stage at which a success or a cancellation is reported. */
  function ReportStage(kind: RunState): Stage {
    if kind == Cancelled then CancelReady(false) else ResultReady(kind)
  }

  /** A success or a cancellation is only ever sent by an attempt that sees its authority held, at the stage for it. */
  lemma {:induction false} CompletionOrigin(run: seq<State>, steps: seq<Step>, duration: nat, i: nat, f: nat,
          kind: RunState)
    returns (h: nat, a: nat)
    requires IsRun(run, steps, duration) && i < |run|
    requires CompletionSent(f, kind) in run[i].sent && kind != Failed
    ensures h < i && HoldsAuthority(run[h], a) && run[h].agents[a].fence == f
    ensures run[h].agents[a].stage == ReportStage(kind)
  {
    StepAt(run, steps, duration, i - 1);
    if CompletionSent(f, kind) in run[i - 1].sent {
      h, a := CompletionOrigin(run, steps, duration, i - 1, f, kind);
    } else {
      h, a := i - 1, steps[i - 1].a;
      NoCancelledResult(run, steps, duration, h, a);
    }
  }

  /**
   * The record of a reported success: the tool succeeded under authority with no cancel seen,
   * its evidence was published, and authority was held again when reporting.
   */
  ghost predicate PublishedSuccess(run: seq<State>, steps: seq<Step>, a: nat, began: nat, published: nat, reported: nat)
    requires |run| == |steps| + 1
  {
    && began < published < reported < |run|
    && HoldsAuthority(run[began], a) && run[began].agents[a].stage == Working
    && !run[began].agents[a].heart.cancelSeen && steps[began] == Advance(a, true, Succeeded)
    && IsActive(run[published], a) && run[published].agents[a].stage == Publishing(Succeeded)
    && steps[published].Advance? && steps[published].a == a && steps[published].ok
    && HoldsAuthority(run[reported], a) && run[reported].agents[a].stage == ResultReady(Succeeded)
  }

  /** Whether or not it is accepted, a success is only sent for a tool that succeeded, its evidence published. */
  lemma SuccessSent(run: seq<State>, steps: seq<Step>, duration: nat, i: nat, f: nat)
    returns (a: nat, began: nat, published: nat, reported: nat)
    requires IsRun(run, steps, duration) && i < |run| && CompletionSent(f, Succeeded) in run[i].sent
    ensures PublishedSuccess(run, steps, a, began, published, reported) && reported < i
    ensures run[reported].agents[a].fence == f
  {
    reported, a := CompletionOrigin(run, steps, duration, i, f, Succeeded);
    published := StageOrigin(run, steps, duration, reported, a, ResultReady(Succeeded));
    began := StageOrigin(run, steps, duration, published, a, Publishing(Succeeded));
  }

  /**
   * The record of a cancel acknowledged: noticed and cleaned up with authority, published, and
   * authority held again when reporting.
   */
  ghost predicate CleanCancel(run: seq<State>, steps: seq<Step>, a: nat, noticed: nat, stopped: nat, published: nat,
          reported: nat)
    requires |run| == |steps| + 1
  {
    && noticed < stopped < published < reported < |run|
    && Reaches(run[noticed], steps[noticed], a, Stopping)
    && Reaches(run[stopped], steps[stopped], a, CancelPublishing(false))
    && Reaches(run[published], steps[published], a, CancelReady(false))
    && HoldsAuthority(run[reported], a) && run[reported].agents[a].stage == CancelReady(false)
  }

  /**
   * Where the evidence of a cancelled attempt was published: after the cleanup when the cancel
   * was noticed during the work, and before the result was refused when it was noticed then.
   */
  ghost predicate EvidenceAt(run: seq<State>, steps: seq<Step>, a: nat, noticed: nat, published: nat, evidence: nat)
    requires |run| == |steps| + 1 && noticed < |run| && IsActive(run[noticed], a)
  {
    if run[noticed].agents[a].stage.Working? then evidence == published
    else evidence < noticed && exists kind :: Reaches(run[evidence], steps[evidence], a, ResultReady(kind))
  }

  /**
   * Whether or not it is accepted, a cancellation is only sent after a cleanup that did not
   * fail and after the evidence was published.
   */
  lemma CancellationSent(run: seq<State>, steps: seq<Step>, duration: nat, i: nat, f: nat)
    returns (a: nat, noticed: nat, stopped: nat, published: nat, reported: nat, evidence: nat)
    requires IsRun(run, steps, duration) && i < |run| && CompletionSent(f, Cancelled) in run[i].sent
    ensures CleanCancel(run, steps, a, noticed, stopped, published, reported) && reported < i
    ensures run[reported].agents[a].fence == f
    ensures EvidenceAt(run, steps, a, noticed, published, evidence)
  {
    reported, a := CompletionOrigin(run, steps, duration, i, f, Cancelled);
    published := StageOrigin(run, steps, duration, reported, a, CancelReady(false));
    stopped := StageOrigin(run, steps, duration, published, a, CancelPublishing(false));
    noticed := StageOrigin(run, steps, duration, stopped, a, Stopping);
    evidence := published;
    if run[noticed].agents[a].stage.Conflict? {
      var refused := StageOrigin(run, steps, duration, noticed, a, Conflict);
      var kind := run[refused].agents[a].stage.kind;
      var sent := StageOrigin(run, steps, duration, refused, a, ResultSent(kind));
      evidence := StageOrigin(run, steps, duration, sent, a, ResultReady(kind));
    }
  }

  /** The step at which a run took its final state. */
  lemma {:induction false} FinalStep(run: seq<State>, steps: seq<Step>, duration: nat, i: nat, j: nat, kind: RunState)
    returns (c: nat)
    requires IsRun(run, steps, duration) && i <= j < |run| && Terminal(kind)
    requires run[i].server.state != kind && run[j].server.state == kind
    ensures i <= c < j && run[c].server.state != kind && run[c + 1].server.state == kind
  {
    if run[j - 1].server.state == kind {
      c := FinalStep(run, steps, duration, i, j - 1, kind);
    } else {
      c := j - 1;
    }
  }

  /**
   * A run ends succeeded only so: published and reported under authority, accepted while the
   * lease was in force, never cancelled.
   */
  lemma SucceededWhy(run: seq<State>, steps: seq<Step>, duration: nat, j: nat)
    returns (a: nat, began: nat, published: nat, reported: nat, accepted: nat)
    requires IsRun(run, steps, duration) && j < |run| && run[j].server.state == Succeeded
    ensures PublishedSuccess(run, steps, a, began, published, reported) && reported < accepted < j
    ensures HasAuthority(run[accepted].server, run[accepted].now, run[reported].agents[a].fence)
    ensures forall i :: 0 <= i <= j ==> run[i].server.state != CancelRequested
  {
    accepted := FinalStep(run, steps, duration, 0, j, Succeeded);
    StepAt(run, steps, duration, accepted);
    a, began, published, reported := SuccessSent(run, steps, duration, accepted, steps[accepted].f);
    forall i | 0 <= i <= j
      ensures run[i].server.state != CancelRequested
    {
      if run[i].server.state == CancelRequested {
        CancelWins(run, steps, duration, i, j);
      }
    }
  }

  /**
   * A run whose cancel was requested ends cancelled only after a cleanup that did not fail,
   * with its evidence published.
   */
  lemma CancelledWhy(run: seq<State>, steps: seq<Step>, duration: nat, i: nat, j: nat)
    returns (a: nat, noticed: nat, stopped: nat, published: nat, reported: nat, evidence: nat)
    requires IsRun(run, steps, duration) && i <= j < |run|
    requires run[i].server.state == CancelRequested && run[j].server.state == Cancelled
    ensures CleanCancel(run, steps, a, noticed, stopped, published, reported) && reported < j
    ensures EvidenceAt(run, steps, a, noticed, published, evidence)
  {
    var accepted := FinalStep(run, steps, duration, i, j, Cancelled);
    StepAt(run, steps, duration, accepted);
    CancelWins(run, steps, duration, i, accepted);
    a, noticed, stopped, published, reported, evidence := CancellationSent(run, steps, duration, accepted,
            steps[accepted].f);
  }
}
