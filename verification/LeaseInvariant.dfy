/** What every step of the lease protocol keeps, when runners are configured with leases of at most 30 s. */
module LeaseInvariant {
  import opened LeaseModel
  import opened Wrappers

  /** All leases but the newest have run out, and so has the newest while the run is queued. */
  ghost predicate ServerInv(sv: Server, now: nat) {
    && (forall f :: f in sv.leases ==> OldLease(sv, now, f))
    && (sv.current.Some? ==> sv.current.value == sv.fence && sv.fence in sv.leases)
  }

  ghost predicate OldLease(sv: Server, now: nat, f: nat)
    requires f in sv.leases
  {
    && f <= sv.fence && sv.leases[f].expiresAt <= now + LEASE_MS
    && (f < sv.fence || sv.state == Queued ==> sv.leases[f].expiresAt <= now)
  }

  /** The runner's bookkeeping against the lease the control plane stores. */
  predicate HeartInv(h: Heart, lease: Lease, now: nat) {
    && h.deadline <= lease.expiresAt
    && lease.heartbeat <= h.sequence + 1
    && (h.pending.Some? ==> h.pending.value <= now)
    && (lease.heartbeat == h.sequence + 1 ==> h.pending.Some? && h.pending.value + LEASE_MS <= lease.expiresAt)
    && (h.inFlight.Some? ==> h.inFlight.value.sequence == h.sequence + 1 && h.pending == Some(h.inFlight.value.sentAt))
  }

  /** A lease no heartbeat has been sent for, granted no earlier than it was asked for. */
  predicate Untouched(lease: Lease, askedAt: nat) {
    lease.heartbeat == 0 && askedAt + LEASE_MS <= lease.expiresAt
  }

  ghost predicate NoHeartbeats(sent: set<Message>, f: nat) {
    forall q: nat :: HeartbeatSent(f, q) !in sent
  }

  /** Heartbeats of a lease never run ahead of its runner. */
  ghost predicate HeartbeatsBehind(sent: set<Message>, f: nat, h: Heart) {
    forall q: nat :: HeartbeatSent(f, q) in sent ==>
      0 < q <= h.sequence + 1 && (q == h.sequence + 1 ==> h.pending.Some?)
  }

  ghost predicate AgentInv(s: State, a: nat, agent: Agent) {
    match agent
    case Acquiring(askedAt) => askedAt <= s.now && forall f :: f in s.server.leases ==> UntouchedBy(s, a, askedAt, f)
    case Starting(f, askedAt) =>
      f in s.server.leases && s.server.leases[f].acquiredBy == a && UntouchedBy(s, a, askedAt, f)
    case Active(f, h, _) =>
      && f in s.server.leases && s.server.leases[f].acquiredBy == a
      && HeartInv(h, s.server.leases[f], s.now) && HeartbeatsBehind(s.sent, f, h)
    case Stopped => true
  }

  ghost predicate UntouchedBy(s: State, a: nat, askedAt: nat, f: nat)
    requires f in s.server.leases
  {
    s.server.leases[f].acquiredBy == a ==> Untouched(s.server.leases[f], askedAt) && NoHeartbeats(s.sent, f)
  }

  ghost predicate MessageInv(s: State, m: Message) {
    match m
    case AcquireSent(a) => a in s.agents
    case LeaseGranted(a, f) => f in s.server.leases && s.server.leases[f].acquiredBy == a
    case HeartbeatSent(f, q) => f in s.server.leases
    case HeartbeatStored(f, q, _) => f in s.server.leases && q <= s.server.leases[f].heartbeat
    case _ => true
  }

  ghost predicate AgentsInv(s: State) {
    forall a :: a in s.agents ==> AgentInv(s, a, s.agents[a])
  }

  ghost predicate MessagesInv(s: State) {
    forall m :: m in s.sent ==> MessageInv(s, m)
  }

  ghost predicate Inv(s: State) {
    ServerInv(s.server, s.now) && AgentsInv(s) && MessagesInv(s)
      && (forall f :: f in s.server.leases ==> s.server.leases[f].acquiredBy in s.agents)
  }

  // ---- What a change of one part does to the rest ----

  /** A step of one attempt: the others are not concerned by heartbeats of its lease. */
  lemma AgentStep(s: State, a: nat, agent: Agent, messages: set<Message>)
    requires Inv(s)
    requires var t := SetAgent(s, a, agent, messages);
             AgentInv(t, a, agent) && forall m :: m in messages ==> MessageInv(t, m) && OwnHeartbeat(s, a, m)
    ensures Inv(SetAgent(s, a, agent, messages))
  {
  }

  predicate OwnHeartbeat(s: State, a: nat, m: Message) {
    m.HeartbeatSent? ==> m.fence in s.server.leases && s.server.leases[m.fence].acquiredBy == a
  }

  /** What the control plane may do to a lease: nothing that matters, or accept a heartbeat that was sent. */
  predicate LeaseStep(s: State, f: nat, l: Lease, k: Lease) {
    && k.acquiredBy == l.acquiredBy
    && ((k.heartbeat == l.heartbeat && k.expiresAt == l.expiresAt)
        || (HeartbeatSent(f, k.heartbeat) in s.sent && k.heartbeat > l.heartbeat && k.expiresAt == s.now + LEASE_MS))
  }

  predicate LeaseFrom(s: State, f: nat, k: Lease) {
    if f in s.server.leases then LeaseStep(s, f, s.server.leases[f], k)
    else k.heartbeat == 0 && k.expiresAt == s.now + LEASE_MS && k.acquiredBy in s.agents
  }

  /** A step of the control plane, which never sends heartbeats itself. */
  lemma ServerStep(s: State, t: State)
    requires Inv(s) && ServerInv(t.server, t.now)
    requires t.agents == s.agents && t.now == s.now && s.sent <= t.sent
    requires forall f :: f in s.server.leases ==> f in t.server.leases
    requires forall f :: f in t.server.leases ==> LeaseFrom(s, f, t.server.leases[f])
    requires forall m :: m in t.sent && m !in s.sent ==> !m.HeartbeatSent? && MessageInv(t, m)
    ensures Inv(t)
  {
  }

  // ---- Every step keeps the invariant ----

  lemma TickKeeps(s: State)
    requires Inv(s)
    ensures Inv(s.(now := s.now + 1))
  {
  }

  lemma AskKeeps(s: State, a: nat)
    requires Inv(s) && a !in s.agents
    ensures Inv(SetAgent(s, a, Acquiring(s.now), {AcquireSent(a)}))
  {
  }

  lemma TakeKeeps(s: State, a: nat, f: nat)
    requires Inv(s) && Enabled(s, TakeLease(a, f))
    ensures Inv(After(s, TakeLease(a, f), LEASE_MS))
  {
    var askedAt := s.agents[a].leaseSentAt;
    assert AgentInv(s, a, s.agents[a]) && MessageInv(s, LeaseGranted(a, f));
    assert UntouchedBy(s, a, askedAt, f);
    var messages := {StartedSent(f)};
    var t := SetAgent(s, a, Starting(f, askedAt), messages);
    SameHeartbeats(s.sent, messages, f);
    AgentStep(s, a, Starting(f, askedAt), messages);
  }

  lemma SameHeartbeats(sent: set<Message>, messages: set<Message>, f: nat)
    requires forall m :: m in messages ==> !m.HeartbeatSent?
    ensures NoHeartbeats(sent, f) ==> NoHeartbeats(sent + messages, f)
    ensures forall h :: HeartbeatsBehind(sent, f, h) ==> HeartbeatsBehind(sent + messages, f, h)
  {
  }

  /** A new heart for an active attempt, with no heartbeat sent. */
  lemma HeartKeeps(s: State, a: nat, heart: Heart)
    requires Inv(s) && IsActive(s, a)
    requires var f := s.agents[a].fence;
             f in s.server.leases && HeartInv(heart, s.server.leases[f], s.now) && HeartbeatsBehind(s.sent, f, heart)
    ensures Inv(SetHeart(s, a, heart, {}))
  {
  }

  lemma BeginKeeps(s: State, a: nat, duration: nat)
    requires Inv(s) && Enabled(s, Begin(a)) && duration <= LEASE_MS
    ensures Inv(After(s, Begin(a), duration))
  {
    var agent := s.agents[a];
    assert AgentInv(s, a, agent);
    assert UntouchedBy(s, a, agent.leaseSentAt, agent.fence);
    assert s.sent + {} == s.sent;
    AgentStep(s, a, Active(agent.fence, StartHeart(agent.leaseSentAt, duration), Working), {});
  }

  lemma PollKeeps(s: State, a: nat)
    requires Inv(s) && IsActive(s, a)
    ensures Inv(After(s, PollHeartbeat(a), LEASE_MS))
  {
    var agent := s.agents[a];
    var heart := Poll(agent.heart, s.now);
    assert AgentInv(s, a, agent);
    if agent.heart.inFlight.None? && heart.inFlight.Some? {
      var messages := {HeartbeatSent(agent.fence, heart.inFlight.value.sequence)};
      var t := SetAgent(s, a, agent.(heart := heart), messages);
      assert HeartbeatsBehind(t.sent, agent.fence, heart);
      AgentStep(s, a, agent.(heart := heart), messages);
    } else {
      HeartKeeps(s, a, heart);
    }
  }

  /**
   * The answer moves the deadline to a moment the stored lease covers, because the sequence's
   * first send came before it was stored.
   */
  lemma AnswerKeeps(s: State, a: nat, cancelRequested: bool, duration: nat)
    requires Inv(s) && Enabled(s, HeartbeatAnswer(a, cancelRequested)) && duration <= LEASE_MS
    ensures Inv(After(s, HeartbeatAnswer(a, cancelRequested), duration))
  {
    var agent := s.agents[a];
    assert AgentInv(s, a, agent);
    assert MessageInv(s, HeartbeatStored(agent.fence, agent.heart.inFlight.value.sequence, cancelRequested));
    HeartKeeps(s, a, Answered(agent.heart, s.now, duration, cancelRequested));
  }

  lemma AdvanceKeeps(s: State, a: nat, stage: Stage, messages: set<Message>)
    requires Inv(s) && IsActive(s, a) && forall m :: m in messages ==> m.CompletionSent?
    ensures Inv(SetAgent(s, a, s.agents[a].(stage := stage), messages))
  {
  }

  lemma NextFenceIsNew(sv: Server, now: nat)
    requires ServerInv(sv, now)
    ensures sv.fence + 1 !in sv.leases
  {
  }

  lemma GrantKeeps(s: State, a: nat)
    requires Inv(s) && Enabled(s, GrantLease(a))
    ensures Inv(After(s, GrantLease(a), LEASE_MS))
  {
    var t := After(s, GrantLease(a), LEASE_MS);
    assert MessageInv(s, AcquireSent(a));
    forall f | f in t.server.leases
      ensures OldLease(t.server, t.now, f) && LeaseFrom(s, f, t.server.leases[f])
    {
      assert f in s.server.leases ==> OldLease(s.server, s.now, f);
      NextFenceIsNew(s.server, s.now);
    }
    ServerStep(s, t);
  }

  lemma StoreStartedKeeps(s: State, f: nat)
    requires Inv(s) && Enabled(s, StoreStarted(f))
    ensures Inv(After(s, StoreStarted(f), LEASE_MS))
  {
    var t := After(s, StoreStarted(f), LEASE_MS);
    forall g | g in t.server.leases
      ensures OldLease(t.server, t.now, g) && LeaseFrom(s, g, t.server.leases[g])
    {
      assert OldLease(s.server, s.now, g);
    }
    ServerStep(s, t);
  }

  lemma StoreHeartbeatKeeps(s: State, f: nat, q: nat)
    requires Inv(s) && Enabled(s, StoreHeartbeat(f, q))
    ensures Inv(After(s, StoreHeartbeat(f, q), LEASE_MS))
  {
    var t := After(s, StoreHeartbeat(f, q), LEASE_MS);
    assert OldLease(s.server, s.now, f);
    forall g | g in t.server.leases
      ensures OldLease(t.server, t.now, g) && LeaseFrom(s, g, t.server.leases[g])
    {
      assert OldLease(s.server, s.now, g);
    }
    ServerStep(s, t);
  }

  /** Expiry, cancellation, revocation and completion change the run, not its leases. */
  lemma RunStateKeeps(s: State, server: Server)
    requires Inv(s)
    requires server.leases == s.server.leases && server.fence == s.server.fence
    requires server.current.Some? ==> server.current == s.server.current
    requires server.state == Queued && s.server.state != Queued ==>
               s.server.current.Some? && s.server.leases[s.server.fence].expiresAt <= s.now
    ensures Inv(s.(server := server))
  {
  }

  lemma AgentStepsKeep(s: State, step: Step, duration: nat)
    requires Inv(s) && Enabled(s, step) && duration <= LEASE_MS
    requires step.Begin? || step.GiveUp? || step.Abort? || step.Crash? || step.HeartbeatFailure? || step.Advance? ||
             step.ResultAnswer?
    ensures Inv(After(s, step, duration))
  {
    hide ServerInv;
    assert AgentInv(s, step.a, s.agents[step.a]);
    match step
    case Begin(a) => BeginKeeps(s, a, duration);
    case GiveUp(a) => AgentStep(s, a, Stopped, {CompletionSent(s.agents[a].fence, Failed)});
    case Abort(a) => HeartKeeps(s, a, s.agents[a].heart.(aborted := true));
    case Crash(a) => AgentStep(s, a, Stopped, {});
    case HeartbeatFailure(a, error) => HeartKeeps(s, a, Refused(s.agents[a].heart, error));
    case Advance(a, ok, kind) =>
      var agent := s.agents[a];
      var d := Decide(agent.stage, Lost(agent.heart, s.now), agent.heart.cancelSeen, ok, kind);
      AdvanceKeeps(s, a, d.stage, if d.completion.Some? then {CompletionSent(agent.fence, d.completion.value)} else {});
    case ResultAnswer(a, conflict) => AdvanceKeeps(s, a, if conflict then Conflict else LeaseModel.Finished, {});
  }

  lemma StepKeeps(s: State, step: Step, duration: nat)
    requires Inv(s) && Enabled(s, step) && duration <= LEASE_MS
    ensures Inv(After(s, step, duration))
  {
    match step
    case Tick => TickKeeps(s);
    case AskForLease(a) => AskKeeps(s, a);
    case GrantLease(a) => GrantKeeps(s, a);
    case TakeLease(a, f) => TakeKeeps(s, a, f);
    case StoreStarted(f) => StoreStartedKeeps(s, f);
    case PollHeartbeat(a) => PollKeeps(s, a);
    case StoreHeartbeat(f, sequence) => StoreHeartbeatKeeps(s, f, sequence);
    case HeartbeatAnswer(a, cancelRequested) => AnswerKeeps(s, a, cancelRequested, duration);
    case StoreCompletion(_, kind) => RunStateKeeps(s, Complete(s.server, kind));
    case ExpireLease => RunStateKeeps(s, Expire(s.server));
    case CancelByOperator => RunStateKeeps(s, OperatorCancel(s.server));
    case RevokeRunner => RunStateKeeps(s, Revoke(s.server));
    case _ => AgentStepsKeep(s, step, duration);
  }

  /** The invariant holds in every state of every run. */
  lemma {:induction false} RunKeeps(run: seq<State>, steps: seq<Step>, duration: nat, i: nat)
    requires IsRun(run, steps, duration) && duration <= LEASE_MS && i < |run|
    ensures Inv(run[i])
  {
    if i > 0 {
      RunKeeps(run, steps, duration, i - 1);
      assert StepTaken(run[i - 1], steps[i - 1], run[i - 1 + 1], duration);
      StepKeeps(run[i - 1], steps[i - 1], duration);
    }
  }
}
