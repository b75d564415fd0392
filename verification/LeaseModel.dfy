/**
 * One run, the control plane that leases it, any number of runner attempts on it, and
 * a network that loses, delays and repeats messages, as steps of a state machine.
 * Times are milliseconds of one clock: durations agree on both sides.
 */
module LeaseModel {
  import opened Wrappers

  const LEASE_MS := 30000    // what the control plane grants
  const MARGIN_MS := 7000    // what a runner keeps for fencing itself off
  const MAX_FENCE := 9223372036854775807

  // ---- The runner's heartbeat bookkeeping ----

  datatype Request = Request(sequence: nat, sentAt: nat)

  datatype Heart = Heart(
    sequence: nat,              // the last one known to be accepted
    deadline: int,              // when authority ends
    failed: bool,
    cancelSeen: bool,
    pending: Option<nat>,       // when the unanswered sequence was first sent
    inFlight: Option<Request>,
    aborted: bool)

  function StartHeart(leaseSentAt: nat, duration: nat): Heart {
    Heart(1, leaseSentAt + duration, false, false, None, None, false)
  }

  predicate Overdue(h: Heart, now: nat) {
    now >= h.deadline - MARGIN_MS
  }

  predicate Lost(h: Heart, now: nat) {
    h.aborted || h.failed || Overdue(h, now)
  }

  /** A poll: what it leaves behind; it sends a heartbeat exactly when a request becomes in flight. */
  function Poll(h: Heart, now: nat): Heart {
    if Lost(h, now) then h.(failed := true)
    else if h.inFlight.Some? then h
    else
      var first := if h.pending.Some? then h.pending.value else now;
      h.(pending := Some(first), inFlight := Some(Request(h.sequence + 1, first)))
  }

  function Answered(h: Heart, now: nat, duration: nat, cancelRequested: bool): Heart
    requires h.inFlight.Some?
  {
    if h.failed || Overdue(h, now) then h.(failed := true, inFlight := None)
    else
      h.(sequence := h.inFlight.value.sequence, deadline := h.inFlight.value.sentAt + duration,
         cancelSeen := h.cancelSeen || cancelRequested, pending := None, inFlight := None)
  }

  /** Why a heartbeat came back without an answer. */
  datatype HeartbeatError =
    | StaleFence | LeaseExpired | LeaseOwnerMismatch | SequenceStale | Status(code: nat) | NoResponse

  predicate Fatal(e: HeartbeatError) {
    e.StaleFence? || e.LeaseExpired? || e.LeaseOwnerMismatch? || e == Status(401) || e == Status(403)
  }

  function Refused(h: Heart, e: HeartbeatError): Heart {
    h.(failed := h.failed || Fatal(e), inFlight := None)
  }

  // ---- The control plane ----

  datatype RunState = Queued | Leased | Running | CancelRequested | Succeeded | Failed | Cancelled

  predicate Terminal(state: RunState) {
    state.Succeeded? || state.Failed? || state.Cancelled?
  }

  /** The transitions a run may take. */
  predicate Allowed(from: RunState, to: RunState) {
    match from
    case Queued => to.Leased? || to.Cancelled? || to.Failed?
    case Leased => to.Queued? || to.Running? || to.CancelRequested? || to.Failed?
    case Running => to.CancelRequested? || to.Succeeded? || to.Failed?
    case CancelRequested => to.Cancelled? || to.Failed?
    case _ => false
  }

  datatype Lease = Lease(acquiredBy: nat, expiresAt: nat, heartbeat: nat, started: bool)

  /** Leases are told apart by their fence; `current` is the fence of the lease in force. */
  datatype Server = Server(state: RunState, fence: nat, leases: map<nat, Lease>, current: Option<nat>)

  const NEW_RUN := Server(Queued, 0, map[], None)

  predicate HasAuthority(sv: Server, now: nat, fence: nat) {
    sv.current == Some(fence) && fence in sv.leases && now < sv.leases[fence].expiresAt
  }

  predicate CanAcquire(sv: Server) {
    sv.state == Queued && sv.current == None
  }

  function Acquire(sv: Server, now: nat, agent: nat): Server
    requires CanAcquire(sv)
  {
    if sv.fence >= MAX_FENCE then sv.(state := Failed)
    else
      var fence := sv.fence + 1;
      Server(Leased, fence, sv.leases[fence := Lease(agent, now + LEASE_MS, 0, false)], Some(fence))
  }

  /** The started event: recorded once, replayed afterwards. */
  predicate AcceptsStarted(sv: Server, now: nat, fence: nat) {
    fence in sv.leases &&
    (sv.leases[fence].started
     || (HasAuthority(sv, now, fence) && (sv.state == CancelRequested || Allowed(sv.state, Running))))
  }

  function Start(sv: Server, now: nat, fence: nat): Server
    requires AcceptsStarted(sv, now, fence)
  {
    var lease := sv.leases[fence];
    if lease.started then sv
    else sv.(state := if sv.state == CancelRequested then CancelRequested else Running,
             leases := sv.leases[fence := lease.(started := true)])
  }

  datatype HeartbeatResult = Accepted | Replayed | Rejected(error: HeartbeatError)

  function JudgeHeartbeat(sv: Server, now: nat, fence: nat, sequence: nat): HeartbeatResult {
    if fence !in sv.leases then Rejected(StaleFence)
    else if sv.leases[fence].heartbeat == sequence > 0 then Replayed
    else if sv.current != Some(fence) then Rejected(StaleFence)
    else if now >= sv.leases[fence].expiresAt then Rejected(LeaseExpired)
    else if sequence <= sv.leases[fence].heartbeat then Rejected(SequenceStale)
    else Accepted
  }

  function Extend(sv: Server, now: nat, fence: nat, sequence: nat): Server
    requires fence in sv.leases
  {
    sv.(leases := sv.leases[fence := sv.leases[fence].(expiresAt := now + LEASE_MS, heartbeat := sequence)])
  }

  predicate CanExpire(sv: Server, now: nat) {
    && sv.current.Some? && sv.current.value in sv.leases && now >= sv.leases[sv.current.value].expiresAt
    && (sv.state == Leased || sv.state == Running || sv.state == CancelRequested)
  }

  function Expire(sv: Server): Server {
    sv.(state := if sv.state == Leased then Queued else Failed, current := None)
  }

  function OperatorCancel(sv: Server): Server {
    if sv.state == Queued then sv.(state := Cancelled, current := None)
    else if Allowed(sv.state, CancelRequested) then sv.(state := CancelRequested)
    else sv
  }

  /** Revoking a runner takes its lease away at once. */
  function Revoke(sv: Server): Server {
    sv.(state := if Allowed(sv.state, CancelRequested) then CancelRequested else sv.state, current := None)
  }

  predicate AcceptsCompletion(sv: Server, now: nat, fence: nat, kind: RunState) {
    Terminal(kind) && HasAuthority(sv, now, fence) && Allowed(sv.state, kind)
  }

  function Complete(sv: Server, kind: RunState): Server {
    sv.(state := kind, current := None)
  }

  // ---- Runner attempts ----

  /** How far an attempt that owns a started lease has come. */
  datatype Stage =
    | Working
    | Publishing(kind: RunState)
    | ResultReady(kind: RunState)           // published; about to complete
    | ResultSent(kind: RunState)
    | Conflict                              // the control plane refused the transition
    | Stopping
    | CancelPublishing(cleanupFailed: bool)
    | CancelReady(cleanupFailed: bool)      // published; about to acknowledge the cancel
    | Finished

  datatype Agent =
    | Acquiring(leaseSentAt: nat)
    | Starting(fence: nat, leaseSentAt: nat)
    | Active(fence: nat, heart: Heart, stage: Stage)
    | Stopped

  datatype Message =
    | AcquireSent(agent: nat)
    | LeaseGranted(agent: nat, fence: nat)
    | StartedSent(fence: nat)
    | StartedStored(fence: nat)
    | HeartbeatSent(fence: nat, sequence: nat)
    | HeartbeatStored(fence: nat, sequence: nat, cancelRequested: bool)
    | CompletionSent(fence: nat, kind: RunState)

  /** Whether a stage moves on to the next, and with which completion, when the runner looks at its authority. */
  datatype Decision = Decision(stage: Stage, completion: Option<RunState>)

  /**
   * What an attempt does next at the points where it asks whether authority is lost.
   * `ok` and `kind` are what its surroundings brought: did publishing or cleaning up
   * go well, and how the tool ended.
   */
  function Decide(stage: Stage, lost: bool, cancelSeen: bool, ok: bool, kind: RunState): Decision {
    match stage
    case Working =>
      if lost || (!cancelSeen && !ok) then Decision(Finished, Some(Failed))
      else if cancelSeen then Decision(Stopping, None)
      else Decision(Publishing(if kind == Succeeded then Succeeded else Failed), None)
    case Publishing(k) =>
      if ok then Decision(ResultReady(k), None) else Decision(Finished, Some(Failed))
    case ResultReady(k) =>
      if lost then Decision(Finished, Some(Failed)) else Decision(ResultSent(k), Some(k))
    case Conflict =>
      if lost then Decision(Finished, Some(Failed))
      else if cancelSeen then Decision(Stopping, None)
      else Decision(Finished, None)
    case Stopping =>
      if lost then Decision(Finished, Some(Failed)) else Decision(CancelPublishing(!ok), None)
    case CancelPublishing(cleanupFailed) =>
      if ok then Decision(CancelReady(cleanupFailed), None) else Decision(Finished, Some(Failed))
    case CancelReady(cleanupFailed) =>
      Decision(Finished, Some(if lost || cleanupFailed then Failed else Cancelled))
    case _ => Decision(stage, None)
  }

  // ---- The whole system ----

  datatype State = State(now: nat, server: Server, agents: map<nat, Agent>, sent: set<Message>)

  const START_STATE := State(0, NEW_RUN, map[], {})

  datatype Step =
    | Tick
    | AskForLease(a: nat)
    | GrantLease(a: nat)
    | TakeLease(a: nat, f: nat)
    | StoreStarted(f: nat)
    | Begin(a: nat)
    | GiveUp(a: nat)
    | Abort(a: nat)
    | Crash(a: nat)
    | PollHeartbeat(a: nat)
    | StoreHeartbeat(f: nat, sequence: nat)
    | HeartbeatAnswer(a: nat, cancelRequested: bool)
    | HeartbeatFailure(a: nat, error: HeartbeatError)
    | Advance(a: nat, ok: bool, kind: RunState)
    | ResultAnswer(a: nat, conflict: bool)
    | StoreCompletion(f: nat, kind: RunState)
    | ExpireLease
    | CancelByOperator
    | RevokeRunner

  predicate IsActive(s: State, a: nat) {
    a in s.agents && s.agents[a].Active?
  }

  function SetAgent(s: State, a: nat, agent: Agent, messages: set<Message>): State {
    s.(agents := s.agents[a := agent], sent := s.sent + messages)
  }

  predicate Enabled(s: State, step: Step) {
    match step
    case Tick => true
    case AskForLease(a) => a !in s.agents
    case GrantLease(a) => AcquireSent(a) in s.sent && CanAcquire(s.server)
    case TakeLease(a, f) => a in s.agents && s.agents[a].Acquiring? && LeaseGranted(a, f) in s.sent
    case StoreStarted(f) => StartedSent(f) in s.sent && AcceptsStarted(s.server, s.now, f)
    case Begin(a) => a in s.agents && s.agents[a].Starting? && StartedStored(s.agents[a].fence) in s.sent
    case GiveUp(a) => a in s.agents && s.agents[a].Starting?
    case Abort(a) => IsActive(s, a)
    case Crash(a) => a in s.agents
    case PollHeartbeat(a) => IsActive(s, a)
    case StoreHeartbeat(f, sequence) =>
      HeartbeatSent(f, sequence) in s.sent && !JudgeHeartbeat(s.server, s.now, f, sequence).Rejected?
    case HeartbeatAnswer(a, cancelRequested) =>
      && IsActive(s, a) && s.agents[a].heart.inFlight.Some?
      && HeartbeatStored(s.agents[a].fence, s.agents[a].heart.inFlight.value.sequence, cancelRequested) in s.sent
    case HeartbeatFailure(a, _) => IsActive(s, a) && s.agents[a].heart.inFlight.Some?
    case Advance(a, _, _) => IsActive(s, a) && (s.agents[a].stage.Conflict? ==> s.agents[a].heart.inFlight.None?)
    case ResultAnswer(a, _) => IsActive(s, a) && s.agents[a].stage.ResultSent?
    case StoreCompletion(f, kind) => CompletionSent(f, kind) in s.sent && AcceptsCompletion(s.server, s.now, f, kind)
    case ExpireLease => CanExpire(s.server, s.now)
    case CancelByOperator => true
    case RevokeRunner => s.server.current.Some?
  }

  /** What an enabled step makes of the state; `duration` is the lease length the runners are configured with. */
  function After(s: State, step: Step, duration: nat): State
    requires Enabled(s, step)
  {
    match step
    case Tick => s.(now := s.now + 1)
    case AskForLease(a) => SetAgent(s, a, Acquiring(s.now), {AcquireSent(a)})
    case GrantLease(a) =>
      var server := Acquire(s.server, s.now, a);
      s.(server := server, sent := if server.state == Leased then s.sent + {LeaseGranted(a, server.fence)} else s.sent)
    case TakeLease(a, f) => SetAgent(s, a, Starting(f, s.agents[a].leaseSentAt), {StartedSent(f)})
    case StoreStarted(f) => s.(server := Start(s.server, s.now, f), sent := s.sent + {StartedStored(f)})
    case Begin(a) =>
      var agent := s.agents[a];
      SetAgent(s, a, Active(agent.fence, StartHeart(agent.leaseSentAt, duration), Working), {})
    case GiveUp(a) => SetAgent(s, a, Stopped, {CompletionSent(s.agents[a].fence, Failed)})
    case Abort(a) => SetHeart(s, a, s.agents[a].heart.(aborted := true), {})
    case Crash(a) => SetAgent(s, a, Stopped, {})
    case PollHeartbeat(a) =>
      var heart := s.agents[a].heart;
      var polled := Poll(heart, s.now);
      SetHeart(s, a, polled, if heart.inFlight.None? && polled.inFlight.Some?
                             then {HeartbeatSent(s.agents[a].fence, polled.inFlight.value.sequence)} else {})
    case StoreHeartbeat(f, sequence) =>
      var server := if JudgeHeartbeat(s.server, s.now, f, sequence).Accepted?
                    then Extend(s.server, s.now, f, sequence) else s.server;
      s.(server := server, sent := s.sent + {HeartbeatStored(f, sequence, s.server.state == CancelRequested)})
    case HeartbeatAnswer(a, cancelRequested) =>
      SetHeart(s, a, Answered(s.agents[a].heart, s.now, duration, cancelRequested), {})
    case HeartbeatFailure(a, error) => SetHeart(s, a, Refused(s.agents[a].heart, error), {})
    case Advance(a, ok, kind) =>
      var agent := s.agents[a];
      var d := Decide(agent.stage, Lost(agent.heart, s.now), agent.heart.cancelSeen, ok, kind);
      SetAgent(s, a, agent.(stage := d.stage),
               if d.completion.Some? then {CompletionSent(agent.fence, d.completion.value)} else {})
    case ResultAnswer(a, conflict) =>
      SetAgent(s, a, s.agents[a].(stage := if conflict then Conflict else Finished), {})
    case StoreCompletion(_, kind) => s.(server := Complete(s.server, kind))
    case ExpireLease => s.(server := Expire(s.server))
    case CancelByOperator => s.(server := OperatorCancel(s.server))
    case RevokeRunner => s.(server := Revoke(s.server))
  }

  function SetHeart(s: State, a: nat, heart: Heart, messages: set<Message>): State
    requires IsActive(s, a)
  {
    SetAgent(s, a, s.agents[a].(heart := heart), messages)
  }

  /** The states of a run of the system, from the start, as the given steps take it. */
  predicate IsRun(run: seq<State>, steps: seq<Step>, duration: nat) {
    && |run| == |steps| + 1 && run[0] == START_STATE
    && forall i :: 0 <= i < |steps| ==> StepTaken(run[i], steps[i], run[i + 1], duration)
  }

  predicate StepTaken(s: State, step: Step, t: State, duration: nat) {
    Enabled(s, step) && t == After(s, step, duration)
  }

  /** The runner's own view that it may act on the run. */
  predicate HoldsAuthority(s: State, a: nat) {
    IsActive(s, a) && !Lost(s.agents[a].heart, s.now)
  }
}
