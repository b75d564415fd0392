/**
 * Commands sent through the outbox to a control plane that keeps one stored response per
 * key, over any sequence of attempts, crashes, lost and repeated messages.
 */
module OutboxProtocol {
  import opened Outbox

  /** A stored command: its digest and whether its response was a success. */
  datatype Row = Row(digest: string, success: bool)

  /** What the control plane looks stored commands up by. */
  datatype Slot = Slot(route: string, operation: string, key: Key)

  datatype Attempt = Idle | Waiting(key: Key, request: Request)

  datatype Sent = Sent(key: Key, request: Request)

  datatype Outcome = Success | Failure | Conflict

  /** An answer, and whether it is a stored response or one that nothing was stored for. */
  datatype Answer = Answer(key: Key, request: Request, outcome: Outcome, stored: bool)

  datatype State = State(
    files: Files,
    attempt: Attempt,
    sent: set<Sent>,
    rows: map<Slot, Row>,
    answers: set<Answer>,
    created: map<Key, Request>, // every key that was ever the key of a whole entry, and its request
    removed: set<Key>)          // the keys whose entries were removed

  const START := State(map[], Idle, {}, map[], {}, map[], {})

  datatype Step =
    | Resume(key: Key, request: Request)                // an entry is found and sent again
    | Create(key: Key, request: Request, crash: bool)   // a new entry is written, and sent unless a crash comes first
    | Tear(key: Key, request: Request)                  // a crash cuts the new entry short
    | Crash
    | Serve(key: Key, request: Request, success: bool)  // the control plane handles one copy of a message
    | Decline(key: Key, request: Request)               // it fails without storing anything
    | Receive(outcome: Outcome)
    | Garble                                            // an answer arrives that does not match the request

  function SlotOf(key: Key, request: Request): Slot {
    Slot(request.route, request.operation, key)
  }

  predicate Answered(s: State, key: Key, request: Request, outcome: Outcome) {
    Answer(key, request, outcome, true) in s.answers || Answer(key, request, outcome, false) in s.answers
  }

  ghost predicate Enabled(s: State, step: Step) {
    match step
    case Resume(key, request) => s.attempt == Idle && Holds(s.files, key, request)
    case Create(key, request, _) =>
      s.attempt == Idle && Absent(s.files, request) && key !in s.files && key !in s.created
    case Tear(key, request) => s.attempt == Idle && Absent(s.files, request) && key !in s.files && key !in s.created
    case Crash => true
    case Serve(key, request, _) => Sent(key, request) in s.sent
    case Decline(key, request) => Sent(key, request) in s.sent && SlotOf(key, request) !in s.rows
    case Receive(outcome) => s.attempt.Waiting? && Answered(s, s.attempt.key, s.attempt.request, outcome)
    case Garble => s.attempt.Waiting? && s.attempt.request.operation == GRANT
  }

  /** What serving a message stores and answers. */
  function Stored(s: State, key: Key, request: Request, success: bool): (r: (map<Slot, Row>, Outcome)) {
    var slot := SlotOf(key, request);
    if slot in s.rows then
      (s.rows, if s.rows[slot].digest != request.digest then Conflict
               else if s.rows[slot].success then Success else Failure)
    else (s.rows[slot := Row(request.digest, success)], if success then Success else Failure)
  }

  function ReplyOf(outcome: Outcome): Reply {
    if outcome == Success then Granted else Refused
  }

  ghost function After(s: State, step: Step): State
    requires Enabled(s, step)
  {
    match step
    case Resume(key, request) => s.(attempt := Waiting(key, request), sent := s.sent + {Sent(key, request)})
    case Create(key, request, crash) =>
      var t := s.(files := s.files[key := Whole(request)], created := s.created[key := request]);
      if crash then t else t.(attempt := Waiting(key, request), sent := s.sent + {Sent(key, request)})
    case Tear(key, _) => s.(files := s.files[key := Torn])
    case Crash => s.(attempt := Idle)
    case Serve(key, request, success) =>
      var (rows, outcome) := Stored(s, key, request, success);
      s.(rows := rows, answers := s.answers + {Answer(key, request, outcome, true)})
    case Decline(key, request) => s.(answers := s.answers + {Answer(key, request, Failure, false)})
    case Receive(outcome) =>
      if Drops(s.attempt.request, ReplyOf(outcome))
      then s.(files := s.files - {s.attempt.key}, removed := s.removed + {s.attempt.key}, attempt := Idle)
      else s.(attempt := Idle)
    case Garble => s.(attempt := Idle)
  }

  ghost predicate IsRun(run: seq<State>, steps: seq<Step>) {
    && |run| == |steps| + 1 && run[0] == START
    && forall i :: 0 <= i < |steps| ==> StepTaken(run[i], steps[i], run[i + 1])
  }

  ghost predicate StepTaken(s: State, step: Step, t: State) {
    Enabled(s, step) && t == After(s, step)
  }

  // ---- What every step keeps ----

  ghost predicate KeyOk(s: State, key: Key) {
    key in s.created && (if key in s.removed then key !in s.files else Holds(s.files, key, s.created[key]))
  }

  predicate Belongs(s: State, key: Key, request: Request) {
    key in s.created && s.created[key] == request
  }

  predicate RowOk(s: State, slot: Slot)
    requires slot in s.rows
  {
    slot.key in s.created && s.created[slot.key] == Request(slot.route, slot.operation, s.rows[slot].digest)
  }

  /** A stored answer says what its row says, and no other answer is a success. */
  predicate AnswerOk(s: State, answer: Answer) {
    var slot := Slot(answer.request.route, answer.request.operation, answer.key);
    && Belongs(s, answer.key, answer.request)
    && if answer.stored then slot in s.rows && answer.outcome == (if s.rows[slot].success then Success else Failure)
       else answer.outcome == Failure
  }

  ghost predicate Inv(s: State) {
    && OneEntryEach(s.files)
    && (forall k :: k in s.created ==> KeyOk(s, k))
    && (forall k :: k in s.files && s.files[k].Whole? ==> Belongs(s, k, s.files[k].request))
    && (s.attempt.Waiting? ==> Holds(s.files, s.attempt.key, s.attempt.request))
    && (forall m :: m in s.sent ==> Belongs(s, m.key, m.request))
    && (forall slot :: slot in s.rows ==> RowOk(s, slot))
    && (forall a :: a in s.answers ==> AnswerOk(s, a))
    && (forall k :: k in s.removed ==>
          k in s.created
          && (s.created[k].operation == GRANT ==> Succeeded(s, k, s.created[k])))
  }

  /** The response stored for a request under a key is a success. */
  predicate Succeeded(s: State, key: Key, request: Request) {
    var slot := Slot(request.route, request.operation, key);
    slot in s.rows && s.rows[slot] == Row(request.digest, true)
  }

  lemma CreateKeeps(s: State, key: Key, request: Request, crash: bool)
    requires Inv(s) && Enabled(s, Create(key, request, crash))
    ensures Inv(After(s, Create(key, request, crash)))
  {
    var t := After(s, Create(key, request, crash));
    EntryAdded(s.files, key, request);
    forall k | k in t.created
      ensures KeyOk(t, k)
    {
      assert k != key ==> KeyOk(s, k);
    }
    forall slot | slot in t.rows
      ensures RowOk(t, slot)
    {
      assert RowOk(s, slot);
    }
    forall a | a in t.answers
      ensures AnswerOk(t, a)
    {
      assert AnswerOk(s, a);
    }
  }

  lemma TearKeeps(s: State, key: Key, request: Request)
    requires Inv(s) && Enabled(s, Tear(key, request))
    ensures Inv(After(s, Tear(key, request)))
  {
    var t := After(s, Tear(key, request));
    forall k, l, r | Holds(t.files, k, r) && Holds(t.files, l, r)
      ensures k == l
    {
      assert Holds(s.files, k, r) && Holds(s.files, l, r);
    }
    forall k | k in t.created
      ensures KeyOk(t, k)
    {
      assert KeyOk(s, k);
    }
    forall slot | slot in t.rows
      ensures RowOk(t, slot)
    {
      assert RowOk(s, slot);
    }
    forall a | a in t.answers
      ensures AnswerOk(t, a)
    {
      assert AnswerOk(s, a);
    }
  }

  /**
   * The stored command under a message's key is always the message's own, so it is applied or
   * replayed, never refused as a conflict.
   */
  lemma NeverConflicts(s: State, key: Key, request: Request, success: bool)
    requires Inv(s) && Sent(key, request) in s.sent
    ensures Stored(s, key, request, success).1 != Conflict
  {
    assert Belongs(s, key, request);
    assert SlotOf(key, request) in s.rows ==> RowOk(s, SlotOf(key, request));
  }

  lemma ServeKeeps(s: State, key: Key, request: Request, success: bool)
    requires Inv(s) && Enabled(s, Serve(key, request, success))
    ensures Inv(After(s, Serve(key, request, success)))
  {
    hide Holds;
    hide OneEntryEach;
    hide Absent;
    hide Drops;
    hide ReplyOf;
    hide Answered;
    var t := After(s, Serve(key, request, success));
    NeverConflicts(s, key, request, success);
    forall k | k in t.created
      ensures KeyOk(t, k)
    {
      assert KeyOk(s, k);
    }
    forall slot | slot in t.rows
      ensures RowOk(t, slot)
    {
      assert slot in s.rows ==> RowOk(s, slot);
    }
    forall a | a in t.answers
      ensures AnswerOk(t, a)
    {
      assert a in s.answers ==> AnswerOk(s, a);
    }
  }

  lemma ReceiveKeeps(s: State, outcome: Outcome)
    requires Inv(s) && Enabled(s, Receive(outcome))
    ensures Inv(After(s, Receive(outcome)))
  {
    var t := After(s, Receive(outcome));
    var key, request := s.attempt.key, s.attempt.request;
    EntryRemoved(s.files, key, request);
    var stored := Answer(key, request, outcome, true) in s.answers;
    assert AnswerOk(s, Answer(key, request, outcome, stored));
    assert stored ==> RowOk(s, SlotOf(key, request));
    forall k | k in t.created
      ensures KeyOk(t, k)
    {
      assert KeyOk(s, k);
    }
    forall slot | slot in t.rows
      ensures RowOk(t, slot)
    {
      assert RowOk(s, slot);
    }
    forall a | a in t.answers
      ensures AnswerOk(t, a)
    {
      assert AnswerOk(s, a);
    }
  }

  lemma QuietStepKeeps(s: State, step: Step)
    requires Inv(s) && Enabled(s, step) && (step.Resume? || step.Crash? || step.Garble? || step.Decline?)
    ensures Inv(After(s, step))
  {
    var t := After(s, step);
    forall k | k in t.created
      ensures KeyOk(t, k)
    {
      assert KeyOk(s, k);
    }
    forall slot | slot in t.rows
      ensures RowOk(t, slot)
    {
      assert RowOk(s, slot);
    }
    forall a | a in t.answers
      ensures AnswerOk(t, a)
    {
      assert a in s.answers ==> AnswerOk(s, a);
    }
  }

  lemma StepKeeps(s: State, step: Step)
    requires Inv(s) && Enabled(s, step)
    ensures Inv(After(s, step))
  {
    match step
    case Create(key, request, crash) => CreateKeeps(s, key, request, crash);
    case Tear(key, request) => TearKeeps(s, key, request);
    case Serve(key, request, success) => ServeKeeps(s, key, request, success);
    case Receive(outcome) => ReceiveKeeps(s, outcome);
    case _ => QuietStepKeeps(s, step);
  }

  lemma {:induction false} RunKeeps(run: seq<State>, steps: seq<Step>, i: nat)
    requires IsRun(run, steps) && i < |run|
    ensures Inv(run[i])
  {
    if i > 0 {
      RunKeeps(run, steps, i - 1);
      assert StepTaken(run[i - 1], steps[i - 1], run[i - 1 + 1]);
      StepKeeps(run[i - 1], steps[i - 1]);
    }
  }

  // ---- What holds of every run ----

  /** No key is ever sent with two requests, and the control plane never answers with a conflict. */
  lemma KeysNameOneRequest(run: seq<State>, steps: seq<Step>, i: nat)
    requires IsRun(run, steps) && i < |run|
    ensures forall m, n :: m in run[i].sent && n in run[i].sent && m.key == n.key ==> m == n
    ensures forall a :: a in run[i].answers ==> a.outcome != Conflict
    ensures OneEntryEach(run[i].files)
  {
    RunKeeps(run, steps, i);
    forall m, n | m in run[i].sent && n in run[i].sent && m.key == n.key
      ensures m == n
    {
      assert Belongs(run[i], m.key, m.request) && Belongs(run[i], n.key, n.request);
    }
    forall a | a in run[i].answers
      ensures a.outcome != Conflict
    {
      assert AnswerOk(run[i], a);
    }
  }

  // ---- What a response does to the entry ----

  /** Any answer to the request sent may arrive: the stored response, or that nothing was stored. */
  lemma AnswersArrive(s: State, outcome: Outcome)
    ensures Enabled(s, Receive(outcome)) <==>
            s.attempt.Waiting? && exists a :: a in s.answers && a.key == s.attempt.key
                                              && a.request == s.attempt.request && a.outcome == outcome
  {
    if s.attempt.Waiting? {
      forall a | a in s.answers && a.key == s.attempt.key && a.request == s.attempt.request && a.outcome == outcome
        ensures a == Answer(s.attempt.key, s.attempt.request, outcome, a.stored)
      {
      }
    }
  }

  /**
   * An entry is given up with any response, except that of a grant, which only a success ends;
   * nothing else is touched.
   */
  lemma ResponseTaken(s: State, outcome: Outcome)
    requires Enabled(s, Receive(outcome))
    ensures var t, key := After(s, Receive(outcome)), s.attempt.key;
            && t.attempt == Idle && t.sent == s.sent && t.rows == s.rows && t.created == s.created
            && if s.attempt.request.operation == "create_artifact_grant" && outcome != Success
               then t.files == s.files && t.removed == s.removed
               else key !in t.files && key in t.removed
                    && forall k :: k != key ==>
                         (k in t.files <==> k in s.files) && (k in t.files ==> t.files[k] == s.files[k])
                         && (k in t.removed <==> k in s.removed)
  {
  }

  /** A stored command is replayed to the same digest, a conflict for any other, and changes nothing. */
  lemma ReplayExactly(s: State, key: Key, request: Request, success: bool)
    requires Slot(request.route, request.operation, key) in s.rows
    ensures var row, (rows, outcome) :=
              s.rows[Slot(request.route, request.operation, key)], Stored(s, key, request, success);
            && rows == s.rows
            && (outcome == Conflict <==> row.digest != request.digest)
            && (outcome == Success <==> row == Row(request.digest, true))
            && (outcome == Failure <==> row == Row(request.digest, false))
  {
  }

  // ---- A response is stored once and replayed as it is ----

  /** A stored response is never changed. */
  lemma {:induction false} RowsStay(run: seq<State>, steps: seq<Step>, i: nat, j: nat, slot: Slot)
    requires IsRun(run, steps) && i <= j < |run| && slot in run[i].rows
    ensures slot in run[j].rows && run[j].rows[slot] == run[i].rows[slot]
  {
    if i < j {
      RowsStay(run, steps, i, j - 1, slot);
      assert StepTaken(run[j - 1], steps[j - 1], run[j - 1 + 1]);
    }
  }

  /** The first time a request is handled under a key, what came of it is stored and answered. */
  lemma FirstAnswered(run: seq<State>, steps: seq<Step>, i: nat, key: Key, request: Request, success: bool)
    requires IsRun(run, steps) && i < |steps| && steps[i] == Serve(key, request, success)
    requires Slot(request.route, request.operation, key) !in run[i].rows
    ensures run[i + 1].rows ==
            run[i].rows[Slot(request.route, request.operation, key) := Row(request.digest, success)]
    ensures Answer(key, request, if success then Success else Failure, true) in run[i + 1].answers
  {
    assert StepTaken(run[i], steps[i], run[i + 1]);
  }

  /**
   * Every stored answer to a request under a key is the same, however often it is repeated, and
   * is a success exactly when the request succeeded the first time; an answer that is a success
   * is a stored one.
   */
  lemma RepliesAgree(run: seq<State>, steps: seq<Step>, i: nat, j: nat, a: Answer, b: Answer)
    requires IsRun(run, steps) && i <= j < |run| && a in run[i].answers && b in run[j].answers
    requires a.key == b.key && a.request == b.request
    ensures a.stored && b.stored ==> a.outcome == b.outcome
    ensures a.stored ==>
              var slot := Slot(a.request.route, a.request.operation, a.key);
              slot in run[j].rows && (run[j].rows[slot].success <==> a.outcome == Success)
    ensures a.outcome == Success ==> a.stored
  {
    RunKeeps(run, steps, i);
    RunKeeps(run, steps, j);
    assert AnswerOk(run[i], a) && AnswerOk(run[j], b);
    if a.stored {
      RowsStay(run, steps, i, j, Slot(a.request.route, a.request.operation, a.key));
    }
  }

  /** The entry of a grant is only given up once a success is stored for it. */
  lemma RemovedSucceeded(run: seq<State>, steps: seq<Step>, i: nat, key: Key)
    requires IsRun(run, steps) && i < |run| && key in run[i].removed
    ensures key in run[i].created
    ensures var r := run[i].created[key];
            r.operation == "create_artifact_grant" ==>
              var slot := Slot(r.route, r.operation, key);
              slot in run[i].rows && run[i].rows[slot] == Row(r.digest, true)
  {
    RunKeeps(run, steps, i);
  }

  /** The keys under which a request was applied. */
  ghost predicate Applied(s: State, key: Key, request: Request) {
    SlotOf(key, request) in s.rows && s.rows[SlotOf(key, request)].digest == request.digest
  }

  /** An application belongs to the live entry or to one that was removed. */
  lemma AppliedIsKnown(s: State, key: Key, request: Request)
    requires Inv(s) && Applied(s, key, request)
    ensures key in s.removed || Holds(s.files, key, request)
  {
  }

  /** No entry of the request is removed between the two states. */
  ghost predicate NoRemoval(s: State, t: State, request: Request) {
    forall k :: k in t.removed && Belongs(t, k, request) ==> k in s.removed
  }

  /** The request is applied under both keys between the two states. */
  ghost predicate AppliedBoth(s: State, t: State, request: Request, k: Key, l: Key) {
    && !Applied(s, k, request) && !Applied(s, l, request)
    && Applied(t, k, request) && Applied(t, l, request)
  }

  ghost predicate AtMostOnce(request: Request) {
    forall run, steps, i, j, k, l :: IsRun(run, steps) ==> OnceBetween(run, request, i, j, k, l)
  }

  ghost predicate OnceBetween(run: seq<State>, request: Request, i: nat, j: nat, k: Key, l: Key) {
    i <= j < |run| && NoRemoval(run[i], run[j], request) && AppliedBoth(run[i], run[j], request, k, l) ==> k == l
  }

  lemma {:induction false} CreatedStays(run: seq<State>, steps: seq<Step>, i: nat, j: nat, key: Key, request: Request)
    requires IsRun(run, steps) && i <= j < |run| && Belongs(run[i], key, request)
    ensures Belongs(run[j], key, request)
  {
    if i < j {
      CreatedStays(run, steps, i, j - 1, key, request);
      assert StepTaken(run[j - 1], steps[j - 1], run[j - 1 + 1]);
      RunKeeps(run, steps, j - 1);
    }
  }

  /** A grant removed earlier was applied earlier. */
  lemma RemovedWasApplied(s: State, key: Key, request: Request)
    requires Inv(s) && request.operation == GRANT && key in s.removed && Belongs(s, key, request)
    ensures Applied(s, key, request)
  {
  }

  lemma GrantsOnce(run: seq<State>, steps: seq<Step>, request: Request, i: nat, j: nat, k: Key, l: Key)
    requires IsRun(run, steps) && request.operation == GRANT && i <= j < |run|
    requires NoRemoval(run[i], run[j], request) && AppliedBoth(run[i], run[j], request, k, l)
    ensures k == l
  {
    RunKeeps(run, steps, i);
    RunKeeps(run, steps, j);
    NewlyAppliedIsLive(run, steps, request, i, j, k);
    NewlyAppliedIsLive(run, steps, request, i, j, l);
  }

  lemma NewlyAppliedIsLive(run: seq<State>, steps: seq<Step>, request: Request, i: nat, j: nat, k: Key)
    requires IsRun(run, steps) && request.operation == GRANT && i <= j < |run|
    requires Inv(run[i]) && Inv(run[j])
    requires NoRemoval(run[i], run[j], request) && !Applied(run[i], k, request) && Applied(run[j], k, request)
    ensures Holds(run[j].files, k, request)
  {
    AppliedIsKnown(run[j], k, request);
    assert RowOk(run[j], SlotOf(k, request));
    if k in run[j].removed {
      assert k in run[i].removed && k in run[i].created;
      CreatedStays(run, steps, i, j, k, run[i].created[k]);
      RemovedWasApplied(run[i], k, request);
    }
  }

  // ---- Commands that drop their entry with any response ----

  const FIRST: Key := "AAAAAAAAAAAAAAAAAAAAAA"
  const SECOND: Key := "BBBBBBBBBBBBBBBBBBBBBB"

  /** A storage failure is answered, the entry dropped, and then both the old message and its successor get through. */
  function RepeatSteps(r: Request): seq<Step> {
    [Create(FIRST, r, false), Decline(FIRST, r), Receive(Failure), Create(SECOND, r, false),
     Serve(FIRST, r, true), Serve(SECOND, r, true)]
  }

  lemma Declined(r: Request) returns (run: seq<State>)
    requires r.operation != GRANT
    ensures |run| == 4 && run[0] == START
    ensures forall i :: 0 <= i < 3 ==> StepTaken(run[i], RepeatSteps(r)[i], run[i + 1])
    ensures run[3] ==
            State(map[], Idle, {Sent(FIRST, r)}, map[], {Answer(FIRST, r, Failure, false)}, map[FIRST := r], {FIRST})
  {
    var s1 := State(map[FIRST := Whole(r)], Waiting(FIRST, r), {Sent(FIRST, r)}, map[], {}, map[FIRST := r], {});
    var s2 := s1.(answers := {Answer(FIRST, r, Failure, false)});
    var s3 := State(map[], Idle, {Sent(FIRST, r)}, map[], {Answer(FIRST, r, Failure, false)}, map[FIRST := r], {FIRST});
    assert After(START, Create(FIRST, r, false)) == s1;
    assert After(s1, Decline(FIRST, r)) == s2;
    assert s2.files - {FIRST} == map[];
    assert After(s2, Receive(Failure)) == s3;
    run := [START, s1, s2, s3];
  }

  lemma ServedTwice(r: Request, s3: State) returns (run: seq<State>)
    requires s3 ==
             State(map[], Idle, {Sent(FIRST, r)}, map[], {Answer(FIRST, r, Failure, false)}, map[FIRST := r], {FIRST})
    ensures |run| == 4 && run[0] == s3
    ensures forall i :: 0 <= i < 3 ==> StepTaken(run[i], RepeatSteps(r)[3 + i], run[i + 1])
    ensures run[1].removed == run[3].removed == {FIRST} && run[1].rows == map[]
    ensures Applied(run[3], FIRST, r) && Applied(run[3], SECOND, r)
  {
    assert FIRST[0] != SECOND[0];
    var s4 := After(s3, Create(SECOND, r, false));
    var s5 := After(s4, Serve(FIRST, r, true));
    var s6 := After(s5, Serve(SECOND, r, true));
    run := [s3, s4, s5, s6];
  }

  lemma RepeatedWithoutGrant(r: Request) returns (run: seq<State>)
    requires r.operation != GRANT
    ensures IsRun(run, RepeatSteps(r)) && !OnceBetween(run, r, 4, 6, FIRST, SECOND)
  {
    var front := Declined(r);
    var back := ServedTwice(r, front[3]);
    run := front + back[1..];
    var steps := RepeatSteps(r);
    forall i | 0 <= i < |steps|
      ensures StepTaken(run[i], steps[i], run[i + 1])
    {
      if i >= 3 {
        assert StepTaken(back[i - 3], steps[3 + (i - 3)], back[i - 3 + 1]);
      }
    }
    assert FIRST[0] != SECOND[0];
  }

  /**
   * Between two removals of its entry a request is applied at most once, in every run,
   * exactly when it is a grant: the other commands give up their entry with any response.
   */
  lemma AtMostOnceExactly(request: Request)
    ensures AtMostOnce(request) <==> request.operation == GRANT
  {
    if request.operation == GRANT {
      forall run, steps, i: nat, j: nat, k, l | IsRun(run, steps)
        ensures OnceBetween(run, request, i, j, k, l)
      {
        if i <= j < |run| && NoRemoval(run[i], run[j], request) && AppliedBoth(run[i], run[j], request, k, l) {
          GrantsOnce(run, steps, request, i, j, k, l);
        }
      }
    } else {
      var run := RepeatedWithoutGrant(request);
    }
  }
}
