/** The runner's heartbeat closure as the object it is: fields changed by polls, answers and failures. */
module HeartbeatLoop {
  import opened LeaseModel
  import opened Wrappers

  class HeartbeatLoop {
    const leaseDurationMs: nat
    var hbSeq: nat
    var authorityDeadline: int
    var hbFailed: bool
    var cancellationRequested: bool
    var pendingSent: Option<nat>
    var inFlight: Option<Request> // the request being awaited, with the sequence and send time its handler captured
    var aborted: bool

    constructor (leaseSentAt: nat, leaseDurationMs: nat)
      ensures this.leaseDurationMs == leaseDurationMs
      ensures HeartOf() == StartHeart(leaseSentAt, leaseDurationMs)
    {
      this.leaseDurationMs := leaseDurationMs;
      authorityDeadline := leaseSentAt + leaseDurationMs;
      hbSeq, hbFailed, cancellationRequested := 1, false, false;
      pendingSent, inFlight, aborted := None, None, false;
    }

    function HeartOf(): Heart
      reads this
    {
      Heart(hbSeq, authorityDeadline, hbFailed, cancellationRequested, pendingSent, inFlight, aborted)
    }

    /** Sends the next heartbeat unless authority is lost or one is in flight. */
    method PollHeartbeat(now: nat) returns (sent: Option<nat>)
      modifies this
      ensures HeartOf() == Poll(old(HeartOf()), now)
      ensures sent == (if old(inFlight).None? && inFlight.Some? then Some(inFlight.value.sequence) else None)
    {
      sent := None;
      if hbFailed || aborted || now >= authorityDeadline - 7000 {
        hbFailed := true;
        return;
      }
      if inFlight != None {
        return;
      }
      if pendingSent == None {
        pendingSent := Some(now);
      }
      var nextSeq := hbSeq + 1;
      inFlight := Some(Request(nextSeq, pendingSent.value));
      sent := Some(nextSeq);
    }

    method OnAnswer(now: nat, cancelRequested: bool)
      requires inFlight.Some?
      modifies this
      ensures HeartOf() == Answered(old(HeartOf()), now, leaseDurationMs, cancelRequested)
    {
      var request := inFlight.value;
      inFlight := None;
      if hbFailed || now >= authorityDeadline - 7000 {
        hbFailed := true;
        return;
      }
      hbSeq := request.sequence;
      pendingSent := None;
      authorityDeadline := request.sentAt + leaseDurationMs;
      cancellationRequested := cancellationRequested || cancelRequested;
    }

    method OnFailure(error: HeartbeatError)
      modifies this
      ensures HeartOf() == Refused(old(HeartOf()), error)
    {
      if error == Status(401) || error == Status(403) || error.StaleFence? || error.LeaseExpired?
         || error.LeaseOwnerMismatch? {
        hbFailed := true;
      }
      inFlight := None;
    }

    method IsAuthorityLost(now: nat) returns (lost: bool)
      ensures lost == Lost(HeartOf(), now)
    {
      lost := aborted || hbFailed || now >= authorityDeadline - 7000;
    }

    /** The signal is aborted; authority is lost from here on. */
    method Abort()
      modifies this
      ensures HeartOf() == old(HeartOf()).(aborted := true)
    {
      aborted := true;
    }
  }

  /** Polls that went unanswered, one after the other: when each was made and how it failed. */
  function Retried(h: Heart, tries: seq<(nat, HeartbeatError)>): Heart
    decreases |tries|
  {
    if tries == [] then h else Retried(Refused(Poll(h, tries[0].0), tries[0].1), tries[1..])
  }

  /** One more unanswered poll. */
  lemma {:induction false} RetriedOn(h: Heart, tries: seq<(nat, HeartbeatError)>, at: nat, error: HeartbeatError)
    ensures Retried(h, []) == h
    ensures Retried(h, tries + [(at, error)]) == Refused(Poll(Retried(h, tries), at), error)
    decreases |tries|
  {
    var more := tries + [(at, error)];
    if tries == [] {
      assert more[1..] == [];
    } else {
      assert more[1..] == tries[1..] + [(at, error)];
      RetriedOn(Refused(Poll(h, tries[0].0), tries[0].1), tries[1..], at, error);
    }
  }

  /**
   * However often a heartbeat is retried, the request in flight keeps the sequence and the
   * time of its first send, and that time plus the lease is the deadline an answer gives.
   */
  lemma {:induction false} RetryKeepsFirstSend(h: Heart, first: nat, tries: seq<(nat, HeartbeatError)>, now: nat,
          answeredAt: nat, duration: nat, cancel: bool)
    requires h.inFlight == None && h.pending == Some(first)
    ensures var retried := Poll(Retried(h, tries), now);
            && retried.deadline == h.deadline
            && (retried.inFlight.Some? ==>
                  && retried.inFlight.value == Request(h.sequence + 1, first)
                  && (Answered(retried, answeredAt, duration, cancel).deadline ==
                      if retried.failed || Overdue(h, answeredAt) then h.deadline else first + duration))
    decreases |tries|
  {
    if tries != [] {
      var next := Refused(Poll(h, tries[0].0), tries[0].1);
      assert next.inFlight == None && next.pending == Some(first) && next.sequence == h.sequence;
      RetryKeepsFirstSend(next, first, tries[1..], now, answeredAt, duration, cancel);
    }
  }
}
