/** The election side of the C boundary: campaigning for leadership under a
    key prefix, observing leadership from a follower, and resigning. The
    session, the election primitive, the watch stream and the liveness probe
    belong to the store's client library; what they report is a parameter. */
module LeaderElection {
  import opened Wrappers
  import opened Codes
  import opened ObjectRegistry
  import opened EtcdClient

  /** The time-to-live a session gets: the client library ignores a
      non-positive TTL and keeps its default of 60 seconds. */
  const DefaultSessionTtlSec: nat := 60

  function SessionTtl(sessionInterSec: nat): (ttl: nat)
    ensures ttl > 0
    ensures sessionInterSec > 0 ==> ttl == sessionInterSec
    ensures sessionInterSec == 0 ==> ttl == DefaultSessionTtlSec
  {
    if sessionInterSec > 0 then sessionInterSec else DefaultSessionTtlSec
  }

  /** The campaign ended because its own deadline expired. */
  predicate DeadlineExpired(err: Error)
  {
    err.Failure? && err.sentinel == ContextDeadlineExceeded
  }

  /** The deadline the campaign runs under: a positive timeout in
      milliseconds, or none at all when the timeout is zero. */
  function CampaignDeadline(electionTimeoutMs: nat): (deadline: Option<nat>)
    ensures deadline.None? <==> electionTimeoutMs == 0
    ensures deadline.Some? ==> deadline.value == electionTimeoutMs
  {
    if electionTimeoutMs > 0 then Some(electionTimeoutMs) else None
  }

  /** EtcdElectionCampaign. `lease` is the lease of the new session (none when
      session creation failed), `currentLeader` what the diagnostic leader read
      returned, and `campaign` how the blocking campaign ends under a given
      deadline. Without a deadline the campaign cannot end by one. */
  method Campaign(reg: Registry, prefix: string, leaderName: string,
                  sessionInterSec: nat, electionTimeoutMs: nat,
                  lease: Option<nat>, currentLeader: Option<string>,
                  campaign: Option<nat> -> Error)
    returns (code: EtcdErrCode, oid: nat)
    requires reg.Valid()
    requires !DeadlineExpired(campaign(None))
    modifies reg
    ensures reg.Valid()
    ensures code == CampaignLeaderSuccess <==>
              lease.Some? && campaign(CampaignDeadline(electionTimeoutMs)).Nil?
    ensures electionTimeoutMs == 0 && lease.Some? && code != CampaignLeaderSuccess ==>
              campaign(None).Failure? && !DeadlineExpired(campaign(None))
    ensures electionTimeoutMs > 0 && lease.Some? ==>
              (code == CampaignLeaderSuccess <==> campaign(Some(electionTimeoutMs)).Nil?)
    ensures code != CampaignLeaderSuccess ==>
              && code == CampaignInternalErr && oid == 0
              && reg.objects == old(reg.objects) && reg.next == old(reg.next)
    ensures code == CampaignLeaderSuccess ==>
              && oid == old(reg.next) && oid !in old(reg.objects) && reg.next == old(reg.next) + 1
              && reg.objects == old(reg.objects)[oid :=
                   ElectionH(Election(prefix, Session(lease.value, SessionTtl(sessionInterSec))))]
  {
    if lease.None? {
      return CampaignInternalErr, 0;
    }
    var election := Election(prefix, Session(lease.value, SessionTtl(sessionInterSec)));
    var deadline: Option<nat>;
    if electionTimeoutMs > 0 {
      deadline := Some(electionTimeoutMs);
    } else {
      deadline := None;
    }
    // The current leader is read only to be logged; its outcome decides nothing.
    var campaignErr := campaign(deadline);
    if campaignErr.Failure? {
      return CampaignInternalErr, 0;
    }
    oid := reg.Add(ElectionH(election));
    code := CampaignLeaderSuccess;
  }

  /** What Observe's select can receive: a leader value from the watch
      stream, the watch stream closing, or a probe tick with the error the
      probe read reported. */
  datatype Event = WatchResponse(leader: string) | WatchClosed | Tick(probeErr: Error)

  /** The decision one event forces: a code to return, or None to keep waiting. */
  function StepOutcome(e: Event, leaderName: string): Option<EtcdErrCode>
  {
    match e
    case WatchResponse(v) => if v == leaderName then None else Some(ObserverLeaderChange)
    case WatchClosed => Some(ObserverLeaderInternal)
    case Tick(err) => if GetErrCode(err) != OK then Some(ObserverLeaderInternal) else None
  }

  /** The code Observe returns after the events `events`, or None while it is
      still waiting. Only the two observer codes can come out. */
  function ObserveOutcome(events: seq<Event>, leaderName: string): (r: Option<EtcdErrCode>)
    ensures r.Some? ==> r.value == ObserverLeaderChange || r.value == ObserverLeaderInternal
  {
    if events == [] then None
    else match StepOutcome(events[0], leaderName)
         case Some(c) => Some(c)
         case None => ObserveOutcome(events[1..], leaderName)
  }

  /** Observe returns exactly at the first event that forces a decision, with
      that event's code, and waits on as long as none has. */
  lemma {:induction false} ObserveOutcomeIsFirstTerminal(events: seq<Event>, leaderName: string)
    ensures ObserveOutcome(events, leaderName).None? <==>
              forall i :: 0 <= i < |events| ==> StepOutcome(events[i], leaderName).None?
    ensures forall i :: 0 <= i < |events| && StepOutcome(events[i], leaderName).Some? &&
                        (forall j :: 0 <= j < i ==> StepOutcome(events[j], leaderName).None?) ==>
              ObserveOutcome(events, leaderName) == StepOutcome(events[i], leaderName)
  {
    if events != [] {
      var tail := events[1..];
      ObserveOutcomeIsFirstTerminal(tail, leaderName);
      assert forall i :: 1 <= i < |events| ==> events[i] == tail[i - 1];
      if StepOutcome(events[0], leaderName).None? {
        forall i | 0 <= i < |events| && StepOutcome(events[i], leaderName).Some? &&
                   (forall j :: 0 <= j < i ==> StepOutcome(events[j], leaderName).None?)
          ensures ObserveOutcome(events, leaderName) == StepOutcome(events[i], leaderName)
        {
          assert i > 0 && tail[i - 1] == events[i];
          forall j | 0 <= j < i - 1
            ensures StepOutcome(tail[j], leaderName).None?
          {
            assert tail[j] == events[j + 1];
          }
        }
        if ObserveOutcome(events, leaderName).None? {
          forall i | 0 <= i < |events|
            ensures StepOutcome(events[i], leaderName).None?
          {
            if i > 0 {
              assert events[i] == tail[i - 1];
            }
          }
        }
      }
    }
  }

  /** Once Observe has returned, later events change nothing. */
  lemma {:induction false} ObserveOutcomeStable(a: seq<Event>, b: seq<Event>, leaderName: string)
    requires ObserveOutcome(a, leaderName).Some?
    ensures ObserveOutcome(a + b, leaderName) == ObserveOutcome(a, leaderName)
  {
    assert (a + b)[0] == a[0];
    if StepOutcome(a[0], leaderName).None? {
      assert (a + b)[1..] == a[1..] + b;
      ObserveOutcomeStable(a[1..], b, leaderName);
    }
  }

  /** The probe ticker's period: one fifth of the caller's timeout, rounded down. */
  function ProbePeriodMs(timeout: nat): (period: nat)
    ensures 5 * period <= timeout < 5 * period + 5
  {
    timeout / 5
  }

  /** EtcdLeaderObserve over the events its select receives, in order. None
      means the call is still blocked when the events run out. The ticker is
      built only once the handle resolves, and a zero period would make it
      panic, so such a call needs a timeout of at least 5 ms. */
  method Observe(reg: Registry, leaderOid: nat, timeout: nat, leaderName: string, events: seq<Event>)
    returns (r: Option<EtcdErrCode>)
    requires leaderOid in reg.objects && reg.objects[leaderOid].ElectionH? ==> timeout >= 5
    ensures !(leaderOid in reg.objects && reg.objects[leaderOid].ElectionH?) ==>
              r == Some(ObjectNotExist)
    ensures leaderOid in reg.objects && reg.objects[leaderOid].ElectionH? ==>
              r == ObserveOutcome(events, leaderName)
  {
    var election := GetLeaderElection(reg, leaderOid);
    if election.None? {
      return Some(ObjectNotExist);
    }
    var period := ProbePeriodMs(timeout);
    assert period > 0;
    var i := 0;
    while i < |events|
      invariant 0 <= i <= |events|
      invariant ObserveOutcome(events, leaderName) == ObserveOutcome(events[i..], leaderName)
    {
      assert events[i..][0] == events[i] && events[i..][1..] == events[i + 1..];
      match events[i] {
        case WatchResponse(v) =>
          if v != leaderName {
            return Some(ObserverLeaderChange);
          }
        case WatchClosed =>
          return Some(ObserverLeaderInternal);
        case Tick(err) =>
          if GetErrCode(err) != OK {
            return Some(ObserverLeaderInternal);
          }
      }
      i := i + 1;
    }
    r := None;
  }

  /** EtcdLeaderResign. `leaderErr` is what the leader read reported and
      `resignErr` what the resignation reported; the registry entry stays. */
  method Resign(reg: Registry, leaderOid: nat, timeout: nat, leaderErr: Error, resignErr: Error)
    returns (code: EtcdErrCode)
    ensures !(leaderOid in reg.objects && reg.objects[leaderOid].ElectionH?) ==>
              code == ObjectNotExist
    ensures leaderOid in reg.objects && reg.objects[leaderOid].ElectionH? ==>
              code == if leaderErr.Failure? || resignErr.Failure? then LeaderResignErr
                       else LeaderResiginSuccess
  {
    var election := GetLeaderElection(reg, leaderOid);
    if election.None? {
      return ObjectNotExist;
    }
    if leaderErr.Failure? {
      return LeaderResignErr;
    }
    if resignErr.Failure? {
      return LeaderResignErr;
    }
    code := LeaderResiginSuccess;
  }
}
