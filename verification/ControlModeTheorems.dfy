/** What the control mode guarantees over every run of events. */
module ControlModeTheorems {
  import opened Basics
  import opened PeerWitness
  import opened ControlMode

  /** A run: the events, and the states before and after each of them. */
  datatype Trace = Trace(cfg: Config, events: seq<Event>, states: seq<ModeState>)

  ghost predicate Shaped(r: Trace) {
    |r.states| == |r.events| + 1
  }

  /** The run starts with a fresh Agent and follows the code. */
  ghost predicate IsRun(r: Trace) {
    && Shaped(r) && r.states[0] == Fresh(r.states[0].changedAt)
    && forall i :: 0 <= i < |r.events| ==> Follows(r, i)
  }

  ghost predicate Follows(r: Trace, i: nat)
    requires Shaped(r) && i < |r.events|
  {
    r.states[i + 1] == Apply(r.cfg, r.states[i], r.events[i])
  }

  ghost predicate AcceptedSuccess(r: Trace, i: nat)
    requires Shaped(r) && i < |r.events|
  {
    r.events[i].Success? && Accepts(r.states[i], r.events[i].response)
  }

  // ----- Evidence history -----

  ghost predicate IsConfirmed(cfg: Config, e: Event) {
    e.Failure? && Confirmed(cfg, e.healthFailed, e.witnesses)
  }

  /** Between `k` and `i` every failed heartbeat also failed the health probe and
      was confirmed by the witnesses, and no response of the Controller was accepted. */
  ghost predicate Unbroken(r: Trace, k: nat, i: nat)
    requires Shaped(r) && k <= i <= |r.events|
  {
    forall j :: k <= j < i ==>
      (r.events[j].Failure? ==> IsConfirmed(r.cfg, r.events[j])) && !AcceptedSuccess(r, j)
  }

  ghost function Failures(events: seq<Event>, k: nat, i: nat): nat
    requires k <= i <= |events|
    decreases i
  {
    if i == k then 0 else Failures(events, k, i - 1) + if events[i - 1].Failure? then 1 else 0
  }

  /** The evidence that the documentation asks for before a node may open its own
      logins: an unbroken window ending with event `i`, with enough failures and long enough. */
  ghost predicate Evidence(r: Trace, k: nat, i: nat)
    requires Shaped(r) && k <= i < |r.events|
  {
    var policy := Normalize(r.cfg.policy);
    && r.events[k].Failure? && r.events[i].Failure?
    && Unbroken(r, k, i + 1)
    && Failures(r.events, k, i + 1) >= policy.minFailures
    && r.events[i].now - r.events[k].now >= policy.independentAfter
  }

  /** How the evidence counters and the confirmed clock move with one event. */
  ghost predicate Counts(cfg: Config, s: ModeState, e: Event, t: ModeState) {
    match e
    case Failure(now, healthFailed, witnesses) =>
      var confirmed := Confirmed(cfg, healthFailed, witnesses);
      && t.heartbeatFails == s.heartbeatFails + 1
      && t.healthFails == (if healthFailed then s.healthFails + 1 else 0)
      && t.peerFails == (if confirmed then s.peerFails + 1 else 0)
      && t.confirmedStartedAt == (if !confirmed then None
                                  else if s.peerFails == 0 || s.confirmedStartedAt.None? then Some(now)
                                  else s.confirmedStartedAt)
    case Success(_, response) =>
      if Accepts(s, response)
      then t.peerFails == 0 && t.healthFails == 0 && t.heartbeatFails == 0 && t.confirmedStartedAt.None?
      else SameCounters(s, t)
    case _ => SameCounters(s, t)
  }

  ghost predicate SameCounters(s: ModeState, t: ModeState) {
    && t.peerFails == s.peerFails && t.healthFails == s.healthFails && t.heartbeatFails == s.heartbeatFails
    && t.confirmedStartedAt == s.confirmedStartedAt
  }

  lemma CounterStep(cfg: Config, s: ModeState, e: Event)
    ensures Counts(cfg, s, e, Apply(cfg, s, e))
  { }

  ghost predicate Counted(r: Trace) {
    && Shaped(r) && r.states[0].peerFails == 0 && r.states[0].healthFails == 0 && r.states[0].heartbeatFails == 0
    && r.states[0].confirmedStartedAt.None?
    && forall i {:trigger r.events[i]} :: 0 <= i < |r.events| ==>
       Counts(r.cfg, r.states[i], r.events[i], r.states[i + 1])
  }

  lemma RunCounts(r: Trace)
    requires IsRun(r)
    ensures Counted(r)
  {
    forall i | 0 <= i < |r.events| ensures Counts(r.cfg, r.states[i], r.events[i], r.states[i + 1]) {
      assert Follows(r, i);
      CounterStep(r.cfg, r.states[i], r.events[i]);
    }
  }

  /** peer <= health <= heartbeat failures, and the confirmed clock runs exactly
      while there are confirmed failures. */
  ghost predicate Ordered(s: ModeState) {
    0 <= s.peerFails <= s.healthFails <= s.heartbeatFails && (s.peerFails > 0 <==> s.confirmedStartedAt.Some?)
  }

  lemma {:induction false} CounterOrder(r: Trace, i: nat)
    requires Counted(r) && i <= |r.events|
    ensures Ordered(r.states[i])
  {
    if i > 0 {
      CounterOrder(r, i - 1);
      assert Counts(r.cfg, r.states[i - 1], r.events[i - 1], r.states[i]);
    }
  }

  /** The counters describe a window that really happened. */
  lemma {:induction false} WindowExists(r: Trace, i: nat) returns (k: nat)
    requires Counted(r) && i <= |r.events| && r.states[i].peerFails > 0
    ensures k < i && r.events[k].Failure? && Unbroken(r, k, i)
    ensures Failures(r.events, k, i) == r.states[i].peerFails && r.states[i].confirmedStartedAt == Some(r.events[k].now)
  {
    CounterOrder(r, i - 1);
    assert Counts(r.cfg, r.states[i - 1], r.events[i - 1], r.states[i]);
    if r.states[i - 1].peerFails > 0 {
      k := WindowExists(r, i - 1);
    } else {
      k := i - 1;
    }
  }

  ghost predicate Enters(r: Trace, i: nat)
    requires Shaped(r) && i < |r.events|
  {
    r.events[i].Failure? && r.states[i].mode != Independent && r.states[i + 1].mode == Independent
  }

  lemma EntersWhen(cfg: Config, s: ModeState, e: Event)
    requires e.Failure? && s.mode != Independent
    ensures var t := Apply(cfg, s, e);
            t.mode == Independent <==> s.mode != Draining && LossEstablished(cfg, t, e.now)
  { }

  /** A failed heartbeat makes a node independent only at the end of an unbroken,
      witnessed outage of the required length. */
  lemma EvidenceHistory(r: Trace, i: nat) returns (k: nat)
    requires IsRun(r) && i < |r.events| && Enters(r, i)
    ensures k <= i && Evidence(r, k, i) && r.cfg.compute
    ensures r.states[i].mode in {Managed, Unreachable}
  {
    assert Follows(r, i);
    EntersWhen(r.cfg, r.states[i], r.events[i]);
    RunCounts(r);
    k := WindowExists(r, i + 1);
  }

  /** In every step of that window all peers were heard, none of the valid answers saw the
      Controller, and a strict majority of the Agents saw it down. */
  lemma EvidenceByMajority(r: Trace, k: nat, i: nat, j: nat, self: int, members: set<int>)
    requires Shaped(r) && k <= i < |r.events| && Evidence(r, k, i) && k <= j <= i && r.events[j].Failure?
    requires |members| == r.cfg.peers + 1 && self in members
    requires forall n :: 0 <= n < |r.events[j].witnesses| && r.events[j].witnesses[n].valid ==>
             r.events[j].witnesses[n].node in members - {self}
    ensures r.events[j].healthFailed && 0 < r.cfg.peers <= |r.events[j].witnesses|
    ensures forall n :: 0 <= n < r.cfg.peers && r.events[j].witnesses[n].valid ==> !r.events[j].witnesses[n].available
    ensures 2 * |{self} + Confirming(r.events[j].witnesses[..r.cfg.peers])| > |members|
  {
    assert IsConfirmed(r.cfg, r.events[j]);
    ConfirmedByMajority(r.cfg.peers, r.events[j].witnesses, self, members);
  }

  ghost predicate ClockMonotone(events: seq<Event>) {
    forall i, j :: 0 <= i < j < |events| && events[i].Failure? && events[j].Failure? ==> events[i].now <= events[j].now
  }

  /** The counters miss no window: one that is unbroken up to `i` is contained in theirs. */
  lemma {:induction false} WindowCounted(r: Trace, k: nat, i: nat)
    requires Counted(r) && k < i <= |r.events| && ClockMonotone(r.events) && r.events[k].Failure? && Unbroken(r, k, i)
    ensures Failures(r.events, k, i) <= r.states[i].peerFails
    ensures r.states[i].confirmedStartedAt.Some? && r.states[i].confirmedStartedAt.value <= r.events[k].now
    decreases i
  {
    CounterOrder(r, i - 1);
    assert Counts(r.cfg, r.states[i - 1], r.events[i - 1], r.states[i]);
    assert (r.events[i - 1].Failure? ==> IsConfirmed(r.cfg, r.events[i - 1])) && !AcceptedSuccess(r, i - 1);
    if k < i - 1 {
      WindowCounted(r, k, i - 1);
    } else {
      assert Failures(r.events, k, i) == 1 + Failures(r.events, k, k);
      if r.states[k].peerFails > 0 {
        var j := WindowExists(r, k);
        assert r.events[j].now <= r.events[k].now;
      }
    }
  }

  /** With a clock that does not go backwards the evidence is also sufficient. */
  lemma EvidenceSuffices(r: Trace, k: nat, i: nat)
    requires IsRun(r) && k <= i < |r.events| && ClockMonotone(r.events) && Evidence(r, k, i)
    requires r.cfg.compute && r.states[i].mode in {Managed, Unreachable}
    ensures Enters(r, i)
  {
    RunCounts(r);
    CounterOrder(r, i + 1);
    WindowCounted(r, k, i + 1);
    EntersWhen(r.cfg, r.states[i], r.events[i]);
    assert Follows(r, i);
  }

  // ----- Mode generation -----

  /** The generation moves exactly with the mode, and only upwards. */
  ghost predicate GenerationFollows(s: ModeState, t: ModeState) {
    s.modeGeneration <= t.modeGeneration && (s.modeGeneration == t.modeGeneration <==> s.mode == t.mode)
  }

  lemma GenerationStep(cfg: Config, s: ModeState, e: Event)
    ensures GenerationFollows(s, Apply(cfg, s, e))
    ensures s.highestGeneration <= Apply(cfg, s, e).highestGeneration
  { }

  lemma {:induction false} GenerationChain(states: seq<ModeState>, i: nat, j: nat)
    requires i <= j < |states| && forall m :: 0 <= m < |states| - 1 ==> GenerationFollows(states[m], states[m + 1])
    ensures states[i].modeGeneration <= states[j].modeGeneration
    ensures states[i].modeGeneration == states[j].modeGeneration ==> states[i].mode == states[j].mode
    decreases j
  {
    if i < j {
      GenerationChain(states, i, j - 1);
      assert GenerationFollows(states[j - 1], states[j - 1 + 1]);
    }
  }

  /** Across failures, accepted and refused responses, adapter syncs and restarts,
      two states of one run with the same generation have the same mode. */
  lemma GenerationIdentifiesMode(r: Trace, i: nat, j: nat)
    requires IsRun(r) && i <= j < |r.states|
    ensures r.states[i].modeGeneration <= r.states[j].modeGeneration
    ensures r.states[i].modeGeneration == r.states[j].modeGeneration ==> r.states[i].mode == r.states[j].mode
  {
    forall m | 0 <= m < |r.states| - 1 ensures GenerationFollows(r.states[m], r.states[m + 1]) {
      assert Follows(r, m);
      GenerationStep(r.cfg, r.states[m], r.events[m]);
    }
    GenerationChain(r.states, i, j);
  }

  // ----- Draining boundary -----

  ghost predicate Behind(s: ModeState) {
    s.mode == Independent || s.mode == Draining
  }

  /** Leaving the boundary as intended: from draining to managed, with nothing left to reconcile. */
  ghost predicate ProperExit(s: ModeState, t: ModeState) {
    s.mode == Draining && t.mode == Managed && s.sessions == 0 && s.pendingSyncs == 0
  }

  /** A response that asks for controller-unreachable and is accepted. */
  ghost predicate AsksUnreachable(s: ModeState, e: Event) {
    e.Success? && Accepts(s, e.response) && e.response.desired == Some(Unreachable)
  }

  ghost predicate Sane(s: ModeState) {
    s.sessions >= 0 && s.pendingSyncs >= 0
  }

  lemma SaneStep(cfg: Config, s: ModeState, e: Event)
    requires Sane(s)
    ensures Sane(Apply(cfg, s, e))
  { }

  lemma {:induction false} RunSane(r: Trace, i: nat)
    requires IsRun(r) && i < |r.states|
    ensures Sane(r.states[i])
  {
    if i > 0 {
      RunSane(r, i - 1);
      SaneStep(r.cfg, r.states[i - 1], r.events[i - 1]);
      assert Follows(r, i - 1);
    }
  }

  /** One step leaves the boundary improperly if and only if it accepts a response
      that asks for controller-unreachable; a failed heartbeat never leaves draining. */
  lemma BoundaryStep(cfg: Config, s: ModeState, e: Event)
    requires Behind(s) && Sane(s)
    ensures var t := Apply(cfg, s, e);
            (!Behind(t) && !ProperExit(s, t)) <==> AsksUnreachable(s, e)
    ensures s.mode == Draining && e.Failure? ==> Apply(cfg, s, e).mode == Draining
  { }

  /** Such responses do break the boundary: from every independent state two of
      them reach managed, with the session counts as they were. */
  lemma BoundarySkipped(cfg: Config, s: ModeState, now: int)
    requires s.mode == Independent && s.modeGeneration >= 0
    ensures exists r1: Response, r2: Response ::
              var t := Apply(cfg, Apply(cfg, s, Success(now, r1)), Success(now, r2));
              t.mode == Managed && t.sessions == s.sessions && t.pendingSyncs == s.pendingSyncs
  {
    var g := if s.highestGeneration < 1 then 1 else s.highestGeneration;
    var r1 := Response(g, Some(Unreachable), s.modeGeneration + 1, true, true);
    var r2 := Response(g, Some(Managed), s.modeGeneration + 2, true, true);
    var t := Apply(cfg, Apply(cfg, s, Success(now, r1)), Success(now, r2));
    assert t.mode == Managed && t.sessions == s.sessions && t.pendingSyncs == s.pendingSyncs;
  }

  lemma Extend(r: Trace, e: Event) returns (more: Trace)
    requires IsRun(r)
    ensures IsRun(more) && more.cfg == r.cfg && more.events == r.events + [e]
    ensures more.states == r.states + [Apply(r.cfg, r.states[|r.events|], e)]
  {
    more := Trace(r.cfg, r.events + [e], r.states + [Apply(r.cfg, r.states[|r.events|], e)]);
    forall i | 0 <= i < |more.events| ensures Follows(more, i) {
      if i < |r.events| { assert Follows(r, i); }
    }
  }

  const ONE_PEER := Config(true, Policy(1, 2, 2), 1)

  const PEER_SEES_LOSS := [Witness(true, false, 7)]

  lemma PeerConfirms()
    ensures Confirmed(ONE_PEER, true, PEER_SEES_LOSS)
  {
    assert PEER_SEES_LOSS[..1][0] == PEER_SEES_LOSS[0];
    assert Confirming(PEER_SEES_LOSS[..1]) == {7};
  }

  ghost function OnceFailed(): ModeState {
    Fresh(0).(heartbeatFails := 1, healthFails := 1, peerFails := 1, confirmedStartedAt := Some(1),
      outageStartedAt := Some(1))
  }

  ghost function TwiceFailed(): ModeState {
    OnceFailed().(heartbeatFails := 2, healthFails := 2, peerFails := 2, mode := Independent, modeGeneration := 2,
                  changedAt := 3, adapterMode := None, reason := "sustained_peer_confirmed_controller_loss",
                  independentSince := Some(3))
  }

  lemma FailsTwice()
    ensures Apply(ONE_PEER, Fresh(0), Failure(1, true, PEER_SEES_LOSS)) == OnceFailed()
    ensures Apply(ONE_PEER, OnceFailed(), Failure(3, true, PEER_SEES_LOSS)) == TwiceFailed()
  {
    PeerConfirms();
  }

  /** Two witnessed failures make the node independent; then a user logs in on it. */
  lemma IndependentWithSession() returns (r: Trace)
    ensures IsRun(r) && r.states == [Fresh(0), OnceFailed(), TwiceFailed(), TwiceFailed().(sessions := 1)] &&
            |r.events| == 3
  {
    FailsTwice();
    r := Trace(ONE_PEER, [], [Fresh(0)]);
    r := Extend(r, Failure(1, true, PEER_SEES_LOSS));
    r := Extend(r, Failure(3, true, PEER_SEES_LOSS));
    var users := [SessionStatus(true, false)];
    assert OpenIndependent(users, 1) == OpenIndependent(users, 0) + 1;
    r := Extend(r, Sessions(users, 0));
  }

  /** A whole run from a fresh Agent that becomes independent, opens a session and is managed
      again with the session still open, without ever draining. */
  lemma BoundarySkippedRun() returns (r: Trace)
    ensures IsRun(r) && (exists i :: 0 <= i < |r.states| && r.states[i].mode == Independent)
    ensures forall i :: 0 <= i < |r.states| ==> r.states[i].mode != Draining
    ensures r.states[|r.events|].mode == Managed && r.states[|r.events|].sessions > 0
  {
    r := IndependentWithSession();
    r := Extend(r, Success(4, Response(1, Some(Unreachable), 3, true, true)));
    r := Extend(r, Success(5, Response(1, Some(Managed), 4, true, true)));
    assert r.states[2].mode == Independent;
  }

  lemma {:induction false} FirstExit(states: seq<ModeState>, i: nat, j: nat) returns (k: nat)
    requires i <= j < |states| && Behind(states[i]) && !Behind(states[j])
    requires forall m :: i <= m < j ==> Behind(states[m]) ==>
             Behind(states[m + 1]) || ProperExit(states[m], states[m + 1])
    ensures i <= k < j && ProperExit(states[k], states[k + 1])
    decreases j - i
  {
    if Behind(states[i + 1]) {
      k := FirstExit(states, i + 1, j);
    } else {
      k := i;
    }
  }

  /** If no accepted response asks for controller-unreachable, every way from
      independent to managed goes through draining, and the step into managed
      happens with no independent session and no pending sync. */
  lemma DrainingBoundary(r: Trace, i: nat, j: nat) returns (k: nat)
    requires IsRun(r) && i <= j < |r.states|
    requires forall m :: i <= m < j ==> !AsksUnreachable(r.states[m], r.events[m])
    requires Behind(r.states[i]) && r.states[j].mode == Managed
    ensures i <= k < j && ProperExit(r.states[k], r.states[k + 1])
  {
    forall m | i <= m < j && Behind(r.states[m])
      ensures Behind(r.states[m + 1]) || ProperExit(r.states[m], r.states[m + 1])
    {
      RunSane(r, m);
      assert Follows(r, m);
      BoundaryStep(r.cfg, r.states[m], r.events[m]);
    }
    k := FirstExit(r.states, i, j);
  }
}
