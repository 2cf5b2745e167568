/** The control mode as a function of what happened: which failures and responses
    lead where, said from the events of a run. */
module ControlModeHistory {
  import opened Basics
  import opened ControlMode
  import opened ControlModeTheorems

  // ----- The outage clock -----

  /** Event `k` is the first failure since the last accepted response, as seen after `i` events. */
  ghost predicate OutageBegins(r: Trace, k: nat, i: nat)
    requires Shaped(r) && k < i <= |r.events|
  {
    && r.events[k].Failure? && (forall j :: k <= j < i ==> !AcceptedSuccess(r, j))
    && forall j :: 0 <= j < k && r.events[j].Failure? ==> AnsweredSince(r, j, k)
  }

  /** A response was accepted after event `j`. */
  ghost predicate AnsweredSince(r: Trace, j: nat, i: nat)
    requires Shaped(r) && i <= |r.events|
  {
    exists m: nat :: j < m < i && AcceptedSuccess(r, m)
  }

  lemma ClockStep(cfg: Config, s: ModeState, e: Event)
    ensures var t := Apply(cfg, s, e);
            t.outageStartedAt == if e.Success? && Accepts(s, e.response) then None
                                 else if e.Failure? && s.outageStartedAt.None? then Some(e.now)
                                 else s.outageStartedAt
  { }

  lemma {:induction false} AnsweredWhenClear(r: Trace, i: nat, j: nat)
    requires IsRun(r) && j < i <= |r.events| && r.events[j].Failure? && r.states[i].outageStartedAt.None?
    ensures AnsweredSince(r, j, i)
  {
    assert Follows(r, i - 1);
    ClockStep(r.cfg, r.states[i - 1], r.events[i - 1]);
    if AcceptedSuccess(r, i - 1) {
      assert j < i - 1;
    } else {
      AnsweredWhenClear(r, i - 1, j);
      var m: nat :| j < m < i - 1 && AcceptedSuccess(r, m);
    }
  }

  /** The outage clock shows the time of the first failure since the last accepted response. */
  lemma {:induction false} OutageClock(r: Trace, i: nat) returns (k: nat)
    requires IsRun(r) && i <= |r.events| && r.states[i].outageStartedAt.Some?
    ensures k < i && OutageBegins(r, k, i) && r.states[i].outageStartedAt == Some(r.events[k].now)
  {
    assert i > 0 && Follows(r, i - 1);
    ClockStep(r.cfg, r.states[i - 1], r.events[i - 1]);
    if r.states[i - 1].outageStartedAt.Some? {
      k := OutageClock(r, i - 1);
    } else {
      k := i - 1;
      forall j | 0 <= j < k && r.events[j].Failure? ensures AnsweredSince(r, j, k) { AnsweredWhenClear(r, k, j); }
    }
  }

  lemma OutageUnique(r: Trace, k: nat, l: nat, i: nat)
    requires Shaped(r) && k < i && l < i <= |r.events| && OutageBegins(r, k, i) && OutageBegins(r, l, i)
    ensures k == l
  {
    assert !AnsweredSince(r, k, l) && !AnsweredSince(r, l, k);
  }

  // ----- Where a failure leads -----

  lemma FailureStepCases(cfg: Config, s: ModeState, e: Event)
    requires e.Failure?
    ensures var t := Apply(cfg, s, e);
            && (s.mode == Draining ==> t.mode == Draining)
            && (s.mode == Independent ==> t.mode == if IsConfirmed(cfg, e) then Independent else Draining)
            && (s.mode == Unreachable ==> t.mode in {Unreachable, Independent})
            && (s.mode == Managed && t.mode != Independent ==>
                  t.outageStartedAt.Some? &&
                  t.mode == if e.now - t.outageStartedAt.value >= Normalize(cfg.policy).unreachableAfter
                            then Unreachable else Managed)
  { }

  /** A failed heartbeat leaves draining as it is. It keeps an independent node independent only if
      that very failure was confirmed by the probe and the witnesses, and sends it behind the draining
      boundary otherwise. A managed node that does not become independent becomes unreachable exactly
      when the outage, from its first failure on, has lasted long enough. */
  lemma FailureOutcome(r: Trace, i: nat, k: nat)
    requires IsRun(r) && k <= i < |r.events| && r.events[i].Failure? && OutageBegins(r, k, i + 1)
    ensures var s, t, e := r.states[i], r.states[i + 1], r.events[i];
            && (s.mode == Draining ==> t.mode == Draining)
            && (s.mode == Independent ==> t.mode == if IsConfirmed(r.cfg, e) then Independent else Draining)
            && (s.mode == Unreachable ==> t.mode in {Unreachable, Independent})
            && (s.mode == Managed && t.mode != Independent ==>
                  t.mode == if e.now - r.events[k].now >= Normalize(r.cfg.policy).unreachableAfter
                            then Unreachable else Managed)
  {
    assert Follows(r, i);
    FailureStepCases(r.cfg, r.states[i], r.events[i]);
    ClockStep(r.cfg, r.states[i], r.events[i]);
    var l := OutageClock(r, i + 1);
    OutageUnique(r, k, l, i + 1);
  }

  /** So a state that follows a failure is independent only if that failure was confirmed. */
  lemma IndependentWitnessed(r: Trace, i: nat)
    requires IsRun(r) && i < |r.events| && r.events[i].Failure? && r.states[i + 1].mode == Independent
    ensures IsConfirmed(r.cfg, r.events[i])
  {
    assert Follows(r, i);
    FailureStepCases(r.cfg, r.states[i], r.events[i]);
    if r.states[i].mode != Independent {
      var k := EvidenceHistory(r, i);
    }
  }

  // ----- Where a response leads -----

  /** A well-formed response that is not older than any the node has seen. */
  predicate Sound(s: ModeState, r: Response) {
    && r.controllerGeneration > 0 && r.controllerGeneration >= s.highestGeneration && r.desired.Some?
    && r.modeGeneration > 0 && r.acknowledgementsValid && r.leasesAccepted
  }

  /** Where the response sends the node, if anywhere: an independent node is drained first, and
      a node with sessions or syncs left is not managed again. */
  function Destination(s: ModeState, r: Response): Option<Mode> {
    match r.desired
    case None => None
    case Some(Managed) =>
      if s.mode == Independent then Some(Draining)
      else if s.mode == Draining && (s.sessions > 0 || s.pendingSyncs > 0) then None
      else Some(Managed)
    case Some(mode) => Some(mode)
  }

  /** Everything but the generation fence is left as it was. */
  ghost predicate OnlyFenced(s: ModeState, t: ModeState) {
    t == s.(highestGeneration := t.highestGeneration)
  }

  /** A response moves the node if and only if it is sound, names another mode the node may go to
      and carries a newer mode generation, which the node then takes over. A response that repeats
      the present mode must not be older. Any other response changes nothing but the fence. */
  lemma ResponseOutcome(cfg: Config, s: ModeState, now: int, r: Response)
    ensures var t, goal := Apply(cfg, s, Success(now, r)), Destination(s, r);
            && (t.mode != s.mode <==>
                Sound(s, r) && goal.Some? && goal.value != s.mode && r.modeGeneration > s.modeGeneration)
            && (t.mode != s.mode ==> goal == Some(t.mode) && t.modeGeneration == r.modeGeneration)
            && (Accepts(s, r) <==>
                Sound(s, r) && goal.Some? &&
                  if goal.value == s.mode then r.modeGeneration >= s.modeGeneration
                  else r.modeGeneration > s.modeGeneration)
            && (!Accepts(s, r) ==> OnlyFenced(s, t))
  { }

  // ----- The generation fence -----

  /** The Controller generation an event shows the node. */
  ghost function Shown(e: Event): int {
    match e
    case Success(_, response) => response.controllerGeneration
    case Restart(_, configured) => configured
    case _ => 0
  }

  lemma FenceStep(cfg: Config, s: ModeState, e: Event)
    requires s.highestGeneration >= 0
    ensures Apply(cfg, s, e).highestGeneration ==
            if Shown(e) > s.highestGeneration then Shown(e) else s.highestGeneration
  { }

  /** The fence is at least everything shown so far. */
  lemma {:induction false} FenceCovers(r: Trace, i: nat, j: nat)
    requires IsRun(r) && j <= |r.events|
    ensures r.states[j].highestGeneration >= 0
    ensures i < j ==> Shown(r.events[i]) <= r.states[j].highestGeneration
    decreases j
  {
    if j > 0 {
      assert Follows(r, j - 1);
      FenceCovers(r, i, j - 1);
      FenceStep(r.cfg, r.states[j - 1], r.events[j - 1]);
    }
  }

  /** No response is accepted from a Controller generation below one that was configured or seen
      before, be it in an accepted or in a refused response. */
  lemma AcceptedNotBehind(r: Trace, i: nat, j: nat)
    requires IsRun(r) && i < j < |r.events| && AcceptedSuccess(r, j)
    ensures Shown(r.events[i]) <= r.events[j].response.controllerGeneration
  {
    FenceCovers(r, i, j);
  }

  lemma AcceptedStep(cfg: Config, s: ModeState, e: Event)
    ensures var t := Apply(cfg, s, e);
            if e.Success? && Accepts(s, e.response)
            then t.lastSuccessAt == Some(e.now) && t.controllerGeneration == e.response.controllerGeneration
            else t.lastSuccessAt == s.lastSuccessAt && t.controllerGeneration == s.controllerGeneration
  { }

  /** The node remembers the time and the generation of the last response it accepted. */
  lemma {:induction false} LastAccepted(r: Trace, i: nat, j: nat)
    requires IsRun(r) && i < j <= |r.events| && AcceptedSuccess(r, i)
    requires forall m :: i < m < j ==> !AcceptedSuccess(r, m)
    ensures r.states[j].lastSuccessAt == Some(r.events[i].now)
    ensures r.states[j].controllerGeneration == r.events[i].response.controllerGeneration
    decreases j
  {
    assert Follows(r, j - 1);
    AcceptedStep(r.cfg, r.states[j - 1], r.events[j - 1]);
    if i < j - 1 {
      LastAccepted(r, i, j - 1);
      assert !AcceptedSuccess(r, j - 1);
    }
  }

  // ----- What is recorded with a change -----

  ghost predicate Timed(e: Event) {
    e.Failure? || e.Success? || e.Restart?
  }

  /** A change of mode is stamped with its time and voids the adapter's confirmation. */
  lemma ChangeStamped(cfg: Config, s: ModeState, e: Event)
    ensures var t := Apply(cfg, s, e);
            if t.mode == s.mode then t.changedAt == s.changedAt
            else Timed(e) && t.changedAt == e.now && t.adapterMode.None?
  { }

  // ----- The mode recorded for the adapter -----

  /** The mode recorded for the adapter, if any, is the node's. */
  ghost predicate Agrees(s: ModeState) {
    s.adapterMode.Some? ==> s.adapterMode == Some(s.mode)
  }

  /** A storage node records the mode it read; it was still the node's when it was recorded. */
  ghost predicate SyncInTime(cfg: Config, s: ModeState, e: Event) {
    e.Sync? && !cfg.compute ==> e.report.seenMode == s.mode
  }

  lemma AgreementStep(cfg: Config, s: ModeState, e: Event)
    requires Agrees(s)
    ensures Agrees(Apply(cfg, s, e)) <==> SyncInTime(cfg, s, e)
  { }

  ghost predicate InTime(r: Trace, k: nat)
    requires Shaped(r) && k < |r.events|
  {
    SyncInTime(r.cfg, r.states[k], r.events[k])
  }

  lemma {:induction false} AgreesWhenInTime(r: Trace, i: nat)
    requires IsRun(r) && i <= |r.events| && forall k :: 0 <= k < i ==> InTime(r, k)
    ensures Agrees(r.states[i])
  {
    if i > 0 {
      assert Follows(r, i - 1);
      AgreesWhenInTime(r, i - 1);
      assert InTime(r, i - 1);
      AgreementStep(r.cfg, r.states[i - 1], r.events[i - 1]);
    }
  }

  /** In every run the adapter's recorded mode is always the node's if and only if no storage node ever
      records a mode that is no longer its own; compute nodes check this themselves. */
  lemma AdapterAgreesIff(r: Trace)
    requires IsRun(r)
    ensures (forall i :: 0 <= i <= |r.events| ==> Agrees(r.states[i])) <==>
            forall k :: 0 <= k < |r.events| ==> InTime(r, k)
  {
    if forall k :: 0 <= k < |r.events| ==> InTime(r, k) {
      forall i | 0 <= i <= |r.events| ensures Agrees(r.states[i]) { AgreesWhenInTime(r, i); }
    }
    if forall i :: 0 <= i <= |r.events| ==> Agrees(r.states[i]) {
      forall k | 0 <= k < |r.events| ensures InTime(r, k) {
        assert Follows(r, k) && Agrees(r.states[k + 1]);
        AgreementStep(r.cfg, r.states[k], r.events[k]);
      }
    }
  }

  /** Event `k` records a mode that was read at `j`, with no heartbeat outcome and no restart between. */
  ghost predicate ReadAt(r: Trace, j: nat, k: nat)
    requires Shaped(r) && j <= k < |r.events| && r.events[k].Sync?
  {
    r.events[k].report.seenMode == r.states[j].mode && forall m :: j <= m < k ==> !Timed(r.events[m])
  }

  /** Reading, recording and counting heartbeats run one after the other. */
  ghost predicate Sequential(r: Trace)
    requires Shaped(r)
  {
    forall k :: 0 <= k < |r.events| && r.events[k].Sync? ==> exists j :: 0 <= j <= k && ReadAt(r, j, k)
  }

  lemma {:induction false} ModeUntouched(r: Trace, j: nat, k: nat)
    requires IsRun(r) && j <= k <= |r.events| && forall m :: j <= m < k ==> !Timed(r.events[m])
    ensures r.states[k].mode == r.states[j].mode
  {
    if j < k {
      ModeUntouched(r, j, k - 1);
      assert Follows(r, k - 1);
      ChangeStamped(r.cfg, r.states[k - 1], r.events[k - 1]);
    }
  }

  /** So with the one heartbeat loop of an Agent, compute or storage, the two modes always agree. */
  lemma SequentialAgrees(r: Trace, i: nat)
    requires IsRun(r) && Sequential(r) && i <= |r.events|
    ensures Agrees(r.states[i])
  {
    forall k | 0 <= k < |r.events| ensures InTime(r, k) {
      if r.events[k].Sync? {
        var j :| 0 <= j <= k && ReadAt(r, j, k);
        ModeUntouched(r, j, k);
      }
    }
    AdapterAgreesIff(r);
  }

  /** The reason names the cause of the last move a failure made. */
  lemma FailureReason(cfg: Config, s: ModeState, e: Event)
    requires e.Failure?
    ensures var t := Apply(cfg, s, e);
            && (s.mode == Independent && t.mode == Draining ==> t.reason == "controller_loss_evidence_disputed")
            && (s.mode == Managed && t.mode == Unreachable ==> t.reason == "controller_heartbeat_timeout")
            && (s.mode != Independent && t.mode == Independent ==>
                t.reason == "sustained_peer_confirmed_controller_loss")
            && (s.mode == t.mode && t.mode != Independent ==> t.reason == s.reason)
  { }
}
