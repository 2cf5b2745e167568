/** What a node has on record, its witnessed outage, its open sessions, its reasons, goes back to
    events of its run. */
module ControlModeFacts {
  import opened Basics
  import opened ControlMode
  import opened ControlModeTheorems

  // ----- Restarts -----

  /** Between `k` and `i` no heartbeat failed and no response was accepted. */
  ghost predicate Quiet(r: Trace, k: nat, i: nat)
    requires Shaped(r) && k <= i <= |r.events|
  {
    forall j :: k <= j < i ==> !r.events[j].Failure? && !AcceptedSuccess(r, j)
  }

  /** The last thing heard of the Controller is a failure that the witnesses confirmed. */
  ghost predicate WitnessedLast(r: Trace, i: nat)
    requires Shaped(r) && i <= |r.events|
  {
    exists k: nat :: k < i && IsConfirmed(r.cfg, r.events[k]) && Quiet(r, k + 1, i)
  }

  lemma WitnessedStep(r: Trace, i: nat)
    requires Shaped(r) && 0 < i <= |r.events|
    ensures WitnessedLast(r, i) <==>
            IsConfirmed(r.cfg, r.events[i - 1]) ||
              (!r.events[i - 1].Failure? && !AcceptedSuccess(r, i - 1) && WitnessedLast(r, i - 1))
  {
    if IsConfirmed(r.cfg, r.events[i - 1]) { assert Quiet(r, i, i); }
    if !r.events[i - 1].Failure? && !AcceptedSuccess(r, i - 1) && WitnessedLast(r, i - 1) {
      var k: nat :| k < i - 1 && IsConfirmed(r.cfg, r.events[k]) && Quiet(r, k + 1, i - 1);
      assert Quiet(r, k + 1, i);
    }
    if WitnessedLast(r, i) && !IsConfirmed(r.cfg, r.events[i - 1]) {
      var k: nat :| k < i && IsConfirmed(r.cfg, r.events[k]) && Quiet(r, k + 1, i);
      assert Quiet(r, k + 1, i - 1);
    }
  }

  /** The counter of witnessed failures is positive exactly then. */
  lemma {:induction false} WitnessedIff(r: Trace, i: nat)
    requires Counted(r) && i <= |r.events|
    ensures r.states[i].peerFails > 0 <==> WitnessedLast(r, i)
  {
    if i > 0 {
      WitnessedIff(r, i - 1);
      WitnessedStep(r, i);
      CounterOrder(r, i - 1);
      assert Counts(r.cfg, r.states[i - 1], r.events[i - 1], r.states[i]);
    }
  }

  lemma RestartMoves(s: ModeState, now: int, configured: int)
    ensures var t := RestartStep(s, now, configured);
            && t.mode == (if s.mode == Independent && s.peerFails <= 0 then Draining else s.mode)
            && (t.mode != s.mode ==> t.reason == "legacy_independent_without_peer_witness")
            && (t.mode == s.mode ==> t == s.(highestGeneration := t.highestGeneration))
  { }

  /** A restart keeps a node independent only if the last thing it heard of the Controller is a failure
      the witnesses confirmed, and otherwise puts it behind the draining boundary. Any other mode, and
      everything else on record, is as it was. */
  lemma RestartOutcome(r: Trace, i: nat)
    requires IsRun(r) && i < |r.events| && r.events[i].Restart?
    ensures var s, t := r.states[i], r.states[i + 1];
            && t.mode == (if s.mode == Independent && !WitnessedLast(r, i) then Draining else s.mode)
            && (t.mode == s.mode ==> t == s.(highestGeneration := t.highestGeneration))
  {
    assert Follows(r, i);
    RunCounts(r);
    WitnessedIff(r, i);
    RestartMoves(r.states[i], r.events[i].now, r.events[i].configuredGeneration);
  }

  // ----- Sessions and pending syncs -----

  ghost function OpenOnes(users: seq<SessionStatus>): set<int> {
    set i | 0 <= i < |users| && users[i].independent && !users[i].ended
  }

  /** The loop counts the open independent sessions. */
  lemma {:induction false} OpenCounted(users: seq<SessionStatus>, k: nat)
    requires k <= |users|
    ensures OpenIndependent(users, k) == |OpenOnes(users[..k])|
  {
    if k == 0 {
      assert OpenOnes(users[..0]) == {};
    } else {
      OpenCounted(users, k - 1);
      var before, all := OpenOnes(users[..k - 1]), OpenOnes(users[..k]);
      if users[k - 1].independent && !users[k - 1].ended {
        assert all == before + {k - 1};
      } else {
        assert all == before;
      }
    }
  }

  /** Event `k` reports facts that count: telemetry always, the adapter's answer on a compute node if it
      is sound and about the mode and generation the node is in. */
  ghost predicate Reports(cfg: Config, s: ModeState, e: Event) {
    match e
    case Sessions(_, _) => true
    case Sync(a) =>
      && cfg.compute && a.ok && a.sessions >= 0 && a.pendingSyncs >= 0
      && a.seenMode == s.mode && a.appliedMode == Some(s.mode)
      && a.seenGeneration == s.modeGeneration && a.modeGeneration == s.modeGeneration
    case _ => false
  }

  /** The facts: open independent sessions and pending syncs. */
  ghost function Told(e: Event): (int, int)
    requires e.Sessions? || e.Sync?
  {
    if e.Sessions? then (|OpenOnes(e.users)|, e.pending) else (e.report.sessions, e.report.pendingSyncs)
  }

  lemma FactsStep(cfg: Config, s: ModeState, e: Event)
    ensures var t := Apply(cfg, s, e);
            (t.sessions, t.pendingSyncs) == if Reports(cfg, s, e) then Told(e) else (s.sessions, s.pendingSyncs)
  {
    if e.Sessions? {
      OpenCounted(e.users, |e.users|);
      assert e.users[..|e.users|] == e.users;
    }
  }

  ghost predicate ReportsAt(r: Trace, k: nat)
    requires Shaped(r) && k < |r.events|
  {
    Reports(r.cfg, r.states[k], r.events[k])
  }

  /** The facts on record are those of the last report that counted. */
  lemma {:induction false} FactsAre(r: Trace, k: nat, i: nat)
    requires IsRun(r) && k < i <= |r.events| && ReportsAt(r, k) && forall j :: k < j < i ==> !ReportsAt(r, j)
    ensures (r.states[i].sessions, r.states[i].pendingSyncs) == Told(r.events[k])
    decreases i
  {
    assert Follows(r, i - 1);
    FactsStep(r.cfg, r.states[i - 1], r.events[i - 1]);
    if k < i - 1 {
      FactsAre(r, k, i - 1);
      assert !ReportsAt(r, i - 1);
    }
  }

  lemma {:induction false} FactsOrigin(r: Trace, i: nat) returns (k: nat)
    requires IsRun(r) && i <= |r.events| && (r.states[i].sessions != 0 || r.states[i].pendingSyncs != 0)
    ensures k < i && ReportsAt(r, k) && forall j :: k < j < i ==> !ReportsAt(r, j)
  {
    assert i > 0 && Follows(r, i - 1);
    FactsStep(r.cfg, r.states[i - 1], r.events[i - 1]);
    if ReportsAt(r, i - 1) { k := i - 1; } else { k := FactsOrigin(r, i - 1); }
  }

  lemma LeavesWhenClear(cfg: Config, s: ModeState, e: Event)
    requires s.mode == Draining && Apply(cfg, s, e).mode == Managed
    ensures s.sessions <= 0 && s.pendingSyncs <= 0
  { }

  /** A node leaves the draining boundary for managed only if the last report that counted showed no open
      session and no pending sync; a report made for another mode or generation does not count. */
  lemma ManagedAfterClearReport(r: Trace, i: nat, k: nat)
    requires IsRun(r) && k < i < |r.events| && r.states[i].mode == Draining && r.states[i + 1].mode == Managed
    requires ReportsAt(r, k) && forall j :: k < j < i ==> !ReportsAt(r, j)
    ensures Told(r.events[k]) == (0, 0)
  {
    assert Follows(r, i);
    FactsAre(r, k, i);
    LeavesWhenClear(r.cfg, r.states[i], r.events[i]);
  }

  // ----- Reasons -----

  /** The reason is the name of the event that gave the mode: each kind of move has one, an order to be
      unreachable or independent has none, and nothing else touches it. */
  lemma ReasonStep(cfg: Config, s: ModeState, e: Event)
    ensures var t := Apply(cfg, s, e);
            && (e.Success? && t.mode != s.mode ==>
                t.reason == match t.mode
                            case Managed => "controller_reconciled"
                            case Draining => "controller_recovered"
                            case _ => s.reason)
            && (e.Restart? && t.mode != s.mode ==> t.reason == "legacy_independent_without_peer_witness")
            && (t.mode == s.mode && !(e.Failure? && t.mode == Independent) ==> t.reason == s.reason)
            && (e.Failure? && t.mode == s.mode == Independent ==>
                t.reason == s.reason || t.reason == "sustained_peer_confirmed_controller_loss")
  { }

  // ----- Independent since -----

  /** A mode other than managed is left for managed only with the record cleared. */
  lemma SinceCleared(cfg: Config, s: ModeState, e: Event)
    ensures var t := Apply(cfg, s, e); t.mode == Managed ==> s.mode == Managed || t.independentSince.None?
  { }

  lemma SinceSet(cfg: Config, s: ModeState, e: Event)
    requires e.Failure?
    ensures var t := Apply(cfg, s, e);
            && (t.independentSince != s.independentSince ==>
                && s.independentSince.None? && t.independentSince == Some(e.now)
                && LossEstablished(cfg, t, e.now) && t.mode == Independent)
            && (s.mode != Independent && t.mode == Independent ==> t.independentSince.Some?)
  { }

  lemma SinceKept(cfg: Config, s: ModeState, e: Event)
    requires !e.Failure?
    ensures var t := Apply(cfg, s, e); t.independentSince.Some? ==> t.independentSince == s.independentSince
  { }

  /** The record is the one of the state before, or of the failure just counted. */
  lemma SinceCases(r: Trace, i: nat)
    requires IsRun(r) && 0 < i <= |r.events| && r.states[i].independentSince.Some?
    ensures r.states[i].mode == Managed ==> r.states[i - 1].mode == Managed
    ensures r.states[i].independentSince != r.states[i - 1].independentSince ==>
              && r.events[i - 1].Failure? && r.states[i].independentSince == Some(r.events[i - 1].now)
              && r.states[i - 1].independentSince.None?
              && LossEstablished(r.cfg, r.states[i], r.events[i - 1].now) && r.states[i].mode == Independent
  {
    assert Follows(r, i - 1);
    var s, e := r.states[i - 1], r.events[i - 1];
    SinceCleared(r.cfg, s, e);
    if e.Failure? { SinceSet(r.cfg, s, e); } else { SinceKept(r.cfg, s, e); }
  }

  lemma EstablishedWindow(r: Trace, k: nat) returns (w: nat)
    requires IsRun(r) && k < |r.events| && r.events[k].Failure?
    requires LossEstablished(r.cfg, r.states[k + 1], r.events[k].now)
    ensures w <= k && Evidence(r, w, k) && r.cfg.compute
  {
    RunCounts(r);
    w := WindowExists(r, k + 1);
  }

  /** A record is cleared only by the response that makes the node managed. */
  lemma SinceLost(cfg: Config, s: ModeState, e: Event)
    requires s.independentSince.Some? && Apply(cfg, s, e).mode != Managed
    ensures Apply(cfg, s, e).independentSince == s.independentSince
  { }

  /** Until then it stays as it is, however many confirmed failures follow. */
  lemma {:induction false} RecordStays(r: Trace, i: nat, j: nat)
    requires IsRun(r) && i <= j <= |r.events| && r.states[i].independentSince.Some?
    requires forall m :: i < m <= j ==> r.states[m].mode != Managed
    ensures r.states[j].independentSince == r.states[i].independentSince
  {
    if i < j {
      RecordStays(r, i, j - 1);
      assert Follows(r, j - 1);
      SinceLost(r.cfg, r.states[j - 1], r.events[j - 1]);
    }
  }

  /** The time since when a node has been independent is that of the first failure, since it was last
      managed, at the end of an unbroken, witnessed outage of the required length. */
  lemma {:induction false} IndependentSinceHistory(r: Trace, i: nat) returns (w: nat, k: nat)
    requires IsRun(r) && i <= |r.events| && r.states[i].independentSince.Some?
    ensures w <= k < i && Evidence(r, w, k) && r.cfg.compute
    ensures r.states[i].independentSince == Some(r.events[k].now) && r.states[k + 1].mode == Independent
    ensures r.states[k].independentSince.None? && forall j :: k < j <= i ==> r.states[j].mode != Managed
  {
    SinceCases(r, i);
    if r.states[i].independentSince == r.states[i - 1].independentSince {
      w, k := IndependentSinceHistory(r, i - 1);
    } else {
      k := i - 1;
      w := EstablishedWindow(r, k);
    }
  }
}
