/** The Agent's control mode: how controller loss is established, how a node
    becomes independent and how it comes back. Times are seconds; `None` is Go's
    zero time. */
module ControlMode {
  import opened Basics
  import opened PeerWitness

  datatype Mode = Managed | Unreachable | Independent | Draining

  datatype Policy = Policy(unreachableAfter: int, independentAfter: int, minFailures: int)

  /** `normalizeDisasterPolicy` with the defaults of the agent configuration. */
  function Normalize(p: Policy): (r: Policy)
    ensures r.unreachableAfter > 0 && r.minFailures >= 2
    ensures p.unreachableAfter > 0 ==> r.unreachableAfter == p.unreachableAfter
    ensures p.minFailures >= 2 ==> r.minFailures == p.minFailures
    ensures p.independentAfter > r.unreachableAfter ==> r.independentAfter == p.independentAfter
    ensures r.independentAfter > r.unreachableAfter <==>
            p.independentAfter > r.unreachableAfter || r.unreachableAfter < 15 * 60
    ensures p.unreachableAfter > 0 && p.independentAfter > p.unreachableAfter && p.minFailures >= 2 ==> r == p
  {
    var unreachable := if p.unreachableAfter <= 0 then 45 else p.unreachableAfter;
    Policy(unreachable,
           if p.independentAfter <= unreachable then 15 * 60 else p.independentAfter,
           if p.minFailures < 2 then 4 else p.minFailures)
  }

  /** The thresholds can end up in the wrong order: the default does not look at the other one. */
  lemma ThresholdsInverted()
    ensures Normalize(Policy(1000, 0, 4)) == Policy(1000, 900, 4)
  { }

  datatype Config = Config(compute: bool, policy: Policy, peers: nat)

  datatype ModeState = ModeState(
    mode: Mode,
    adapterMode: Option<Mode>,
    adapterControllerGeneration: int,
    modeGeneration: int,
    controllerGeneration: int,
    highestGeneration: int,
    reason: string,
    heartbeatFails: int,
    healthFails: int,
    peerFails: int,
    outageStartedAt: Option<int>,
    confirmedStartedAt: Option<int>,
    lastSuccessAt: Option<int>,
    independentSince: Option<int>,
    changedAt: int,
    sessions: int,
    pendingSyncs: int)

  /** A heartbeat response. `desired` is `None` for an unknown mode name; the
      last two fields are the verdicts of checks modelled elsewhere or not at all. */
  datatype Response = Response(
    controllerGeneration: int, desired: Option<Mode>, modeGeneration: int,
    acknowledgementsValid: bool, leasesAccepted: bool)

  /** What the node adapter answered to a control-mode request made while the
      node was in `seenMode` at `seenGeneration`. */
  datatype AdapterReport = AdapterReport(
    seenMode: Mode, seenGeneration: int, controllerGeneration: int,
    ok: bool, appliedMode: Option<Mode>, modeGeneration: int, sessions: int, pendingSyncs: int)

  /** One session in the adapter's telemetry. */
  datatype SessionStatus = SessionStatus(independent: bool, ended: bool)

  datatype Event =
    | Failure(now: int, healthFailed: bool, witnesses: seq<Witness>)
    | Success(now: int, response: Response)
    | Sync(report: AdapterReport)
    | Sessions(users: seq<SessionStatus>, pending: nat)
    | Restart(now: int, configuredGeneration: int)

  function Fresh(now: int): ModeState {
    ModeState(Managed, Some(Managed), 0, 1, 0, 0, "", 0, 0, 0, None, None, None, None, now, 0, 0)
  }

  // ----- Specification of the steps -----

  /** The peers are only asked when the node's own probe failed. */
  predicate Confirmed(cfg: Config, healthFailed: bool, witnesses: seq<Witness>) {
    healthFailed && Confirms(cfg.peers, witnesses)
  }

  function Elapsed(now: int, start: Option<int>): int {
    if start.None? then 0 else now - start.value
  }

  function CountFailure(s: ModeState, now: int, healthFailed: bool, confirmed: bool): ModeState {
    s.(heartbeatFails := s.heartbeatFails + 1,
       healthFails := if healthFailed then s.healthFails + 1 else 0,
       peerFails := if confirmed then s.peerFails + 1 else 0,
       confirmedStartedAt := if !confirmed then None
                             else if s.peerFails == 0 || s.confirmedStartedAt.None? then Some(now)
                             else s.confirmedStartedAt,
       outageStartedAt := if s.outageStartedAt.None? then Some(now) else s.outageStartedAt)
  }

  /** The evidence test, on the counters after this failure was counted. */
  predicate LossEstablished(cfg: Config, s: ModeState, now: int) {
    var policy := Normalize(cfg.policy);
    && cfg.compute && s.confirmedStartedAt.Some?
    && Elapsed(now, s.confirmedStartedAt) >= policy.independentAfter
    && s.heartbeatFails >= policy.minFailures && s.healthFails >= policy.minFailures &&
       s.peerFails >= policy.minFailures
  }

  /** The mode after a failure, with its reason, from the counters it left. */
  function Judge(cfg: Config, s: ModeState, now: int, confirmed: bool): (Mode, string) {
    var v1 := if s.mode == Independent && !confirmed then (Draining, "controller_loss_evidence_disputed")
              else (s.mode, s.reason);
    var v2 := if v1.0 == Managed && Elapsed(now, s.outageStartedAt) >= Normalize(cfg.policy).unreachableAfter
              then (Unreachable, "controller_heartbeat_timeout") else v1;
    if v2.0 != Draining && LossEstablished(cfg, s, now) then (Independent, "sustained_peer_confirmed_controller_loss")
      else v2
  }

  function MoveTo(s: ModeState, mode: Mode, generation: int, now: int): ModeState {
    if mode == s.mode then s
    else s.(mode := mode, modeGeneration := generation, changedAt := now, adapterMode := None)
  }

  function FailureStep(cfg: Config, s: ModeState, now: int, healthFailed: bool, witnesses: seq<Witness>): ModeState {
    var confirmed := Confirmed(cfg, healthFailed, witnesses);
    var c := CountFailure(s, now, healthFailed, confirmed);
    var (mode, reason) := Judge(cfg, c, now, confirmed);
    var entering := mode == Independent && LossEstablished(cfg, c, now);
    var d := c.(independentSince := if entering && c.independentSince.None? then Some(now) else c.independentSince);
    MoveTo(d, mode, s.modeGeneration + 1, now).(reason := reason)
  }

  function Coerced(s: ModeState, desired: Mode): Mode {
    if s.mode == Independent && desired == Managed then Draining else desired
  }

  /** Whether `recordControllerSuccess` takes the response or returns an error. */
  predicate Accepts(s: ModeState, r: Response) {
    && r.controllerGeneration > 0 && r.controllerGeneration >= s.highestGeneration
    && r.desired.Some? && r.modeGeneration > 0 && r.acknowledgementsValid
    && r.modeGeneration >= s.modeGeneration
    && !(s.mode == Draining && Coerced(s, r.desired.value) == Managed && (s.sessions > 0 || s.pendingSyncs > 0))
    && !(r.modeGeneration == s.modeGeneration && Coerced(s, r.desired.value) != s.mode)
    && r.leasesAccepted
  }

  /** The generation fence moves even if the response is refused afterwards. */
  function Fenced(s: ModeState, r: Response): ModeState {
    if r.controllerGeneration > 0 && r.controllerGeneration > s.highestGeneration
    then s.(highestGeneration := r.controllerGeneration) else s
  }

  function SuccessStep(s: ModeState, now: int, r: Response): ModeState {
    if !Accepts(s, r) then Fenced(s, r)
    else
      var desired := Coerced(s, r.desired.value);
      var c := Fenced(s, r).(lastSuccessAt := Some(now), outageStartedAt := None, confirmedStartedAt := None,
                             heartbeatFails := 0, healthFails := 0, peerFails := 0,
                             controllerGeneration := r.controllerGeneration);
      if desired == s.mode then c
      else MoveTo(c, desired, r.modeGeneration, now).(
             reason := if desired == Managed then "controller_reconciled"
                       else if desired == Draining then "controller_recovered" else s.reason,
             independentSince := if desired == Managed then None else s.independentSince)
  }

  function SyncStep(cfg: Config, s: ModeState, r: AdapterReport): ModeState {
    if !cfg.compute then s.(adapterMode := Some(r.seenMode), adapterControllerGeneration := r.controllerGeneration)
    else if !r.ok || r.appliedMode != Some(r.seenMode) || r.modeGeneration != r.seenGeneration || r.sessions < 0 ||
      r.pendingSyncs < 0 then s
    else if s.mode != r.seenMode || s.modeGeneration != r.seenGeneration then s
    else s.(adapterMode := r.appliedMode, adapterControllerGeneration := r.controllerGeneration,
            sessions := r.sessions, pendingSyncs := r.pendingSyncs)
  }

  function OpenIndependent(users: seq<SessionStatus>, k: nat): nat
    requires k <= |users|
  {
    if k == 0 then 0
    else OpenIndependent(users, k - 1) + if users[k - 1].independent && !users[k - 1].ended then 1 else 0
  }

  /** The adapter's telemetry replaces both facts, whatever the mode. */
  function SessionsStep(s: ModeState, users: seq<SessionStatus>, pending: nat): ModeState {
    s.(sessions := OpenIndependent(users, |users|), pendingSyncs := pending)
  }

  /** Loading the durable state: an independent mode without witness evidence
      is moved behind the draining boundary. */
  function RestartStep(s: ModeState, now: int, configuredGeneration: int): ModeState {
    var c := if configuredGeneration > s.highestGeneration then s.(highestGeneration := configuredGeneration) else s;
    if c.mode == Independent && c.peerFails <= 0
    then MoveTo(c, Draining, c.modeGeneration + 1, now).(reason := "legacy_independent_without_peer_witness")
    else c
  }

  function Apply(cfg: Config, s: ModeState, e: Event): ModeState {
    match e
    case Failure(now, healthFailed, witnesses) => FailureStep(cfg, s, now, healthFailed, witnesses)
    case Success(now, response) => SuccessStep(s, now, response)
    case Sync(report) => SyncStep(cfg, s, report)
    case Sessions(users, pending) => SessionsStep(s, users, pending)
    case Restart(now, configured) => RestartStep(s, now, configured)
  }

  // ----- The Agent updates its state in place -----

  class ControlPlane {
    const cfg: Config
    var state: ModeState

    constructor (cfg: Config, now: int)
      ensures this.cfg == cfg && state == Fresh(now)
    {
      this.cfg, this.state := cfg, Fresh(now);
    }

    /** The counters and clocks of `recordControllerFailure`. */
    method CountInPlace(now: int, healthFailed: bool, peerQuorumConfirmed: bool)
      modifies this
      ensures state == CountFailure(old(state), now, healthFailed, healthFailed && peerQuorumConfirmed)
    {
      state := state.(heartbeatFails := state.heartbeatFails + 1);
      if healthFailed {
        state := state.(healthFails := state.healthFails + 1);
      } else {
        state := state.(healthFails := 0);
      }
      if healthFailed && peerQuorumConfirmed {
        if state.peerFails == 0 || state.confirmedStartedAt.None? {
          state := state.(confirmedStartedAt := Some(now));
        }
        state := state.(peerFails := state.peerFails + 1);
      } else {
        state := state.(peerFails := 0, confirmedStartedAt := None);
      }
      if state.outageStartedAt.None? { state := state.(outageStartedAt := Some(now)); }
    }

    /** The verdict of `recordControllerFailure` on the counters just updated. */
    method JudgeLoss(now: int, confirmed: bool) returns (mode: Mode, reason: string, established: bool)
      requires state.outageStartedAt.Some?
      ensures (mode, reason) == Judge(cfg, state, now, confirmed)
      ensures established <==> mode == Independent && LossEstablished(cfg, state, now)
    {
      var policy := Normalize(cfg.policy);
      var elapsed := now - state.outageStartedAt.value;
      var confirmedElapsed := 0;
      if state.confirmedStartedAt.Some? { confirmedElapsed := now - state.confirmedStartedAt.value; }
      mode, reason, established := state.mode, state.reason, false;
      if mode == Independent && !confirmed {
        mode, reason := Draining, "controller_loss_evidence_disputed";
      }
      if mode == Managed && elapsed >= policy.unreachableAfter {
        mode, reason := Unreachable, "controller_heartbeat_timeout";
      }
      if cfg.compute && mode != Draining && state.confirmedStartedAt.Some? &&
         confirmedElapsed >= policy.independentAfter && state.heartbeatFails >= policy.minFailures &&
         state.healthFails >= policy.minFailures && state.peerFails >= policy.minFailures {
        mode, reason, established := Independent, "sustained_peer_confirmed_controller_loss", true;
      }
    }

    /** `recordControllerFailure`, called after the health probe and, if that
        failed, after the witnesses were asked. */
    method RecordFailure(now: int, healthFailed: bool, witnesses: seq<Witness>)
      modifies this
      ensures state == FailureStep(cfg, old(state), now, healthFailed, witnesses)
    {
      var peerQuorumConfirmed := false;
      if healthFailed { peerQuorumConfirmed := QuorumConfirmsLoss(cfg.peers, witnesses); }
      CountInPlace(now, healthFailed, peerQuorumConfirmed);
      var mode, reason, established := JudgeLoss(now, healthFailed && peerQuorumConfirmed);
      if established && state.independentSince.None? { state := state.(independentSince := Some(now)); }
      if mode != state.mode {
        state := state.(mode := mode, modeGeneration := state.modeGeneration + 1, changedAt := now,
          adapterMode := None);
      }
      state := state.(reason := reason);
    }

    /** `recordControllerSuccess`. */
    method RecordSuccess(now: int, r: Response) returns (accepted: bool)
      modifies this
      ensures accepted == Accepts(old(state), r)
      ensures state == SuccessStep(old(state), now, r)
    {
      if r.controllerGeneration <= 0 { return false; }
      if r.controllerGeneration < state.highestGeneration { return false; }
      if r.controllerGeneration > state.highestGeneration {
        state := state.(highestGeneration := r.controllerGeneration);
      }
      if r.desired.None? || r.modeGeneration <= 0 || !r.acknowledgementsValid { return false; }
      if r.modeGeneration < state.modeGeneration { return false; }
      var desired := r.desired.value;
      if state.mode == Independent && desired == Managed { desired := Draining; }
      if state.mode == Draining && desired == Managed && (state.sessions > 0 || state.pendingSyncs > 0) {
        return false;
      }
      if r.modeGeneration == state.modeGeneration && desired != state.mode { return false; }
      if !r.leasesAccepted { return false; }
      state := state.(lastSuccessAt := Some(now), outageStartedAt := None, confirmedStartedAt := None,
                      heartbeatFails := 0, healthFails := 0, peerFails := 0,
                      controllerGeneration := r.controllerGeneration);
      if desired != state.mode {
        state := state.(mode := desired, modeGeneration := r.modeGeneration, changedAt := now, adapterMode := None);
        if desired == Managed {
          state := state.(reason := "controller_reconciled", independentSince := None);
        } else if desired == Draining {
          state := state.(reason := "controller_recovered");
        }
      }
      return true;
    }

    /** `syncTavernControlMode`, after the adapter call returned. */
    method SyncAdapter(r: AdapterReport)
      modifies this
      ensures state == SyncStep(cfg, old(state), r)
    {
      if !cfg.compute {
        state := state.(adapterMode := Some(r.seenMode), adapterControllerGeneration := r.controllerGeneration);
        return;
      }
      if !r.ok || r.appliedMode != Some(r.seenMode) || r.modeGeneration != r.seenGeneration || r.sessions < 0 ||
        r.pendingSyncs < 0 {
        return;
      }
      if state.mode != r.seenMode || state.modeGeneration != r.seenGeneration { return; }
      state := state.(adapterMode := r.appliedMode, adapterControllerGeneration := r.controllerGeneration);
      state := state.(sessions := r.sessions, pendingSyncs := r.pendingSyncs);
    }

    /** `recordAdapterSessionFacts`. */
    method RecordSessions(users: seq<SessionStatus>, pending: nat)
      modifies this
      ensures state == SessionsStep(old(state), users, pending)
    {
      var activeIndependent := 0;
      for k := 0 to |users|
        invariant activeIndependent == OpenIndependent(users, k) && state == old(state)
      {
        if users[k].independent && !users[k].ended { activeIndependent := activeIndependent + 1; }
      }
      state := state.(sessions := activeIndependent, pendingSyncs := pending);
    }

    /** The control-mode part of `loadRuntimeState`. */
    method Reload(now: int, configuredGeneration: int)
      modifies this
      ensures state == RestartStep(old(state), now, configuredGeneration)
    {
      if configuredGeneration > state.highestGeneration { state := state.(highestGeneration := configuredGeneration); }
      if state.mode == Independent && state.peerFails <= 0 {
        state := state.(mode := Draining, modeGeneration := state.modeGeneration + 1,
                        reason := "legacy_independent_without_peer_witness", changedAt := now, adapterMode := None);
      }
    }
  }
}
