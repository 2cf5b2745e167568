/** What the transfer table guarantees over every run with restarts. */
module TransferRuns {
  import opened Basics
  import opened Formats
  import opened TransferTable

  /** Everything that touches the table. A receive handler lives from its successful
      consume to its end; `handler` names it. */
  datatype Event =
    | PrepareCommand(request: Transfer, now: int)
    | PrepareRelayCommand(request: Transfer, keys: Relay, now: int)
    | RelayStart(snapshot: string, workflow: string, task: string, now: int)
    | ReceiveStart(snapshot: string, workflow: string, token: string, handler: nat, now: int)
    | ReceiveFail(handler: nat, now: int)
    | ReceivePublish(handler: nat, receipt: string, now: int)
    | ReceiveDrop(handler: nat)
    | RelayEnd(snapshot: string, now: int)
    | Startup(now: int)

  /** `live` maps each running receive handler to its snapshot. */
  datatype State = State(table: Table, live: map<nat, string>)

  datatype Config = Config(node: int, opens: (string, string) -> bool)

  /** The conditions under which an event can happen at all. */
  ghost predicate Enabled(cfg: Config, s: State, e: Event) {
    match e
    case PrepareCommand(t, now) => now > 0 && ValidRequest(t, cfg.node, now) && t.relay == NO_RELAY
    case PrepareRelayCommand(t, keys, now) =>
      now > 0 && ValidRequest(t, cfg.node, now) && t.relay == NO_RELAY && keys.privateKey != "" && keys.publicKey != ""
    case RelayStart(_, _, _, now) => now > 0
    case ReceiveStart(_, _, _, handler, now) => now > 0 && handler !in s.live
    case ReceiveFail(handler, now) => now > 0 && handler in s.live
    case ReceivePublish(handler, _, now) => now > 0 && handler in s.live
    case ReceiveDrop(handler) => handler in s.live
    case RelayEnd(_, now) => now > 0
    case Startup(now) => now > 0 && ValidTable(s.table, cfg.node)
  }

  function TableAfter(cfg: Config, s: State, e: Event): Table {
    match e
    case PrepareCommand(t, now) => Prepare(s.table, t, now)
    case PrepareRelayCommand(t, keys, now) => PrepareRelay(s.table, t, keys, now)
    case RelayStart(id, workflow, task, now) => RelayTransfer(s.table, id, workflow, task, now)
    case ReceiveStart(id, workflow, token, _, now) => Consume(s.table, id, workflow, token, now, cfg.opens)
    case ReceiveFail(h, now) => if h in s.live then FinishFailed(s.table, s.live[h], now) else s.table
    case ReceivePublish(h, receipt, now) => if h in s.live then Publish(s.table, s.live[h], receipt, now) else s.table
    case ReceiveDrop(_) => s.table
    case RelayEnd(id, now) => FailIfIncomplete(s.table, id, now)
    case Startup(now) => Restart(s.table, now)
  }

  function LiveAfter(cfg: Config, s: State, e: Event): map<nat, string> {
    match e
    case ReceiveStart(id, workflow, token, h, now) =>
      if CanConsume(s.table, id, workflow, token, now, cfg.opens) then s.live[h := id] else s.live
    case ReceiveFail(h, _) => s.live - {h}
    case ReceivePublish(h, _, _) => s.live - {h}
    case ReceiveDrop(h) => s.live - {h}
    case Startup(_) => map[]
    case _ => s.live
  }

  function Apply(cfg: Config, s: State, e: Event): State {
    State(TableAfter(cfg, s, e), LiveAfter(cfg, s, e))
  }

  datatype Trace = Trace(cfg: Config, events: seq<Event>, states: seq<State>)

  ghost predicate Shaped(r: Trace) {
    |r.states| == |r.events| + 1
  }

  ghost predicate Follows(r: Trace, k: nat)
    requires Shaped(r) && k < |r.events|
  {
    Enabled(r.cfg, r.states[k], r.events[k]) && r.states[k + 1] == Apply(r.cfg, r.states[k], r.events[k])
  }

  ghost predicate IsRun(r: Trace) {
    && Shaped(r) && r.cfg.node > 0 && r.states[0] == State(map[], map[])
    && forall k :: 0 <= k < |r.events| ==> Follows(r, k)
  }

  // ----- How one event can change one entry -----

  ghost predicate SameEntry(t: Table, u: Table, id: string) {
    (id in t <==> id in u) && (id in t ==> t[id] == u[id])
  }

  /** A fresh capability in the state a receiver can consume, made for the scope that was there. */
  ghost predicate ArmedBy(t: Table, e: Event, u: Table, id: string) {
    && (e.PrepareCommand? || e.PrepareRelayCommand?) && e.request.scope.snapshot == id
    && id in u && u[id].phase == Prepared && u[id].receipt.None? && u[id].capability == e.request.capability &&
       u[id].scope == e.request.scope
    && (id in t ==> t[id].scope == u[id].scope && t[id].phase != Published)
    && u[id].expires == e.request.expires && u[id].updated == e.now && ValidRelay(u[id].relay)
  }

  ghost predicate RearmedBy(t: Table, e: Event, u: Table, id: string) {
    e.Startup? && id in t && id in u && t[id].phase == Consumed && e.now < t[id].expires &&
      u[id] == t[id].(phase := Prepared, updated := e.now)
  }

  ghost predicate ConsumedBy(t: Table, e: Event, u: Table, id: string) {
    && e.ReceiveStart? && e.snapshot == id && id in t && id in u && t[id].phase == Prepared && e.now < t[id].expires
    && u[id] == t[id].(phase := Consumed, updated := e.now)
  }

  ghost predicate PublishedBy(s: State, e: Event, u: Table, id: string) {
    && e.ReceivePublish? && e.handler in s.live && s.live[e.handler] == id && id in s.table && id in u
    && s.table[id].phase == Consumed &&
       u[id] == s.table[id].(phase := Published, receipt := Some(e.receipt), updated := e.now)
  }

  /** Set to failed by a step that looks at the phase first: a relay that starts over or ends, or a
      restart after the capability expired. */
  ghost predicate FailedBy(t: Table, e: Event, u: Table, id: string) {
    && (e.RelayStart? || e.RelayEnd? || e.Startup?) && id in t && id in u
    && u[id] == t[id].(phase := Failed, updated := e.now)
    && (|| (e.RelayStart? && e.snapshot == id && t[id].phase == Consumed)
        || (e.RelayEnd? && e.snapshot == id && (t[id].phase == Prepared || t[id].phase == Consumed))
        || (e.Startup? && t[id].phase == Consumed && t[id].expires <= e.now))
  }

  /** Set to failed by a receive handler, whatever the phase. */
  ghost predicate Overwritten(s: State, e: Event, u: Table, id: string) {
    && e.ReceiveFail? && e.handler in s.live && s.live[e.handler] == id && id in s.table && id in u
    && u[id] == s.table[id].(phase := Failed, updated := e.now)
  }

  lemma PrepareChanges(table: Table, t: Transfer, now: int, id: string)
    ensures var u := Prepare(table, t, now);
            SameEntry(table, u, id) ||
            (&& t.scope.snapshot == id && id in u && u[id] == t.(phase := Prepared, updated := now)
             && (id in table ==> table[id].scope == t.scope && table[id].phase != Published))
  { }

  /** The only ways an entry changes. */
  lemma EntryChanges(cfg: Config, s: State, e: Event, id: string)
    requires Enabled(cfg, s, e)
    ensures var u := TableAfter(cfg, s, e);
            || SameEntry(s.table, u, id) || ArmedBy(s.table, e, u, id) || RearmedBy(s.table, e, u, id) ||
               ConsumedBy(s.table, e, u, id)
            || PublishedBy(s, e, u, id) || FailedBy(s.table, e, u, id) || Overwritten(s, e, u, id)
  {
    match e
    case PrepareCommand(t, now) => PrepareChanges(s.table, t, now, id);
    case PrepareRelayCommand(t, keys, now) => PrepareChanges(s.table, t.(relay := keys), now, id);
    case _ =>
  }

  // ----- Scope -----

  lemma ScopeStep(cfg: Config, s: State, e: Event, id: string)
    requires Enabled(cfg, s, e) && id in s.table
    ensures id in Apply(cfg, s, e).table && Apply(cfg, s, e).table[id].scope == s.table[id].scope
  {
    EntryChanges(cfg, s, e, id);
  }

  /** A snapshot ID once known stays known, for the same scope. */
  lemma {:induction false} ScopeFixed(r: Trace, id: string, i: nat, j: nat)
    requires IsRun(r) && i <= j <= |r.events| && id in r.states[i].table
    ensures id in r.states[j].table && r.states[j].table[id].scope == r.states[i].table[id].scope
  {
    if i < j {
      ScopeFixed(r, id, i, j - 1);
      assert Follows(r, j - 1);
      ScopeStep(r.cfg, r.states[j - 1], r.events[j - 1], id);
    }
  }

  // ----- One consume for each arming -----

  /** Event `k` makes the capability of `id` consumable: a prepare that took effect, or
      a restart that re-armed it. */
  ghost predicate Arms(r: Trace, id: string, k: nat)
    requires Shaped(r) && k < |r.events|
  {
    var t, u := r.states[k].table, r.states[k + 1].table;
    !SameEntry(t, u, id) && (ArmedBy(t, r.events[k], u, id) || RearmedBy(t, r.events[k], u, id))
  }

  ghost predicate Consumes(r: Trace, id: string, k: nat)
    requires Shaped(r) && k < |r.events|
  {
    ConsumedBy(r.states[k].table, r.events[k], r.states[k + 1].table, id)
  }

  ghost predicate IsPrepared(r: Trace, id: string, k: nat)
    requires Shaped(r) && k <= |r.events|
  {
    id in r.states[k].table && r.states[k].table[id].phase == Prepared
  }

  /** Walking back from a prepared entry to a time it was not prepared, an arming is met. */
  lemma {:induction false} ArmingBetween(r: Trace, id: string, i: nat, j: nat) returns (k: nat)
    requires IsRun(r) && i <= j <= |r.events| && !IsPrepared(r, id, i) && IsPrepared(r, id, j)
    ensures i <= k < j && Arms(r, id, k)
  {
    if IsPrepared(r, id, j - 1) {
      k := ArmingBetween(r, id, i, j - 1);
    } else {
      k := j - 1;
      assert Follows(r, k);
      EntryChanges(r.cfg, r.states[k], r.events[k], id);
    }
  }

  /** Each arming is consumed at most once: between two consumes of one snapshot lies an arming. */
  lemma ConsumedOncePerArming(r: Trace, id: string, i: nat, j: nat) returns (k: nat)
    requires IsRun(r) && i < j < |r.events| && Consumes(r, id, i) && Consumes(r, id, j)
    ensures i < k < j && Arms(r, id, k)
  {
    k := ArmingBetween(r, id, i + 1, j);
  }

  /** And the first consume has an arming before it. */
  lemma ConsumedAfterArming(r: Trace, id: string, j: nat) returns (k: nat)
    requires IsRun(r) && j < |r.events| && Consumes(r, id, j)
    ensures 0 <= k < j && Arms(r, id, k)
  {
    k := ArmingBetween(r, id, 0, j);
  }

  // ----- Validity and finality -----

  /** The one step that can break the table: a handler marks as failed a transfer
      that another handler has published in the meantime. */
  ghost predicate Breaks(s: State, e: Event) {
    e.ReceiveFail? && e.handler in s.live && s.live[e.handler] in s.table &&
      s.table[s.live[e.handler]].phase == Published
  }

  lemma ValidEntryStep(cfg: Config, s: State, e: Event, id: string)
    requires Enabled(cfg, s, e) && cfg.node > 0
    requires id in s.table ==> s.table[id].scope.snapshot == id && ValidTransfer(s.table[id], cfg.node)
    requires !(Breaks(s, e) && s.live[e.handler] == id)
    ensures var u := TableAfter(cfg, s, e); id in u ==> u[id].scope.snapshot == id && ValidTransfer(u[id], cfg.node)
  {
    EntryChanges(cfg, s, e, id);
  }

  /** One event keeps the table valid exactly when it does not break it. */
  lemma ValidStepIff(cfg: Config, s: State, e: Event)
    requires Enabled(cfg, s, e) && cfg.node > 0 && ValidTable(s.table, cfg.node)
    ensures ValidTable(TableAfter(cfg, s, e), cfg.node) <==> !Breaks(s, e)
  {
    var u := TableAfter(cfg, s, e);
    if Breaks(s, e) {
      var id := s.live[e.handler];
      assert id in s.table && ValidTransfer(s.table[id], cfg.node);
      assert id in u && u[id].phase == Failed && u[id].receipt.Some?;
      assert !ValidTransfer(u[id], cfg.node);
    } else {
      forall id | id in u ensures u[id].scope.snapshot == id && ValidTransfer(u[id], cfg.node) {
        ValidEntryStep(cfg, s, e, id);
      }
    }
  }

  ghost predicate NeverBreaks(r: Trace, n: nat)
    requires Shaped(r) && n <= |r.events|
  {
    forall k :: 0 <= k < n ==> !Breaks(r.states[k], r.events[k])
  }

  ghost predicate AlwaysValid(r: Trace, n: nat)
    requires Shaped(r) && n <= |r.events|
  {
    forall k :: 0 <= k <= n ==> ValidTable(r.states[k].table, r.cfg.node)
  }

  lemma {:induction false} ValidTogether(r: Trace, n: nat)
    requires IsRun(r) && n <= |r.events|
    ensures AlwaysValid(r, n) <==> NeverBreaks(r, n)
  {
    if n > 0 {
      ValidTogether(r, n - 1);
      assert AlwaysValid(r, n) <==> AlwaysValid(r, n - 1) && ValidTable(r.states[n].table, r.cfg.node);
      assert NeverBreaks(r, n) <==> NeverBreaks(r, n - 1) && !Breaks(r.states[n - 1], r.events[n - 1]);
      assert Follows(r, n - 1);
      if AlwaysValid(r, n - 1) { ValidStepIff(r.cfg, r.states[n - 1], r.events[n - 1]); }
    }
  }

  /** Every table of a run passes the startup check if and only if no handler of the
      run ever marks a published transfer as failed. */
  lemma TablesValidIff(r: Trace)
    requires IsRun(r)
    ensures AlwaysValid(r, |r.events|) <==> NeverBreaks(r, |r.events|)
  {
    ValidTogether(r, |r.events|);
  }

  lemma PublishedStays(cfg: Config, s: State, e: Event, id: string)
    requires Enabled(cfg, s, e) && id in s.table && s.table[id].phase == Published && !Breaks(s, e)
    ensures id in Apply(cfg, s, e).table && Apply(cfg, s, e).table[id] == s.table[id]
  {
    EntryChanges(cfg, s, e, id);
  }

  /** Under the same condition a published transfer keeps its receipt forever. */
  lemma {:induction false} PublishedIsFinal(r: Trace, id: string, i: nat, j: nat)
    requires IsRun(r) && i <= j <= |r.events| && NeverBreaks(r, |r.events|)
    requires id in r.states[i].table && r.states[i].table[id].phase == Published
    ensures id in r.states[j].table && r.states[j].table[id] == r.states[i].table[id]
  {
    if i < j {
      PublishedIsFinal(r, id, i, j - 1);
      assert Follows(r, j - 1);
      PublishedStays(r.cfg, r.states[j - 1], r.events[j - 1], id);
    }
  }

  // ----- One handler at a time is enough -----

  ghost predicate OneHandler(s: State) {
    forall h, g :: h in s.live && g in s.live && s.live[h] == s.live[g] ==> h == g
  }

  ghost predicate Unpublished(s: State) {
    forall h :: h in s.live && s.live[h] in s.table ==> s.table[s.live[h]].phase != Published
  }

  lemma UnpublishedStep(cfg: Config, s: State, e: Event)
    requires Enabled(cfg, s, e) && Unpublished(s) && OneHandler(s)
    ensures Unpublished(Apply(cfg, s, e))
  {
    var next := Apply(cfg, s, e);
    forall h | h in next.live && next.live[h] in next.table ensures next.table[next.live[h]].phase != Published {
      EntryChanges(cfg, s, e, next.live[h]);
    }
  }

  lemma {:induction false} HandlersUnpublished(r: Trace, n: nat)
    requires IsRun(r) && n <= |r.events| && forall k :: 0 <= k <= |r.events| ==> OneHandler(r.states[k])
    ensures Unpublished(r.states[n])
  {
    if n > 0 {
      HandlersUnpublished(r, n - 1);
      assert Follows(r, n - 1);
      UnpublishedStep(r.cfg, r.states[n - 1], r.events[n - 1]);
    }
  }

  /** While no two receive handlers work on one snapshot at a time, every table is valid. */
  lemma OneHandlerSuffices(r: Trace)
    requires IsRun(r) && forall k :: 0 <= k <= |r.events| ==> OneHandler(r.states[k])
    ensures NeverBreaks(r, |r.events|) && AlwaysValid(r, |r.events|)
  {
    forall k | 0 <= k < |r.events| ensures !Breaks(r.states[k], r.events[k]) { HandlersUnpublished(r, k); }
    TablesValidIff(r);
  }

  // ----- Two handlers are not -----

  function Request(scope: Scope, capability: string, expires: int): Transfer {
    Transfer(scope, capability, expires, NO_RELAY, Prepared, 0, None)
  }

  function Single(scope: Scope, capability: string, expires: int, phase: Phase, now: int,
      receipt: Option<string>): Table {
    map[scope.snapshot := Transfer(scope, capability, expires, NO_RELAY, phase, now, receipt)]
  }

  lemma Extend(r: Trace, e: Event) returns (more: Trace)
    requires IsRun(r) && Enabled(r.cfg, r.states[|r.events|], e)
    ensures IsRun(more) && more.cfg == r.cfg && |more.events| == |r.events| + 1
    ensures more.states[|more.events|] == Apply(r.cfg, r.states[|r.events|], e)
  {
    more := Trace(r.cfg, r.events + [e], r.states + [Apply(r.cfg, r.states[|r.events|], e)]);
    forall k | 0 <= k < |more.events| ensures Follows(more, k) {
      if k < |r.events| { assert Follows(r, k); }
    }
  }

  /** Prepared and consumed by handler 0, expired, and prepared again. */
  lemma RestoreRearmed(cfg: Config, scope: Scope, c1: string, t1: string, c2: string) returns (r: Trace)
    requires cfg.node > 0 && ValidScope(scope, cfg.node) && scope.kind == Restore
    requires ValidDigest(c1) && ValidDigest(c2) && cfg.opens(c1, t1)
    ensures IsRun(r) && r.cfg == cfg &&
            r.states[|r.events|] == State(Single(scope, c2, 4, Prepared, 3, None), map[0 := scope.snapshot])
  {
    r := Trace(cfg, [], [State(map[], map[])]);
    r := Extend(r, PrepareCommand(Request(scope, c1, 2), 1));
    assert r.states[|r.events|] == State(Single(scope, c1, 2, Prepared, 1, None), map[]);
    r := Extend(r, ReceiveStart(scope.snapshot, scope.workflow, t1, 0, 1));
    assert r.states[|r.events|] == State(Single(scope, c1, 2, Consumed, 1, None), map[0 := scope.snapshot]);
    r := Extend(r, PrepareCommand(Request(scope, c2, 4), 3));
  }

  /** A restore whose capability expires while its first handler is still at work is
      prepared again and published by a second handler; then the first one gives up.
      The table that is left fails the startup check. */
  lemma BrokenRun(cfg: Config, scope: Scope, c1: string, t1: string, c2: string, t2: string) returns (r: Trace)
    requires cfg.node > 0 && ValidScope(scope, cfg.node) && scope.kind == Restore
    requires ValidDigest(c1) && ValidDigest(c2) && cfg.opens(c1, t1) && cfg.opens(c2, t2)
    ensures IsRun(r) && r.cfg == cfg && !ValidTable(r.states[|r.events|].table, cfg.node)
  {
    var id := scope.snapshot;
    r := RestoreRearmed(cfg, scope, c1, t1, c2);
    r := Extend(r, ReceiveStart(id, scope.workflow, t2, 1, 3));
    assert r.states[|r.events|] == State(Single(scope, c2, 4, Consumed, 3, None), map[0 := id, 1 := id]);
    r := Extend(r, ReceivePublish(1, "receipt", 3));
    assert r.states[|r.events|] == State(Single(scope, c2, 4, Published, 3, Some("receipt")), map[0 := id]);
    r := Extend(r, ReceiveFail(0, 4));
    var last := r.states[|r.events|].table;
    assert id in last && !ValidTransfer(last[id], cfg.node);
  }
}
