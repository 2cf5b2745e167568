/** Which prepare command a consumed capability goes back to, and what each phase allows. */
module TransferHistory {
  import opened Formats
  import opened TransferTable
  import opened TransferRuns

  // ----- Whose capability an entry holds -----

  /** Event `k` is a prepare command that gave `id` its entry. */
  ghost predicate Prepares(r: Trace, id: string, k: nat)
    requires Shaped(r) && k < |r.events|
  {
    var t, u := r.states[k].table, r.states[k + 1].table;
    !SameEntry(t, u, id) && ArmedBy(t, r.events[k], u, id)
  }

  /** Event `j` is the prepare command that last gave `id` its entry, before event `i`. */
  ghost predicate LastPrepares(r: Trace, id: string, j: nat, i: nat)
    requires Shaped(r) && j < i <= |r.events|
  {
    Prepares(r, id, j) && forall m :: j < m < i ==> !Prepares(r, id, m)
  }

  /** What an entry keeps of the request it was made from, whatever happens to it later. */
  ghost predicate KeepsRequest(t: Transfer, request: Transfer) {
    t.scope == request.scope && t.capability == request.capability && t.expires == request.expires
  }

  lemma KeptStep(cfg: Config, s: State, e: Event, id: string)
    requires Enabled(cfg, s, e) && id in Apply(cfg, s, e).table
    ensures var u := Apply(cfg, s, e).table;
            || (!SameEntry(s.table, u, id) && ArmedBy(s.table, e, u, id))
            || (id in s.table && KeepsRequest(u[id], s.table[id]))
  {
    EntryChanges(cfg, s, e, id);
  }

  /** Every entry holds the scope, the capability and the expiry of the command that last prepared it. */
  lemma {:induction false} PreparedFrom(r: Trace, id: string, i: nat) returns (j: nat)
    requires IsRun(r) && i <= |r.events| && id in r.states[i].table
    ensures j < i && LastPrepares(r, id, j, i) && KeepsRequest(r.states[i].table[id], r.events[j].request)
  {
    assert i > 0 && Follows(r, i - 1);
    KeptStep(r.cfg, r.states[i - 1], r.events[i - 1], id);
    if Prepares(r, id, i - 1) {
      j := i - 1;
    } else {
      j := PreparedFrom(r, id, i - 1);
    }
  }

  lemma LastUnique(r: Trace, id: string, j: nat, k: nat, i: nat)
    requires Shaped(r) && j < i && k < i <= |r.events| && LastPrepares(r, id, j, i) && LastPrepares(r, id, k, i)
    ensures j == k
  { }

  // ----- Consuming -----

  /** A receiver presents the right workflow and a token that opens the capability, in time. */
  ghost predicate Presents(cfg: Config, e: Event, id: string, request: Transfer) {
    && e.ReceiveStart? && e.snapshot == id && e.workflow == request.scope.workflow
    && cfg.opens(request.capability, e.token) && e.now < request.expires
  }

  lemma ConsumeStepIff(cfg: Config, s: State, e: Event, id: string)
    requires Enabled(cfg, s, e) && id in s.table && s.table[id].phase == Prepared && ValidDigest(s.table[id].capability)
    ensures ConsumedBy(s.table, e, Apply(cfg, s, e).table, id) <==> Presents(cfg, e, id, s.table[id])
  { }

  /** A capability is consumed if and only if it is prepared and the receiver presents what the command
      that last prepared it asked for; re-arming at a restart keeps that capability. */
  lemma ConsumedIff(r: Trace, id: string, j: nat, k: nat)
    requires IsRun(r) && j < k < |r.events| && LastPrepares(r, id, j, k)
    ensures Consumes(r, id, k) <==> IsPrepared(r, id, k) && Presents(r.cfg, r.events[k], id, r.events[j].request)
  {
    assert Follows(r, k) && Follows(r, j);
    ScopeFixed(r, id, j + 1, k);
    var l := PreparedFrom(r, id, k);
    LastUnique(r, id, j, l, k);
    if IsPrepared(r, id, k) { ConsumeStepIff(r.cfg, r.states[k], r.events[k], id); }
  }

  /** So no consume ever happens without the token of the last prepare command. */
  lemma ConsumedWithToken(r: Trace, id: string, k: nat) returns (j: nat)
    requires IsRun(r) && k < |r.events| && Consumes(r, id, k)
    ensures j < k && LastPrepares(r, id, j, k) && Presents(r.cfg, r.events[k], id, r.events[j].request)
  {
    j := PreparedFrom(r, id, k);
    ConsumedIff(r, id, j, k);
  }

  // ----- Restarting -----

  /** A restart re-arms what was consumed and has not expired, fails what was consumed and has, and
      leaves everything else as it is. */
  lemma RestartOutcome(r: Trace, id: string, k: nat)
    requires IsRun(r) && k < |r.events| && r.events[k].Startup? && id in r.states[k].table
    ensures id in r.states[k + 1].table
    ensures var t, u, now := r.states[k].table[id], r.states[k + 1].table[id], r.events[k].now;
            && (t.phase != Consumed ==> u == t)
            && (t.phase == Consumed && now < t.expires ==> u == t.(phase := Prepared, updated := now))
            && (t.phase == Consumed && t.expires <= now ==> u == t.(phase := Failed, updated := now))
  {
    assert Follows(r, k);
  }

  // ----- Preparing -----

  /** What the phase of the entry in place says about a new request for its snapshot. A published
      transfer and a live one are never replaced, nor is one of another scope. */
  ghost predicate MayPrepare(existing: Transfer, t: Transfer, now: int) {
    existing.scope == t.scope &&
    match existing.phase
    case Published => false
    case Consumed => t.scope.kind == Restore && existing.expires <= now
    case Failed => t.capability != existing.capability || (t.relay.task != "" && t.relay.task != existing.relay.task)
    case Prepared =>
      t.capability != existing.capability || (t.relay.task != "" && t.relay != existing.relay)
  }

  /** A request repeated while its entry is still prepared. */
  ghost predicate Repeats(existing: Transfer, t: Transfer) {
    && existing.phase == Prepared && existing.scope == t.scope && existing.capability == t.capability
    && existing.relay == t.relay
  }

  /** A prepare command takes effect exactly where the phase allows it, and is answered without
      effect exactly when it repeats the entry in place. */
  lemma PrepareIff(table: Table, t: Transfer, now: int)
    ensures var id := t.scope.snapshot;
            && (PrepareVerdict(table, t, now) == Armed <==> id !in table || MayPrepare(table[id], t, now))
            && (PrepareVerdict(table, t, now) == Kept <==> id in table && Repeats(table[id], t))
            && Prepare(table, t, now) == if PrepareVerdict(table, t, now) == Armed
                                         then table[id := t.(phase := Prepared, updated := now)] else table
  { }

  // ----- Publishing -----

  /** A handler that lives publishes if and only if its transfer is still consumed. */
  lemma PublishedIff(r: Trace, h: nat, k: nat)
    requires IsRun(r) && k < |r.events| && r.events[k].ReceivePublish? && r.events[k].handler == h
    requires h in r.states[k].live && r.states[k].live[h] in r.states[k].table
    ensures var id := r.states[k].live[h];
            PublishedBy(r.states[k], r.events[k], r.states[k + 1].table, id) <==>
            r.states[k].table[id].phase == Consumed
  {
    assert Follows(r, k);
  }

  // ----- Relays -----

  ghost predicate Keyed(keys: Relay) {
    ValidUuid(keys.task) && keys.privateKey != "" && keys.publicKey != ""
  }

  /** A relay prepare that is repeated for its task keeps the keys it first handed out, whatever keys
      were generated for the repetition; one for another task gets keys of its own. */
  lemma RelayRepeated(table: Table, t: Transfer, keys: Relay, again: Relay, now: int, later: int)
    requires Keyed(keys) && Keyed(again) && PrepareVerdict(table, t.(relay := keys), now) == Armed
    requires !RelayReady(table, t, keys.task)
    ensures var first := PrepareRelay(table, t, keys, now);
            var second := PrepareRelay(first, t, again, later);
            && t.scope.snapshot in first && first[t.scope.snapshot].relay == keys && t.scope.snapshot in second
            && (again.task == keys.task ==> second == first)
            && (again.task != keys.task ==> second[t.scope.snapshot].relay == again)
  { }

  /** Starting a relay download fails exactly the transfer of that workflow and task that was left consumed. */
  lemma RelayFailsIff(table: Table, node: int, id: string, workflow: string, task: string, now: int)
    requires ValidTable(table, node) && ValidUuid(task) && id in table
    ensures var after := RelayTransfer(table, id, workflow, task, now);
            after == if table[id].phase == Consumed && table[id].scope.workflow == workflow &&
                        table[id].relay.task == task
                     then table[id := table[id].(phase := Failed, updated := now)] else table
  {
    assert ValidTransfer(table[id], node);
  }

  /** After an incomplete transfer is failed it is failed or published, and published exactly if it was. */
  lemma FailedUnlessPublished(table: Table, id: string, now: int)
    requires id in table
    ensures var after := FailIfIncomplete(table, id, now);
            && id in after && after[id].phase == (if table[id].phase == Published then Published else Failed)
            && after - {id} == table - {id} && (after[id].phase == table[id].phase ==> after == table)
  { }
}
