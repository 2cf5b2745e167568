/** The Agent's table of one-use snapshot transfer capabilities. */
module TransferTable {
  import opened Basics
  import opened Formats
  import Sets

  datatype Kind = Archive | HotStandby | Restore | ConflictInput

  /** What a transfer is for; fixed for the life of a snapshot ID. */
  datatype Scope = Scope(workflow: string, snapshot: string, user: int, target: int, handle: string, kind: Kind,
      source: int, epoch: int)

  datatype Relay = Relay(task: string, privateKey: string, publicKey: string)

  datatype Phase = Prepared | Consumed | Failed | Published

  /** Times count from the zero time. */
  datatype Transfer = Transfer(scope: Scope, capability: string, expires: int, relay: Relay, phase: Phase, updated: int,
      receipt: Option<string>)

  type Table = map<string, Transfer>

  const NO_RELAY := Relay("", "", "")
  const MAX_LIFETIME: nat := 9 * 3600

  predicate ValidScope(s: Scope, node: int) {
    && ValidUuid(s.workflow) && ValidUuid(s.snapshot) && s.user > 0 && s.target > 0 && (node > 0 ==> s.target == node)
    && ValidHandle(s.handle) && s.source > 0 && s.epoch > 0
  }

  predicate ValidRelay(r: Relay) {
    r.task == "" || (ValidUuid(r.task) && r.privateKey != "" && r.publicKey != "")
  }

  /** `validatePendingTransferState`. */
  predicate ValidTransfer(t: Transfer, node: int) {
    && ValidScope(t.scope, node) && ValidDigest(t.capability) && t.expires != 0 && t.updated != 0
    && (t.phase == Published <==> t.receipt.Some?) && ValidRelay(t.relay)
  }

  /** What startup demands of the persisted table. */
  ghost predicate ValidTable(table: Table, node: int) {
    forall id :: id in table ==> table[id].scope.snapshot == id && ValidTransfer(table[id], node)
  }

  /** A prepare request after the command's own checks; the Agent fills in the target. */
  predicate ValidRequest(t: Transfer, node: int, now: int) {
    && ValidScope(t.scope, node) && ValidDigest(t.capability) && now < t.expires <= now + MAX_LIFETIME
    && t.receipt.None?
  }

  // ----- One operation each -----

  predicate SameCapability(a: Transfer, b: Transfer) {
    a.scope.workflow == b.scope.workflow && a.capability == b.capability
  }

  /** When a new request may take the place of the entry that is there. */
  predicate Replaceable(existing: Transfer, t: Transfer, now: int) {
    && existing.scope == t.scope
    && (|| (existing.phase == Failed &&
       (!SameCapability(existing, t) || (t.relay.task != "" && existing.relay.task != t.relay.task)))
        || (existing.phase == Prepared && (!SameCapability(existing, t) || t.relay.task != ""))
        || (existing.phase == Consumed && t.scope.kind == Restore && existing.expires <= now)
        || (existing.phase == Prepared && existing.expires <= now))
  }

  datatype Verdict = Kept | Armed | Refused

  function PrepareVerdict(table: Table, t: Transfer, now: int): Verdict {
    if t.scope.snapshot !in table then Armed
    else
      var existing := table[t.scope.snapshot];
      if SameCapability(existing, t) && existing.phase == Prepared && existing.scope == t.scope &&
        existing.relay == t.relay then Kept
      else if SameCapability(existing, t) && existing.phase == Prepared &&
        (t.relay.task == "" || existing.scope != t.scope) then Refused
      else if Replaceable(existing, t, now) then Armed
      else Refused
  }

  function Arm(table: Table, t: Transfer, now: int): Table {
    table[t.scope.snapshot := t.(phase := Prepared, updated := now)]
  }

  function Prepare(table: Table, t: Transfer, now: int): Table {
    if PrepareVerdict(table, t, now) == Armed then Arm(table, t, now) else table
  }

  predicate RelayReady(table: Table, t: Transfer, task: string) {
    && t.scope.snapshot in table && SameCapability(table[t.scope.snapshot], t) &&
       table[t.scope.snapshot].phase == Prepared
    && table[t.scope.snapshot].relay.task == task && table[t.scope.snapshot].relay.privateKey != ""
    && table[t.scope.snapshot].relay.publicKey != ""
  }

  /** `keys` is the freshly generated key pair. */
  function PrepareRelay(table: Table, t: Transfer, keys: Relay, now: int): Table {
    if !ValidUuid(keys.task) || RelayReady(table, t, keys.task) then table else Prepare(table, t.(relay := keys), now)
  }

  function SetPhase(table: Table, id: string, phase: Phase, now: int): Table
    requires id in table
  {
    table[id := table[id].(phase := phase, updated := now)]
  }

  predicate RelayKnown(table: Table, id: string, workflow: string, task: string) {
    && id in table && table[id].scope.workflow == workflow && table[id].relay.task == task &&
       table[id].relay.privateKey != ""
  }

  /** Starting a relay download fails a transfer some earlier attempt left consumed. */
  function RelayTransfer(table: Table, id: string, workflow: string, task: string, now: int): Table {
    if RelayKnown(table, id, workflow, task) &&
      table[id].phase == Consumed then SetPhase(table, id, Failed, now) else table
  }

  /** `opens(capability, token)`: the token hashes to the capability. */
  predicate CanConsume(table: Table, id: string, workflow: string, token: string, now: int,
      opens: (string, string) -> bool) {
    && id in table && table[id].scope.workflow == workflow && table[id].phase == Prepared && now < table[id].expires
    && ValidDigest(table[id].capability) && opens(table[id].capability, token)
  }

  function Consume(table: Table, id: string, workflow: string, token: string, now: int,
      opens: (string, string) -> bool): Table {
    if CanConsume(table, id, workflow, token, now, opens) then SetPhase(table, id, Consumed, now) else table
  }

  /** Unguarded, as in the code. */
  function FinishFailed(table: Table, id: string, now: int): Table {
    if id in table then SetPhase(table, id, Failed, now) else table
  }

  predicate Incomplete(table: Table, id: string) {
    id in table && (table[id].phase == Prepared || table[id].phase == Consumed)
  }

  function FailIfIncomplete(table: Table, id: string, now: int): Table {
    if Incomplete(table, id) then SetPhase(table, id, Failed, now) else table
  }

  predicate CanPublish(table: Table, id: string) {
    id in table && table[id].phase == Consumed
  }

  function Publish(table: Table, id: string, receipt: string, now: int): Table {
    if CanPublish(table, id) then table[id := table[id].(phase := Published, receipt := Some(receipt), updated := now)]
      else table
  }

  function Rearm(t: Transfer, now: int): Transfer {
    if t.phase == Consumed then t.(phase := if now < t.expires then Prepared else Failed, updated := now) else t
  }

  /** The table after a restart that accepts what it finds. */
  function Restart(table: Table, now: int): Table {
    map id | id in table :: Rearm(table[id], now)
  }

  // ----- The operations in place -----

  class Agent {
    const node: int
    var transfers: Table

    constructor (node: int)
      ensures this.node == node && transfers == map[]
    {
      this.node, this.transfers := node, map[];
    }

    method PrepareTransfer(t: Transfer, now: int) returns (ok: bool)
      modifies this
      ensures transfers == Prepare(old(transfers), t, now)
      ensures ok <==> PrepareVerdict(old(transfers), t, now) != Refused
    {
      if t.scope.snapshot in transfers {
        var existing := transfers[t.scope.snapshot];
        var sameCapability := existing.scope.workflow == t.scope.workflow && existing.capability == t.capability;
        if sameCapability && existing.phase == Prepared {
          if existing.scope == t.scope && existing.relay == t.relay { return true; }
          if t.relay.task == "" || existing.scope != t.scope { return false; }
        }
        var sameScope := existing.scope == t.scope;
        var exactRetry := sameScope &&
          ((existing.phase == Failed &&
            (!sameCapability || (t.relay.task != "" && existing.relay.task != t.relay.task))) ||
           (existing.phase == Prepared && (!sameCapability || t.relay.task != "")));
        var expiredRestore := sameScope && existing.scope.kind == Restore && t.scope.kind == Restore &&
          existing.phase == Consumed && !(existing.expires > now);
        var preparedRestore := sameScope && existing.scope.kind == Restore && t.scope.kind == Restore &&
          existing.phase == Prepared && !sameCapability;
        var expiredPrepared := sameScope && existing.phase == Prepared && !(existing.expires > now);
        if !exactRetry && !expiredPrepared && !expiredRestore && !preparedRestore { return false; }
      }
      transfers := transfers[t.scope.snapshot := t.(phase := Prepared, updated := now)];
      return true;
    }

    /** The key handed to the sender, if the relay may be used. */
    method PrepareRelayTransfer(t: Transfer, keys: Relay, now: int) returns (publicKey: Option<string>)
      modifies this
      ensures transfers == PrepareRelay(old(transfers), t, keys, now)
      ensures publicKey.Some? ==> t.scope.snapshot in transfers && transfers[t.scope.snapshot].phase == Prepared
      ensures publicKey.Some? ==>
              t.scope.snapshot in transfers && transfers[t.scope.snapshot].relay.publicKey == publicKey.value
    {
      if !ValidUuid(keys.task) { return None; }
      if t.scope.snapshot in transfers {
        var existing := transfers[t.scope.snapshot];
        if existing.scope.workflow == t.scope.workflow && existing.capability == t.capability &&
          existing.phase == Prepared &&
           existing.relay.task == keys.task && existing.relay.privateKey != "" && existing.relay.publicKey != "" {
          return Some(existing.relay.publicKey);
        }
      }
      var ok := PrepareTransfer(t.(relay := keys), now);
      if !ok { return None; }
      return Some(keys.publicKey);
    }

    method StartRelay(id: string, workflow: string, task: string, now: int) returns (t: Option<Transfer>)
      modifies this
      ensures transfers == RelayTransfer(old(transfers), id, workflow, task, now)
      ensures t.Some? <==> RelayKnown(old(transfers), id, workflow, task) && old(transfers)[id].phase == Prepared
      ensures t.Some? ==> t.value == old(transfers)[id]
    {
      if id !in transfers || transfers[id].scope.workflow != workflow || transfers[id].relay.task != task ||
        transfers[id].relay.privateKey == "" {
        return None;
      }
      var transfer := transfers[id];
      if transfer.phase == Consumed {
        transfers := transfers[id := transfer.(phase := Failed, updated := now)];
        return None;
      }
      if transfer.phase != Prepared { return None; }
      return Some(transfer);
    }

    method ConsumeTransfer(id: string, workflow: string, token: string, now: int, opens: (string, string) -> bool)
      returns (ok: bool)
      modifies this
      ensures transfers == Consume(old(transfers), id, workflow, token, now, opens)
      ensures ok <==> CanConsume(old(transfers), id, workflow, token, now, opens)
    {
      if id !in transfers { return false; }
      var transfer := transfers[id];
      if transfer.scope.workflow != workflow || transfer.phase != Prepared || !(transfer.expires > now) {
        return false;
      }
      if !ValidDigest(transfer.capability) || !opens(transfer.capability, token) { return false; }
      transfers := transfers[id := transfer.(phase := Consumed, updated := now)];
      return true;
    }

    method FailTransfer(id: string, now: int) returns (ok: bool)
      modifies this
      ensures transfers == FinishFailed(old(transfers), id, now) && (ok <==> id in old(transfers))
    {
      if id !in transfers { return false; }
      transfers := transfers[id := transfers[id].(phase := Failed, updated := now)];
      return true;
    }

    method FailTransferIfIncomplete(id: string, now: int)
      modifies this
      ensures transfers == FailIfIncomplete(old(transfers), id, now)
    {
      if id !in transfers || (transfers[id].phase != Prepared && transfers[id].phase != Consumed) { return; }
      transfers := transfers[id := transfers[id].(phase := Failed, updated := now)];
    }

    method PublishTransfer(id: string, receipt: string, now: int) returns (ok: bool)
      modifies this
      ensures transfers == Publish(old(transfers), id, receipt, now) && (ok <==> CanPublish(old(transfers), id))
    {
      if id !in transfers || transfers[id].phase != Consumed { return false; }
      transfers := transfers[id := transfers[id].(phase := Published, receipt := Some(receipt), updated := now)];
      return true;
    }

    /** Startup: refuses a table with an invalid entry, otherwise re-arms or fails what was consumed. */
    method LoadTransfers(now: int) returns (ok: bool)
      modifies this
      ensures ok <==> ValidTable(old(transfers), node)
      ensures ok ==> transfers == Restart(old(transfers), now)
    {
      var found := transfers;
      var remaining := found.Keys;
      while remaining != {}
        invariant remaining <= found.Keys && transfers.Keys == found.Keys
        invariant forall id :: id in found && id !in remaining ==>
                  found[id].scope.snapshot == id && ValidTransfer(found[id], node) &&
                    transfers[id] == Rearm(found[id], now)
        invariant forall id :: id in remaining ==> transfers[id] == found[id]
        decreases remaining
      {
        ghost var some := Sets.Pick(remaining);
        var id: string :| id in remaining;
        var transfer := transfers[id];
        if id != transfer.scope.snapshot || !ValidTransfer(transfer, node) { return false; }
        if transfer.phase == Consumed {
          transfers := transfers[id := transfer.(phase := if transfer.expires > now then Prepared
            else Failed, updated := now)];
        }
        remaining := remaining - {id};
      }
      return true;
    }
  }
}
