/** Receive handlers at work: what a receipt in the transfer table stands for. */
module ReceiveRuns {
  import opened Basics
  import opened TransferTable
  import opened TransferRuns
  import TransferHistory
  import SnapshotArchive

  /** What a handler was sent, and the world it was unpacked in. */
  datatype Upload = Upload(world: SnapshotArchive.World, archive: seq<SnapshotArchive.TarEntry>, size: int)

  /** A run with the upload behind each of its events, where there is one. `text` is a receipt's JSON text. */
  datatype Reception = Reception(run: Trace, uploads: seq<Upload>, text: SnapshotArchive.TransferReceipt -> string)

  // ----- A handler's life -----

  /** The event ends handler `h`. */
  ghost predicate Ends(e: Event, h: nat) {
    e.Startup? || ((e.ReceiveFail? || e.ReceivePublish? || e.ReceiveDrop?) && e.handler == h)
  }

  /** Handler `h` consumed its capability at event `c` and has not ended before event `k`. */
  ghost predicate Works(r: Trace, h: nat, c: nat, k: nat)
    requires Shaped(r) && c < k <= |r.events|
  {
    && r.events[c].ReceiveStart? && r.events[c].handler == h && Consumes(r, r.events[c].snapshot, c)
    && forall j :: c < j < k ==> !Ends(r.events[j], h)
  }

  lemma LiveStep(cfg: Config, s: State, e: Event, h: nat)
    requires Enabled(cfg, s, e) && h in LiveAfter(cfg, s, e)
    ensures if e.ReceiveStart? && e.handler == h && h !in s.live
            then ConsumedBy(s.table, e, TableAfter(cfg, s, e), e.snapshot) && LiveAfter(cfg, s, e)[h] == e.snapshot
            else h in s.live && LiveAfter(cfg, s, e)[h] == s.live[h] && !Ends(e, h)
  { }

  /** Every live handler began with a consume of its snapshot and has not ended since. */
  lemma {:induction false} LiveWorks(r: Trace, h: nat, k: nat) returns (c: nat)
    requires IsRun(r) && k <= |r.events| && h in r.states[k].live
    ensures c < k && Works(r, h, c, k) && r.events[c].snapshot == r.states[k].live[h]
  {
    assert k > 0 && Follows(r, k - 1);
    LiveStep(r.cfg, r.states[k - 1], r.events[k - 1], h);
    if h in r.states[k - 1].live {
      c := LiveWorks(r, h, k - 1);
    } else {
      c := k - 1;
    }
  }

  // ----- What a handler does -----

  /** `ReceiveSnapshot`: the handler publishes only an archive that was accepted for the transfer it got
      when it consumed the capability, with the receipt of that archive. */
  ghost predicate PublishesAccepted(x: Reception, c: nat, k: nat)
    requires Shaped(x.run) && |x.uploads| == |x.run.events| && c < k < |x.run.events|
    requires x.run.events[k].ReceivePublish? && x.run.events[c].ReceiveStart?
  {
    x.run.events[c].snapshot in x.run.states[c + 1].table &&
    ReceiptFor(x, k, x.run.states[c + 1].table[x.run.events[c].snapshot].scope, x.run.events[k].receipt)
  }

  /** `receipt` is that of the upload of event `k`, accepted for `scope`. */
  ghost predicate ReceiptFor(x: Reception, k: nat, scope: Scope, receipt: string)
    requires k < |x.uploads|
  {
    var u := x.uploads[k];
    && SnapshotArchive.ArchiveAccepted(u.world, scope, u.archive, u.size)
    && receipt == x.text(SnapshotArchive.ExtractedOf(u.world, scope, u.archive).receipt)
  }

  /** Event `k` publishes for the handler that began at event `c`. */
  ghost predicate PublishesAfter(r: Trace, c: nat, k: nat)
    requires Shaped(r) && c < k < |r.events|
  {
    r.events[k].ReceivePublish? && Works(r, r.events[k].handler, c, k)
  }

  ghost predicate IsReception(x: Reception) {
    && IsRun(x.run) && |x.uploads| == |x.run.events|
    && forall c, k :: 0 <= c < k < |x.run.events| && PublishesAfter(x.run, c, k) ==> PublishesAccepted(x, c, k)
  }

  // ----- What a receipt stands for -----

  lemma ReceiptStep(cfg: Config, s: State, e: Event, id: string)
    requires Enabled(cfg, s, e) && id in Apply(cfg, s, e).table && Apply(cfg, s, e).table[id].receipt.Some?
    ensures var u := Apply(cfg, s, e).table;
            PublishedBy(s, e, u, id) || (id in s.table && s.table[id].receipt == u[id].receipt)
  {
    EntryChanges(cfg, s, e, id);
  }

  lemma PublishedAccepted(x: Reception, k: nat, id: string)
    requires IsReception(x) && k < |x.run.events|
    requires PublishedBy(x.run.states[k], x.run.events[k], x.run.states[k + 1].table, id)
    ensures ReceiptFor(x, k, x.run.states[k + 1].table[id].scope, x.run.events[k].receipt)
  {
    var r, h := x.run, x.run.events[k].handler;
    var c := LiveWorks(r, h, k);
    assert PublishesAfter(r, c, k);
    ScopeFixed(r, id, c + 1, k + 1);
  }

  /** In every run, with restarts and any number of handlers, a receipt in the table is that of an archive
      that was accepted for the scope of its own entry. */
  lemma {:induction false} ReceiptStandsFor(x: Reception, i: nat, id: string) returns (k: nat)
    requires IsReception(x) && i <= |x.run.events| && id in x.run.states[i].table
    requires x.run.states[i].table[id].receipt.Some?
    ensures k < i && x.run.events[k].ReceivePublish? && x.run.states[i].table[id].scope.snapshot == id
    ensures ReceiptFor(x, k, x.run.states[i].table[id].scope, x.run.states[i].table[id].receipt.value)
  {
    var r := x.run;
    var j := TransferHistory.PreparedFrom(r, id, i);
    assert i > 0 && Follows(r, i - 1);
    ReceiptStep(r.cfg, r.states[i - 1], r.events[i - 1], id);
    if PublishedBy(r.states[i - 1], r.events[i - 1], r.states[i].table, id) {
      k := i - 1;
      PublishedAccepted(x, k, id);
    } else {
      k := ReceiptStandsFor(x, i - 1, id);
      ScopeFixed(r, id, i - 1, i);
    }
  }
}
