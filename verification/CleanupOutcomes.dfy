/** What a cleanup command answers and what it takes to be destroyed, said from the fields of the
    request, the identity found in the tree and the control state. */
module CleanupOutcomes {
  import opened Basics
  import opened Formats
  import opened ReplicaCleanup
  import opened CleanupRuns

  /** The tree says of itself that it is the replica the request names, kept by this node. */
  ghost predicate IsReplica(cfg: Config, t: Tree, req: Request) {
    exists complete ::
      t.identity == Some(Identity(1, req.snapshot, req.user, req.handle, req.kind, cfg.node, complete))
  }

  lemma MatchesIff(cfg: Config, t: Tree, req: Request)
    ensures Matches(cfg, t, req) <==> IsReplica(cfg, t, req)
  {
    if Matches(cfg, t, req) {
      assert t.identity ==
             Some(Identity(1, req.snapshot, req.user, req.handle, req.kind, cfg.node, t.identity.value.complete));
    }
  }

  /** Nobody on this node can be writing to the replica: the node is managed and, for a hot standby, no
      lease of the user outlasts `now` and the node does not own the user. */
  ghost predicate Unused(cfg: Config, g: Guards, req: Request, now: int) {
    && g.managed
    && (req.kind == HotStandby ==>
        && (forall i :: 0 <= i < |g.leases| && g.leases[i].handle == req.handle ==> g.leases[i].expires <= now)
        && (req.handle in g.owners ==> g.owners[req.handle] != cfg.node))
  }

  lemma AllowedIff(cfg: Config, g: Guards, req: Request, now: int)
    ensures Allowed(cfg, g, req, now) <==> Unused(cfg, g, req, now)
  {
    if Allowed(cfg, g, req, now) && req.kind == HotStandby {
      forall i | 0 <= i < |g.leases| && g.leases[i].handle == req.handle ensures g.leases[i].expires <= now {
        assert g.leases[i] in g.leases;
      }
    }
  }

  // ----- The answer -----

  /** The tree a command is about: its own tombstone if there is one, else what has the public name. */
  ghost function Found(n: Names, req: Request): Option<Tree> {
    if req.cleanup in n.trash then Some(n.trash[req.cleanup])
    else if req.handle in n.final then Some(n.final[req.handle])
    else None
  }

  ghost predicate NameFreed(n: Names, m: Names, req: Request) {
    if req.cleanup in n.trash then m == Names(n.final, n.trash - {req.cleanup})
    else m == Names(n.final - {req.handle}, n.trash)
  }

  /** A command answers Deleted exactly if the tree it is about is the replica it names, detached before
      or not in use now; that tree, and no other, is then gone. It answers AlreadyAbsent exactly if there
      is no such tree, and Superseded exactly if the public name holds the replica of something else.
      Everything but Deleted leaves all names as they were. */
  lemma OutcomeIff(cfg: Config, n: Names, g: Guards, req: Request, now: int)
    ensures var (m, outcome) := DeleteSpec(cfg, n, g, req, now);
            var found := Found(n, req);
            var detached := req.cleanup in n.trash;
            && (outcome == Deleted <==>
                ValidRequest(cfg, req) && found.Some? && IsReplica(cfg, found.value, req) &&
                  (detached || Unused(cfg, g, req, now)))
            && (outcome == AlreadyAbsent <==> ValidRequest(cfg, req) && found.None?)
            && (outcome == Superseded <==>
                ValidRequest(cfg, req) && found.Some? && !detached && found.value.identity.Some? &&
                  !IsReplica(cfg, found.value, req))
            && if outcome == Deleted then NameFreed(n, m, req) else m == n
  {
    AllowedIff(cfg, g, req, now);
    if Found(n, req).Some? { MatchesIff(cfg, Found(n, req).value, req); }
  }

  /** A command can be repeated: when nothing was published meanwhile, the retry of a deletion finds
      nothing left, or a tree it was not about; it never deletes a tree the first attempt left in place,
      unless that is the replica named by the command, published again before the tombstone was gone. */
  lemma RetryIff(cfg: Config, n: Names, g: Guards, req: Request, now: int, later: int)
    requires DeleteSpec(cfg, n, g, req, now).1 == Deleted
    ensures var m := DeleteSpec(cfg, n, g, req, now).0;
            && (DeleteSpec(cfg, m, g, req, later).1 == AlreadyAbsent <==>
                req.cleanup !in n.trash || req.handle !in n.final)
            && (DeleteSpec(cfg, m, g, req, later).1 == Deleted <==>
                && req.cleanup in n.trash && req.handle in n.final && IsReplica(cfg, n.final[req.handle], req)
                && Unused(cfg, g, req, later))
  {
    var m := DeleteSpec(cfg, n, g, req, now).0;
    OutcomeIff(cfg, n, g, req, now);
    OutcomeIff(cfg, m, g, req, later);
  }

  // ----- Who was destroyed -----

  /** Cleanup takes a file away only from a tree that had named itself the replica of a well-formed
      request, and was renamed away for that request while nobody on the node could be writing to it. */
  lemma DestroyedReplica(r: Trace, k: nat) returns (j: nat, req: Request, original: Tree)
    requires IsRun(r) && k < |r.events| && r.events[k].Remove?
    ensures j < k && r.events[j].Isolate? && req.cleanup == r.events[k].cleanup && ValidRequest(r.cfg, req)
    ensures req.handle in r.states[j].names.final && original == r.states[j].names.final[req.handle]
    ensures IsReplica(r.cfg, original, req) && Unused(r.cfg, r.states[j].guards, req, r.events[j].now)
    ensures req.cleanup in r.states[k].names.trash && PartOf(r.states[k].names.trash[req.cleanup], original)
  {
    j := DestroyedOnlyIfAuthorised(r, k);
    req := r.states[j].stage.req;
    original := r.states[j].names.final[req.handle];
    RequestsValid(r, j);
    MatchesIff(r.cfg, original, req);
    AllowedIff(r.cfg, r.states[j].guards, req, r.events[j].now);
  }

  /** Only well-formed requests are worked on. */
  lemma {:induction false} RequestsValid(r: Trace, k: nat)
    requires IsRun(r) && k <= |r.events|
    ensures forall req :: RequestOf(r.states[k], req) ==> ValidRequest(r.cfg, req)
  {
    if k > 0 {
      RequestsValid(r, k - 1);
      assert Follows(r, k - 1);
      var s, t := r.states[k - 1], r.states[k];
      forall req | RequestOf(t, req) ensures ValidRequest(r.cfg, req) {
        if !r.events[k - 1].Begin? { assert RequestOf(s, req); }
      }
    }
  }

  // ----- When the Agent starts again -----

  /** What is left of a tombstone still tells whose replica it was. */
  ghost predicate Legible(cfg: Config, t: Tree) {
    t.identity.Some? && (cfg.kind == Archive ==> t.identity.value.complete)
  }

  lemma TombstoneValidIff(r: Trace, k: nat, c: string)
    requires IsRun(r) && k <= |r.events| && c in r.states[k].names.trash
    ensures ValidUuid(c)
    ensures ValidTombstone(r.cfg, r.states[k].names.trash[c]) <==> Legible(r.cfg, r.states[k].names.trash[c])
  {
    var j := TombstoneOrigin(r, k, c);
    RequestsValid(r, j);
    assert RequestOf(r.states[j], r.states[j].stage.req);
  }

  /** After any run, startup gets past the tombstones exactly if no crash cut off a removal after the
      identity file and no archive was published with incomplete metadata. */
  lemma StartsIff(r: Trace, k: nat)
    requires IsRun(r) && k <= |r.events|
    ensures AllTombstonesValid(r.cfg, r.states[k].names) <==>
            forall c :: c in r.states[k].names.trash ==> Legible(r.cfg, r.states[k].names.trash[c])
  {
    forall c | c in r.states[k].names.trash
      ensures ValidUuid(c)
      ensures ValidTombstone(r.cfg, r.states[k].names.trash[c]) <==> Legible(r.cfg, r.states[k].names.trash[c])
    {
      TombstoneValidIff(r, k, c);
    }
  }

  // ----- A crash that startup cannot get past -----

  /** A replica is published and renamed away for its cleanup, its identity file is removed, and the
      Agent crashes: the tombstone that is left is refused at startup. */
  lemma StartupRefused(cfg: Config, guards: Guards, req: Request, now: int, files: set<string>) returns (r: Trace)
    requires ValidRequest(cfg, req) && Unused(cfg, guards, req, now)
    ensures IsRun(r) && r.cfg == cfg && Stuck(cfg, r.states[|r.events|])
  {
    var identity := Identity(1, req.snapshot, req.user, req.handle, req.kind, cfg.node, true);
    var whole, rest := Tree(0, Some(identity), files), Tree(0, None, files);
    AllowedIff(cfg, guards, req, now);
    r := Trace(cfg, [], [State(Names(map[], map[]), guards, Idle, true, 0)]);
    r := Extend(r, Publication(req.handle, Some(identity), files));
    r := Extend(r, Begin(req));
    r := Extend(r, Inspect);
    assert r.states[|r.events|] == State(Names(map[req.handle := whole], map[]), guards, Isolating(req), true, 1);
    r := Extend(r, Isolate(now));
    assert r.states[|r.events|].names.trash == map[req.cleanup := whole];
    r := Extend(r, Remove(req.cleanup, Some(rest)));
    r := Extend(r, Crash);
    assert req.cleanup in r.states[|r.events|].names.trash && r.states[|r.events|].names.trash[req.cleanup] == rest;
  }

  /** The Agent is down, and a tombstone keeps it from starting. */
  ghost predicate Stuck(cfg: Config, s: State) {
    !s.up && s.stage == Idle && !AllTombstonesValid(cfg, s.names)
  }

  /** It then never starts by itself. */
  lemma {:induction false} StaysStuck(r: Trace, i: nat, j: nat)
    requires IsRun(r) && i <= j <= |r.events| && Stuck(r.cfg, r.states[i])
    ensures Stuck(r.cfg, r.states[j])
  {
    if i < j {
      StaysStuck(r, i, j - 1);
      assert Follows(r, j - 1);
    }
  }
}
