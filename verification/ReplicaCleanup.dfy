/** Deleting a published replica: it is first renamed away under a private
    name, and only then removed, so that a crash leaves a tombstone to finish. */
module ReplicaCleanup {
  import opened Basics
  import opened Formats
  import Sets

  datatype Kind = Archive | HotStandby

  /** The metadata file inside a tree. `kind` tells an archive's metadata from a hot
      standby's identity file; `complete` stands for the further fields an archive's
      metadata must carry before its tombstone is accepted at startup. */
  datatype Identity = Identity(version: int, snapshot: string, user: int, handle: string, kind: Kind, target: int,
      complete: bool)

  /** A directory tree. `tag` tells apart trees with equal contents. */
  datatype Tree = Tree(tag: nat, identity: Option<Identity>, files: set<string>)

  datatype Request = Request(cleanup: string, snapshot: string, user: int, handle: string, kind: Kind)

  /** The role decides the kind of replica a node keeps. */
  datatype Config = Config(node: int, kind: Kind)

  predicate ValidRequest(cfg: Config, req: Request) {
    cfg.node > 0 && ValidUuid(req.cleanup) && ValidUuid(req.snapshot) && req.user > 0 && ValidHandle(req.handle) &&
      req.kind == cfg.kind
  }

  /** `replicaTreeMatchesCleanup`, for a tree whose identity can be read. */
  predicate IdentityMatches(cfg: Config, i: Identity, req: Request) {
    i.version == 1 && i.snapshot == req.snapshot && i.user == req.user && i.handle == req.handle &&
      i.kind == req.kind && i.target == cfg.node
  }

  predicate Matches(cfg: Config, t: Tree, req: Request) {
    t.identity.Some? && IdentityMatches(cfg, t.identity.value, req)
  }

  /** `validateDetachedReplicaTombstone`. */
  predicate ValidTombstone(cfg: Config, t: Tree) {
    && cfg.node > 0 && t.identity.Some? && t.identity.value.version == 1 && ValidUuid(t.identity.value.snapshot)
    && t.identity.value.user > 0 && ValidHandle(t.identity.value.handle) && t.identity.value.target == cfg.node
    && t.identity.value.kind == cfg.kind && (cfg.kind == Archive ==> t.identity.value.complete)
  }

  datatype Lease = Lease(handle: string, expires: int)

  /** The control state a cleanup must respect. */
  datatype Guards = Guards(managed: bool, leases: seq<Lease>, owners: map<string, int>)

  ghost predicate Leased(g: Guards, handle: string, now: int) {
    exists l :: l in g.leases && l.handle == handle && l.expires > now
  }

  predicate Owned(cfg: Config, g: Guards, handle: string) {
    handle in g.owners && g.owners[handle] == cfg.node
  }

  /** `replicaCleanupMutationAllowedLocked`. */
  ghost predicate Allowed(cfg: Config, g: Guards, req: Request, now: int) {
    g.managed && (req.kind == HotStandby ==> !Leased(g, req.handle, now) && !Owned(cfg, g, req.handle))
  }

  method CheckAllowed(cfg: Config, g: Guards, req: Request, now: int) returns (ok: bool)
    ensures ok <==> Allowed(cfg, g, req, now)
  {
    if !g.managed { return false; }
    if req.kind != HotStandby { return true; }
    for k := 0 to |g.leases|
      invariant forall i :: 0 <= i < k ==> !(g.leases[i].handle == req.handle && g.leases[i].expires > now)
    {
      if g.leases[k].handle == req.handle && g.leases[k].expires > now {
        assert g.leases[k] in g.leases;
        return false;
      }
    }
    return !Owned(cfg, g, req.handle);
  }

  // ----- One command, uninterrupted -----

  datatype Outcome = Deleted | AlreadyAbsent | Superseded | CleanupError

  /** The public names and the private tombstones of one publication root. */
  datatype Names = Names(final: map<string, Tree>, trash: map<string, Tree>)

  ghost function DeleteSpec(cfg: Config, n: Names, g: Guards, req: Request, now: int): (Names, Outcome) {
    if !ValidRequest(cfg, req) then (n, CleanupError)
    else if req.cleanup in n.trash then
      if Matches(cfg, n.trash[req.cleanup], req) then (n.(trash := n.trash - {req.cleanup}), Deleted)
        else (n, CleanupError)
    else if req.handle !in n.final then (n, AlreadyAbsent)
    else if n.final[req.handle].identity.None? then (n, CleanupError)
    else if !Matches(cfg, n.final[req.handle], req) then (n, Superseded)
    else if !Allowed(cfg, g, req, now) then (n, CleanupError)
    else (n.(final := n.final - {req.handle}), Deleted)
  }

  class ReplicaRoot {
    const cfg: Config
    var final: map<string, Tree>
    var trash: map<string, Tree>
    var guards: Guards

    constructor (cfg: Config, guards: Guards)
      ensures this.cfg == cfg && final == map[] && trash == map[] && this.guards == guards
    {
      this.cfg, this.guards, this.final, this.trash := cfg, guards, map[], map[];
    }

    ghost function Contents(): Names
      reads this
    {
      Names(final, trash)
    }

    method DeleteReplica(req: Request, now: int) returns (outcome: Outcome)
      modifies `final, `trash
      ensures (Contents(), outcome) == DeleteSpec(cfg, old(Contents()), guards, req, now)
    {
      if !ValidRequest(cfg, req) { return CleanupError; }
      if req.cleanup in trash {
        if !Matches(cfg, trash[req.cleanup], req) { return CleanupError; }
        trash := trash - {req.cleanup};
        return Deleted;
      }
      if req.handle !in final { return AlreadyAbsent; }
      if final[req.handle].identity.None? { return CleanupError; }
      if !Matches(cfg, final[req.handle], req) { return Superseded; }
      var allowed := CheckAllowed(cfg, guards, req, now);
      if !allowed { return CleanupError; }
      ghost var before := trash;
      trash := trash[req.cleanup := final[req.handle]];
      final := final - {req.handle};
      trash := trash - {req.cleanup};
      assert trash == before;
      return Deleted;
    }

    /** Startup: every tombstone is checked before the first one is removed. */
    method RecoverTombstones() returns (ok: bool)
      modifies `trash
      ensures ok <==> forall c :: c in old(trash) ==> ValidUuid(c) && ValidTombstone(cfg, old(trash)[c])
      ensures trash == if ok then map[] else old(trash)
    {
      var remaining := trash.Keys;
      while remaining != {}
        invariant remaining <= trash.Keys && trash == old(trash)
        invariant forall c :: c in trash && c !in remaining ==> ValidUuid(c) && ValidTombstone(cfg, trash[c])
        decreases remaining
      {
        ghost var some := Sets.Pick(remaining);
        var c: string :| c in remaining;
        if !ValidUuid(c) || !ValidTombstone(cfg, trash[c]) {
          assert c in old(trash);
          return false;
        }
        remaining := remaining - {c};
      }
      while trash != map[]
        invariant trash.Keys <= old(trash).Keys
        decreases trash.Keys
      {
        assert trash.Keys != {};
        ghost var some := Sets.Pick(trash.Keys);
        var c: string :| c in trash.Keys;
        trash := trash - {c};
      }
      return true;
    }
  }
}
