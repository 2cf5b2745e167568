/** Outside of read repair a node accepts a takeover only on top of the very claim it takes over from. */
module OwnershipParents {
  import opened OwnershipClaim
  import opened OwnershipProtocol
  import opened OwnershipInvariant

  ghost predicate StoresParent(s: State, n: int, c: Claim) {
    n in s.stores && c.handle in s.stores[n] && IsParent(s.stores[n][c.handle], c)
  }

  /** The stored claim carries the parent's ID exactly when it is the parent. */
  lemma ParentById(cfg: Config, s: State, n: int, c: Claim)
    requires Inv(cfg, s) && n in s.stores && c in s.made && c.kind == TAKEOVER && c.handle in s.stores[n]
    ensures s.stores[n][c.handle].claimId == c.parentId <==> StoresParent(s, n, c)
  {
    var stored := Holding(n, s.stores[n][c.handle]);
    assert stored in s.held && stored.claim in s.made;
    assert HasMajorityParent(cfg, s.made, s.held, c);
    var p :| p in s.made && IsParent(p, c);
    if stored.claim.claimId == c.parentId { assert stored.claim == p; }
  }

  /** With the parent check, a takeover that is new to a node is accepted if and only if the node stores its parent. */
  lemma AcceptsIff(cfg: Config, s: State, n: int, c: Claim)
    requires Inv(cfg, s) && n in s.stores && c in s.made && c.kind == TAKEOVER && Holding(n, c) !in s.held
    ensures Accepts(cfg, s, n, c, true) <==> StoresParent(s, n, c)
  {
    assert ValidClaim(cfg.hash, c);
    ConsistentClaim(cfg, s, n, c);
    if c.handle in s.stores[n] {
      assert Holding(n, s.stores[n][c.handle]) in s.held;
      ParentById(cfg, s, n, c);
    }
  }

  /** `handlePeerOwnershipObserve`: a takeover is accepted and acknowledged exactly by the nodes
      that store its parent. */
  lemma ObservedIff(cfg: Config, s: State, n: int, c: Claim, t: State)
    requires Inv(cfg, s) && ObserveStep(cfg, s, n, c, t) && c.kind == TAKEOVER && Holding(n, c) !in s.held
    ensures Holding(n, c) in t.held <==> StoresParent(s, n, c)
    ensures Holding(n, c) in t.acks <==> StoresParent(s, n, c)
  {
    AcceptsIff(cfg, s, n, c);
  }

  lemma SwappedIff(cfg: Config, s: State, n: int, t: State)
    requires Inv(cfg, s) && SwapDraftStep(cfg, s, n, t) && Holding(n, s.drafts[n].claim) !in s.held
    ensures Holding(n, s.drafts[n].claim) in t.held <==> StoresParent(s, n, s.drafts[n].claim)
  {
    AcceptsIff(cfg, s, n, s.drafts[n].claim);
  }

  /** The steps by which a node comes to hold a claim. */
  lemma HeldBy(cfg: Config, s: State, step: Step, t: State, n: int, c: Claim)
    requires Next(cfg, s, step, t) && Holding(n, c) in t.held && Holding(n, c) !in s.held
    ensures || (step.Grant? && step.claim == c)
            || (step.Observe? && step.node == n && step.claim == c)
            || (step.SwapDraft? && step.node == n && n in s.drafts && s.drafts[n].claim == c)
            || (step.Conclude? && step.query in s.queries && s.queries[step.query].node == n && step.maximal == c)
  { }

  /** In every run, a node that comes to hold a takeover either stored its parent just before,
      or adopted it as the greatest claim of its own quorum read. */
  lemma OnlyAfterParent(cfg: Config, run: seq<State>, i: nat, step: Step, n: int, c: Claim)
    requires Run(cfg, run) && i + 1 < |run| && Next(cfg, run[i], step, run[i + 1]) && c.kind == TAKEOVER
    requires Holding(n, c) in run[i + 1].held && Holding(n, c) !in run[i].held
    ensures StoresParent(run[i], n, c) ||
            (step.Conclude? && run[i].queries[step.query].node == n && IsUniqueMaximum(step.replies, c))
  {
    RunKeeps(cfg, run, i);
    HeldBy(cfg, run[i], step, run[i + 1], n, c);
    if step.Observe? { ObservedIff(cfg, run[i], n, c, run[i + 1]); }
    if step.SwapDraft? { SwappedIff(cfg, run[i], n, run[i + 1]); }
  }

  /** Every acknowledgement towards a commit comes from a node that held the parent. */
  lemma {:induction false} AcknowledgedAfterParent(cfg: Config, run: seq<State>, k: nat, n: int, c: Claim)
    returns (i: nat)
    requires Run(cfg, run) && k < |run| && Holding(n, c) in run[k].acks && c.kind == TAKEOVER
    ensures i <= k && n in run[i].stores && c.handle in run[i].stores[n]
    ensures StoresParent(run[i], n, c) || run[i].stores[n][c.handle] == c
  {
    assert k > 0;
    if Holding(n, c) in run[k - 1].acks {
      i := AcknowledgedAfterParent(cfg, run, k - 1, n, c);
    } else {
      i := k - 1;
      assert Moves(cfg, run, i);
      var step :| Next(cfg, run[i], step, run[i + 1]);
      RunKeeps(cfg, run, i);
      AcknowledgedBy(cfg, run[i], step, run[i + 1], n, c);
    }
  }

  lemma AckStep(cfg: Config, s: State, step: Step, t: State, n: int, c: Claim)
    requires Next(cfg, s, step, t) && Holding(n, c) in t.acks && Holding(n, c) !in s.acks
    ensures step == Observe(n, c) && n in s.stores && c in s.sent && Accepts(cfg, s, n, c, c.kind == TAKEOVER)
  { }

  lemma AcknowledgedBy(cfg: Config, s: State, step: Step, t: State, n: int, c: Claim)
    requires Inv(cfg, s) && Next(cfg, s, step, t) && c.kind == TAKEOVER
    requires Holding(n, c) in t.acks && Holding(n, c) !in s.acks
    ensures n in s.stores && c.handle in s.stores[n] && (StoresParent(s, n, c) || s.stores[n][c.handle] == c)
  {
    AckStep(cfg, s, step, t, n, c);
    ConsistentClaim(cfg, s, n, c);
    if c.handle in s.stores[n] { ParentById(cfg, s, n, c); }
  }

  // ----- A takeover changes the owner -----

  /** A read asks for a takeover only where another node owns the claim. */
  ghost predicate VerdictsForeign(s: State) {
    forall v :: v in s.verdicts && v.decision == "takeover_required" ==>
      v.query in s.queries && v.claim.owner != s.queries[v.query].node
  }

  ghost predicate FromOther(made: set<Claim>, c: Claim) {
    exists p :: p in made && IsParent(p, c) && p.owner != c.owner
  }

  ghost predicate OwnersChange(made: set<Claim>) {
    forall c :: c in made && c.kind == TAKEOVER ==> FromOther(made, c)
  }

  ghost predicate Foreign(s: State) {
    VerdictsForeign(s) && OwnersChange(s.made)
  }

  lemma ReadsForeign(cfg: Config, s: State, step: Step, t: State)
    requires Next(cfg, s, step, t) && (step.Ask? || step.GiveUp? || step.Restart? || step.Conclude?) && Foreign(s)
    ensures Foreign(t)
  {
    assert t.made == s.made;
  }

  /** A draft is made from the claim its read returned. */
  lemma DraftParent(cfg: Config, s: State, v: Verdict, op: string, c: Claim, t: State) returns (p: Claim)
    requires Inv(cfg, s) && MakeDraftStep(cfg, s, v, op, c, t) && VerdictsForeign(s)
    ensures p in s.made && IsParent(p, c) && p.owner != c.owner
  {
    var n := s.queries[v.query].node;
    p := s.stores[n][s.queries[v.query].handle];
    var stored := Holding(n, p);
    assert stored in s.held && stored.claim in s.made && v.claim in s.made;
    assert p == v.claim;
  }

  lemma MadeMore(made: set<Claim>, c: Claim)
    requires OwnersChange(made) && (c.kind == TAKEOVER ==> FromOther(made, c))
    ensures OwnersChange(made + {c})
  {
    forall d | d in made + {c} && d.kind == TAKEOVER ensures FromOther(made + {c}, d) {
      var p :| p in made && IsParent(p, d) && p.owner != d.owner;
      assert p in made + {c};
    }
  }

  lemma DraftForeign(cfg: Config, s: State, v: Verdict, op: string, c: Claim, t: State)
    requires Inv(cfg, s) && MakeDraftStep(cfg, s, v, op, c, t) && Foreign(s)
    ensures Foreign(t)
  {
    var p := DraftParent(cfg, s, v, op, c, t);
    MadeMore(s.made, c);
  }

  lemma GrantForeign(cfg: Config, s: State, n: int, c: Claim, t: State)
    requires GrantStep(cfg, s, n, c, t) && Foreign(s)
    ensures Foreign(t)
  {
    MadeMore(s.made, c);
  }

  /** The other steps neither make claims nor touch reads. */
  lemma QuietForeign(cfg: Config, s: State, step: Step, t: State)
    requires Next(cfg, s, step, t) && Foreign(s)
    requires step.Observe? || step.Answer? || step.SwapDraft? || step.JournalDraft? || step.Commit? || step.Forget?
    ensures Foreign(t)
  {
    assert t.made == s.made && t.verdicts == s.verdicts && t.queries == s.queries;
  }

  lemma ForeignStep(cfg: Config, s: State, step: Step, t: State)
    requires Inv(cfg, s) && Next(cfg, s, step, t) && Foreign(s)
    ensures Foreign(t)
  {
    if step.Grant? {
      GrantForeign(cfg, s, step.node, step.claim, t);
    } else if step.MakeDraft? {
      DraftForeign(cfg, s, step.verdict, step.operationId, step.claim, t);
    } else if step.Ask? || step.GiveUp? || step.Restart? || step.Conclude? {
      ReadsForeign(cfg, s, step, t);
    } else {
      QuietForeign(cfg, s, step, t);
    }
  }

  lemma {:induction false} ForeignThroughout(cfg: Config, run: seq<State>, i: nat)
    requires Run(cfg, run) && i < |run|
    ensures Foreign(run[i])
  {
    if i > 0 {
      ForeignThroughout(cfg, run, i - 1);
      RunKeeps(cfg, run, i - 1);
      assert Moves(cfg, run, i - 1);
      var step :| Next(cfg, run[i - 1], step, run[i]);
      ForeignStep(cfg, run[i - 1], step, run[i]);
    }
  }

  /** In every run a takeover moves the user to another node than its parent's owner. */
  lemma TakeoverChangesOwner(cfg: Config, run: seq<State>, i: nat, p: Claim, c: Claim)
    requires Run(cfg, run) && i < |run| && c in run[i].made && c.kind == TAKEOVER
    requires p in run[i].made && p.claimId == c.parentId
    ensures IsParent(p, c) && p.owner != c.owner
  {
    ForeignThroughout(cfg, run, i);
    RunKeeps(cfg, run, i);
    var q :| q in run[i].made && IsParent(q, c) && q.owner != c.owner;
    assert q == p;
  }
}
