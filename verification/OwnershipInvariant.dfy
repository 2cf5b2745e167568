/** Every step of the ownership protocol keeps the invariant. */
module OwnershipInvariant {
  import opened Basics
  import opened OwnershipClaim
  import opened OwnershipProtocol
  import opened Quorum
  import Sets

  lemma MajorityGrows(cfg: Config, before: set<Holding>, after: set<Holding>, c: Claim)
    requires before <= after && EverMajority(cfg, before, c)
    ensures EverMajority(cfg, after, c)
  {
    Sets.SubsetSize(Holders(cfg, before, c), Holders(cfg, after, c));
  }

  lemma MajoritiesGrow(cfg: Config, before: set<Holding>, after: set<Holding>)
    requires before <= after
    ensures forall c :: EverMajority(cfg, before, c) ==> EverMajority(cfg, after, c)
  {
    forall c | EverMajority(cfg, before, c) ensures EverMajority(cfg, after, c) {
      MajorityGrows(cfg, before, after, c);
    }
  }

  // ----- Accepting a claim -----

  ghost predicate Outranks(s: State, node: int, c: Claim) {
    node in s.stores && (c.handle in s.stores[node] ==> Below(s.stores[node][c.handle], c))
  }

  ghost function Stored(s: State, node: int, c: Claim): State
    requires node in s.stores
  {
    s.(stores := s.stores[node := s.stores[node][c.handle := c]], held := s.held + {Holding(node, c)})
  }

  lemma StoringKeepsOvertaken(s: State, node: int, c: Claim)
    requires AllOvertaken(s.stores, s.held) && Outranks(s, node, c)
    ensures AllOvertaken(Stored(s, node, c).stores, Stored(s, node, c).held)
  {
    var t := Stored(s, node, c);
    forall x | x in t.held ensures Overtaken(t.stores, x) {
      assert x in s.held ==> Overtaken(s.stores, x);
    }
  }

  lemma StoringKeepsRanks(s: State, node: int, c: Claim)
    requires AllOvertaken(s.stores, s.held) && OnePerRank(s.held) && Outranks(s, node, c)
    ensures OnePerRank(s.held + {Holding(node, c)})
  {
    forall x | x in s.held && x.node == node && x.claim.handle == c.handle ensures Below(x.claim, c) {
      assert Overtaken(s.stores, x);
    }
  }

  /** Under one ID there is one claim, so a stored claim with the ID of `c` is `c`. */
  ghost predicate Consistent(s: State, node: int, c: Claim) {
    && node in s.stores
    && (c.handle in s.stores[node] && s.stores[node][c.handle].claimId == c.claimId ==> s.stores[node][c.handle] == c)
  }

  lemma ConsistentClaim(cfg: Config, s: State, node: int, c: Claim)
    requires Inv(cfg, s) && node in cfg.members && c in s.made
    ensures Consistent(s, node, c)
  {
    if c.handle in s.stores[node] {
      var x := Holding(node, s.stores[node][c.handle]);
      assert x in s.held && x.claim in s.made;
    }
  }

  /** Absorbing a claim changes nothing or stores a claim of greater rank. */
  lemma AbsorbCases(cfg: Config, s: State, node: int, c: Claim, requireParent: bool)
    requires Consistent(s, node, c) && StoredHeld(s.stores, s.held)
    ensures var t := Absorb(cfg, s, node, c, requireParent);
            || t == s
            || (Outranks(s, node, c) && t == Stored(s, node, c))
    ensures Accepts(cfg, s, node, c, requireParent) ==>
              var t := Absorb(cfg, s, node, c, requireParent);
              Holding(node, c) in t.held && c.handle in t.stores[node] && t.stores[node][c.handle] == c
  {
    var t := Absorb(cfg, s, node, c, requireParent);
    if c.handle in s.stores[node] && s.stores[node][c.handle] == c {
      assert Holding(node, c) in s.held && s.held + {Holding(node, c)} == s.held;
      assert s.stores[node := s.stores[node]] == s.stores;
      assert t == s;
    } else if !Accepts(cfg, s, node, c, requireParent) {
      assert s.stores[node := s.stores[node]] == s.stores;
      assert t == s;
    } else {
      assert t == Stored(s, node, c);
    }
  }

  lemma LineageGrows(cfg: Config, made: set<Claim>, held: set<Holding>, made': set<Claim>, held': set<Holding>)
    requires Lineage(cfg, made, held) && made <= made' && held <= held'
    ensures forall c :: c in made && c.kind == TAKEOVER ==> HasMajorityParent(cfg, made', held', c)
  {
    MajoritiesGrow(cfg, held, held');
    forall c | c in made && c.kind == TAKEOVER ensures HasMajorityParent(cfg, made', held', c) {
      var p :| p in made && IsParent(p, c) && EverMajority(cfg, held, p);
      assert p in made' && EverMajority(cfg, held', p);
    }
  }

  /** What is said of the acceptances so far stays true when there are more. */
  lemma PromisesGrow(cfg: Config, s: State, held: set<Holding>)
    requires s.held <= held && DraftsKept(s.drafts, s.made, s.held) && JournalsHeld(s.journals, s.held)
    requires QueriesKept(cfg, s.queries, s.held) && RepliesHeld(cfg, s.queries, s.replies, s.held)
    ensures DraftsKept(s.drafts, s.made, held) && JournalsHeld(s.journals, held)
    ensures QueriesKept(cfg, s.queries, held) && RepliesHeld(cfg, s.queries, s.replies, held)
  { }

  lemma MajorityPromisesGrow(cfg: Config, s: State, held: set<Holding>)
    requires s.held <= held && VerdictsMajority(cfg, s.queries, s.verdicts, s.made, s.held)
    requires CommittedMajority(cfg, s.committed, s.made, s.held) && Lineage(cfg, s.made, s.held)
    ensures VerdictsMajority(cfg, s.queries, s.verdicts, s.made, held)
    ensures CommittedMajority(cfg, s.committed, s.made, held) && Lineage(cfg, s.made, held)
  {
    MajoritiesGrow(cfg, s.held, held);
    LineageGrows(cfg, s.made, s.held, s.made, held);
  }

  lemma StoringKeepsHeld(cfg: Config, s: State, node: int, c: Claim)
    requires Shape(cfg, s.stores, s.journals) && HeldMade(cfg, s.held, s.made) && StoredHeld(s.stores, s.held)
    requires node in cfg.members && c in s.made
    ensures var t := Stored(s, node, c);
            Shape(cfg, t.stores, t.journals) && HeldMade(cfg, t.held, t.made) && StoredHeld(t.stores, t.held)
  { }

  lemma StoringKeeps(cfg: Config, s: State, node: int, c: Claim)
    requires Inv(cfg, s) && node in cfg.members && c in s.made && Outranks(s, node, c)
    ensures Inv(cfg, Stored(s, node, c))
  {
    var t := Stored(s, node, c);
    StoringKeepsHeld(cfg, s, node, c);
    StoringKeepsOvertaken(s, node, c);
    StoringKeepsRanks(s, node, c);
    PromisesGrow(cfg, s, t.held);
    MajorityPromisesGrow(cfg, s, t.held);
  }

  lemma AbsorbingKeeps(cfg: Config, s: State, node: int, c: Claim, requireParent: bool)
    requires Inv(cfg, s) && node in cfg.members && c in s.made
    ensures Inv(cfg, Absorb(cfg, s, node, c, requireParent))
    ensures s.held <= Absorb(cfg, s, node, c, requireParent).held
    ensures Accepts(cfg, s, node, c, requireParent) ==>
              var t := Absorb(cfg, s, node, c, requireParent);
              Holding(node, c) in t.held && c.handle in t.stores[node] && t.stores[node][c.handle] == c
  {
    ConsistentClaim(cfg, s, node, c);
    AbsorbCases(cfg, s, node, c, requireParent);
    if Absorb(cfg, s, node, c, requireParent) != s {
      StoringKeeps(cfg, s, node, c);
    }
  }

  lemma MakingKeeps(cfg: Config, s: State, c: Claim)
    requires Inv(cfg, s) && ValidClaim(cfg.hash, c) && NoCollision(s.made + {c})
    requires c.kind == TAKEOVER ==> HasMajorityParent(cfg, s.made, s.held, c)
    ensures Inv(cfg, s.(made := s.made + {c}))
  {
    var made' := s.made + {c};
    LineageGrows(cfg, s.made, s.held, made', s.held);
    assert c.kind == TAKEOVER ==> HasMajorityParent(cfg, made', s.held, c);
  }

  // ----- Steps -----

  lemma MadeClaim(hash: string -> string, handle: string, owner: int, generation: int, epoch: int, sequence: int,
                  kind: string, parentId: string, operationId: string, c: Claim)
    requires MakeClaim(hash, handle, owner, generation, epoch, sequence, kind, parentId, operationId) == Some(c)
    ensures ValidClaim(hash, c)
    ensures c == Claim(c.claimId, handle, owner, generation, epoch, sequence, kind, parentId, operationId)
    ensures GRANT != TAKEOVER
  {
    assert |GRANT| != |TAKEOVER|;
  }

  lemma SendingKeeps(cfg: Config, s: State, c: Claim)
    requires Inv(cfg, s) && c in s.made
    ensures Inv(cfg, s.(sent := s.sent + {c}))
  { }

  lemma GrantKeeps(cfg: Config, s: State, t: State, n: int, c: Claim)
    requires Inv(cfg, s) && GrantStep(cfg, s, n, c, t)
    ensures Inv(cfg, t)
  {
    MadeClaim(cfg.hash, c.handle, n, c.generation, c.epoch, 0, GRANT, "", "", c);
    MakingKeeps(cfg, s, c);
    var u := s.(made := s.made + {c});
    SendingKeeps(cfg, u, c);
    var v := u.(sent := u.sent + {c});
    AbsorbingKeeps(cfg, v, n, c, false);
    assert t == Absorb(cfg, v, n, c, false);
  }

  lemma ObserveKeeps(cfg: Config, s: State, t: State, n: int, c: Claim)
    requires Inv(cfg, s) && ObserveStep(cfg, s, n, c, t)
    ensures Inv(cfg, t)
  {
    AbsorbingKeeps(cfg, s, n, c, c.kind == TAKEOVER);
    var u := Absorb(cfg, s, n, c, c.kind == TAKEOVER);
    assert t == u.(acks := t.acks) && t.acks <= u.held;
  }

  lemma QueriesAdd(cfg: Config, queries: map<nat, Query>, held: set<Holding>, q: nat, query: Query)
    requires QueriesKept(cfg, queries, held) && query.node in cfg.members && query.heldBefore <= held
    ensures QueriesKept(cfg, queries[q := query], held)
  { }

  /** A read nobody has answered changes nothing for the replies and verdicts of the others. */
  lemma RepliesAskMore(cfg: Config, queries: map<nat, Query>, replies: set<Reply>, held: set<Holding>, q: nat,
      query: Query)
    requires RepliesHeld(cfg, queries, replies, held) && RepliesFresh(queries, replies) && q !in queries
    ensures RepliesHeld(cfg, queries[q := query], replies, held) && RepliesFresh(queries[q := query], replies)
  { }

  lemma VerdictsAskMore(cfg: Config, queries: map<nat, Query>, verdicts: set<Verdict>, made: set<Claim>,
      held: set<Holding>, q: nat, query: Query)
    requires VerdictsMajority(cfg, queries, verdicts, made, held) && VerdictsFresh(cfg, queries, verdicts) &&
             q !in queries
    ensures VerdictsMajority(cfg, queries[q := query], verdicts, made, held) &&
            VerdictsFresh(cfg, queries[q := query], verdicts)
  { }

  lemma AskKeeps(cfg: Config, s: State, t: State, n: int, q: nat, h: string)
    requires Inv(cfg, s) && AskStep(cfg, s, n, q, h, t)
    ensures Inv(cfg, t)
  {
    var query := Query(n, h, true, s.held);
    QueriesAdd(cfg, s.queries, s.held, q, query);
    RepliesAskMore(cfg, s.queries, s.replies, s.held, q, query);
    VerdictsAskMore(cfg, s.queries, s.verdicts, s.made, s.held, q, query);
  }

  lemma AnswerKeeps(cfg: Config, s: State, t: State, q: nat, m: int)
    requires Inv(cfg, s) && AnswerStep(cfg, s, q, m, t)
    ensures Inv(cfg, t)
  {
    var h := s.queries[q].handle;
    forall x | x in s.queries[q].heldBefore && x.node == m && x.claim.handle == h
      ensures h in s.stores[m] && AtLeast(s.stores[m][h], x.claim)
    {
      assert x in s.held && Overtaken(s.stores, x);
    }
  }

  /** A reply with the ID of a claim that was made is that claim, held by its sender. */
  lemma ReplyMatches(cfg: Config, s: State, q: nat, n: int, reply: Claim, m: Claim)
    requires NoCollision(s.made) && HeldMade(cfg, s.held, s.made) && RepliesHeld(cfg, s.queries, s.replies, s.held)
    requires q in s.queries && Reply(q, n, Some(reply)) in s.replies && m in s.made && reply.claimId == m.claimId
    ensures reply == m && Holding(n, m) in s.held && n in cfg.members
  {
    var r := Reply(q, n, Some(reply));
    assert r in s.replies;
    var x := Holding(n, reply);
    assert x in s.held && x.claim in s.made;
  }

  /** The nodes counted by a successful read all held the claim it returns. */
  lemma MatchingHeld(cfg: Config, s: State, held: set<Holding>, q: nat, replies: map<int, Claim>, m: Claim)
    requires NoCollision(s.made) && HeldMade(cfg, s.held, s.made) && RepliesHeld(cfg, s.queries, s.replies, s.held)
    requires q in s.queries && Gathered(s, q, replies) && m in s.made
    requires s.held <= held && s.queries[q].node in cfg.members && Holding(s.queries[q].node, m) in held
    ensures Matching(s.queries[q].node, replies, m.claimId) <= Holders(cfg, held, m)
  {
    forall n | n in Matching(s.queries[q].node, replies, m.claimId) ensures n in Holders(cfg, held, m) {
      if n in replies && replies[n].claimId == m.claimId { ReplyMatches(cfg, s, q, n, replies[n], m); }
    }
  }

  lemma QuorumIsMajority(cfg: Config, part: set<int>, n: int)
    requires part <= cfg.members && n in cfg.members && |part| >= QuorumSize(cfg)
    ensures IsMajority(part, cfg.members)
  {
    Sets.SubsetSize({n}, cfg.members);
  }

  /** So a successful read returns a claim that a majority held. */
  lemma VerdictMajority(cfg: Config, s: State, held: set<Holding>, q: nat, replies: map<int, Claim>, m: Claim)
    requires NoCollision(s.made) && HeldMade(cfg, s.held, s.made) && RepliesHeld(cfg, s.queries, s.replies, s.held)
    requires q in s.queries && Gathered(s, q, replies) && m in s.made
    requires s.held <= held && s.queries[q].node in cfg.members && Holding(s.queries[q].node, m) in held
    requires |Matching(s.queries[q].node, replies, m.claimId)| >= QuorumSize(cfg)
    ensures IsMajority(Matching(s.queries[q].node, replies, m.claimId), cfg.members)
    ensures EverMajority(cfg, held, m)
  {
    var matching, holders := Matching(s.queries[q].node, replies, m.claimId), Holders(cfg, held, m);
    MatchingHeld(cfg, s, held, q, replies, m);
    QuorumIsMajority(cfg, matching, s.queries[q].node);
    Sets.SubsetSize(matching, holders);
  }

  /** No claim that a majority held when the read began outranks its result. */
  lemma VerdictFresh(cfg: Config, s: State, q: nat, replies: map<int, Claim>, m: Claim, c: Claim)
    requires NoCollision(s.made) && HeldMade(cfg, s.held, s.made) && AllOvertaken(s.stores, s.held)
    requires QueriesKept(cfg, s.queries, s.held)
    requires RepliesHeld(cfg, s.queries, s.replies, s.held) && RepliesFresh(s.queries, s.replies)
    requires q in s.queries && Gathered(s, q, replies) && m.handle == s.queries[q].handle
    requires IsMajority(Matching(s.queries[q].node, replies, m.claimId), cfg.members)
    requires m in s.made
    requires var n := s.queries[q].node; n in s.stores && m.handle in s.stores[n] && s.stores[n][m.handle] == m
    requires EverMajority(cfg, s.queries[q].heldBefore, c) && c.handle == m.handle
    ensures AtLeast(m, c)
  {
    var self := s.queries[q].node;
    var matching := Matching(self, replies, m.claimId);
    var before := Holders(cfg, s.queries[q].heldBefore, c);
    MajoritiesMeet(matching, before, cfg.members);
    var n :| n in matching && n in before;
    var x := Holding(n, c);
    assert x in s.queries[q].heldBefore && x in s.held;
    if n in replies && replies[n].claimId == m.claimId {
      ReplyMatches(cfg, s, q, n, replies[n], m);
      assert Reply(q, n, Some(replies[n])) in s.replies;
    } else {
      assert n == self && Overtaken(s.stores, x);
    }
  }

  lemma RepliesClose(cfg: Config, queries: map<nat, Query>, replies: set<Reply>, held: set<Holding>, q: nat)
    requires RepliesHeld(cfg, queries, replies, held) && RepliesFresh(queries, replies) &&
             QueriesKept(cfg, queries, held) && q in queries
    ensures var closed := queries[q := queries[q].(open := false)];
            RepliesHeld(cfg, closed, replies, held) && RepliesFresh(closed, replies) && QueriesKept(cfg, closed, held)
  { }

  lemma VerdictsClose(cfg: Config, queries: map<nat, Query>, verdicts: set<Verdict>, made: set<Claim>,
      held: set<Holding>, q: nat)
    requires VerdictsMajority(cfg, queries, verdicts, made, held) && VerdictsFresh(cfg, queries, verdicts) &&
             q in queries
    ensures var closed := queries[q := queries[q].(open := false)];
            VerdictsMajority(cfg, closed, verdicts, made, held) && VerdictsFresh(cfg, closed, verdicts)
  { }

  lemma ClosingKeeps(cfg: Config, s: State, q: nat)
    requires Inv(cfg, s) && q in s.queries
    ensures Inv(cfg, s.(queries := s.queries[q := s.queries[q].(open := false)]))
  {
    RepliesClose(cfg, s.queries, s.replies, s.held, q);
    VerdictsClose(cfg, s.queries, s.verdicts, s.made, s.held, q);
  }

  lemma RulingKeeps(cfg: Config, s: State, v: Verdict)
    requires Inv(cfg, s)
    requires v.query in s.queries && v.claim in s.made && v.claim.handle == s.queries[v.query].handle &&
             EverMajority(cfg, s.held, v.claim)
    requires FreshFor(cfg, s.queries[v.query].handle, s.queries[v.query].heldBefore, v.claim)
    ensures Inv(cfg, s.(verdicts := s.verdicts + {v}))
  { }

  lemma GatheredMade(cfg: Config, s: State, q: nat, replies: map<int, Claim>, m: Claim)
    requires Inv(cfg, s) && q in s.queries && Gathered(s, q, replies) && IsUniqueMaximum(replies, m)
    ensures m in s.made && m.handle == s.queries[q].handle
  {
    var k :| k in replies && replies[k] == m;
    var r := Reply(q, k, Some(replies[k]));
    assert r in s.replies;
    var y := Holding(k, m);
    assert y in s.held && y.claim in s.made;
  }

  /** A read that adopted `m` and counted a quorum may return it. */
  lemma AdoptedRules(cfg: Config, s: State, u: State, q: nat, replies: map<int, Claim>, m: Claim)
    requires Inv(cfg, s) && q in s.queries && Gathered(s, q, replies) && IsUniqueMaximum(replies, m)
    requires Inv(cfg, u) && s.held <= u.held && u.queries == s.queries && u.replies == s.replies && u.made == s.made
    requires var n := s.queries[q].node;
             Holding(n, m) in u.held && n in u.stores && m.handle in u.stores[n] && u.stores[n][m.handle] == m
    requires |Matching(s.queries[q].node, replies, m.claimId)| >= QuorumSize(cfg)
    ensures EverMajority(cfg, u.held, m) && m in u.made && m.handle == u.queries[q].handle
    ensures FreshFor(cfg, u.queries[q].handle, u.queries[q].heldBefore, m)
  {
    GatheredMade(cfg, s, q, replies, m);
    VerdictMajority(cfg, s, u.held, q, replies, m);
    forall c: Claim | c.handle == m.handle && EverMajority(cfg, u.queries[q].heldBefore, c) ensures AtLeast(m, c) {
      VerdictFresh(cfg, u, q, replies, m, c);
    }
  }

  lemma ConcludeKeeps(cfg: Config, s: State, t: State, q: nat, replies: map<int, Claim>, available: map<int, bool>,
      m: Claim)
    requires Inv(cfg, s) && ConcludeStep(cfg, s, q, replies, available, m, t)
    ensures Inv(cfg, t)
  {
    var n := s.queries[q].node;
    GatheredMade(cfg, s, q, replies, m);
    AbsorbingKeeps(cfg, s, n, m, false);
    var u := Absorb(cfg, s, n, m, false);
    if Accepts(cfg, s, n, m, false) && |Matching(n, replies, m.claimId)| >= QuorumSize(cfg) {
      AdoptedRules(cfg, s, u, q, replies, m);
      var v := Verdict(q, m, Decision(n, m, available));
      RulingKeeps(cfg, u, v);
      ClosingKeeps(cfg, u.(verdicts := u.verdicts + {v}), q);
    } else {
      ClosingKeeps(cfg, u, q);
    }
  }

  lemma DraftsSet(drafts: map<int, Draft>, made: set<Claim>, held: set<Holding>, n: int, d: Draft)
    requires DraftsKept(drafts, made, held) && d.claim in made && d.claim.kind == TAKEOVER &&
             (d.swapped ==> Holding(n, d.claim) in held)
    ensures DraftsKept(drafts[n := d], made, held)
  { }

  lemma DraftingKeeps(cfg: Config, s: State, n: int, d: Draft)
    requires Inv(cfg, s) && d.claim in s.made && d.claim.kind == TAKEOVER &&
             (d.swapped ==> Holding(n, d.claim) in s.held)
    ensures Inv(cfg, s.(drafts := s.drafts[n := d]))
  {
    DraftsSet(s.drafts, s.made, s.held, n, d);
  }

  lemma DroppingDraftKeeps(cfg: Config, s: State, n: int)
    requires Inv(cfg, s)
    ensures Inv(cfg, s.(drafts := s.drafts - {n}))
  { }

  /** A takeover is drafted only from a claim that a majority held. */
  lemma DraftHasParent(cfg: Config, s: State, t: State, v: Verdict, op: string, c: Claim)
    requires NoCollision(s.made) && HeldMade(cfg, s.held, s.made) && StoredHeld(s.stores, s.held)
    requires VerdictsMajority(cfg, s.queries, s.verdicts, s.made, s.held)
    requires MakeDraftStep(cfg, s, v, op, c, t)
    ensures ValidClaim(cfg.hash, c) && c.kind == TAKEOVER && HasMajorityParent(cfg, s.made, s.held, c)
  {
    var n, h := s.queries[v.query].node, s.queries[v.query].handle;
    var p := s.stores[n][h];
    var x := Holding(n, p);
    assert x in s.held && x.claim in s.made;
    assert p == v.claim;
    MadeClaim(cfg.hash, p.handle, n, p.generation, p.epoch, p.sequence + 1, TAKEOVER, p.claimId, op, c);
    assert IsParent(p, c);
  }

  lemma MakeDraftKeeps(cfg: Config, s: State, t: State, v: Verdict, op: string, c: Claim)
    requires Inv(cfg, s) && MakeDraftStep(cfg, s, v, op, c, t)
    ensures Inv(cfg, t)
  {
    DraftHasParent(cfg, s, t, v, op, c);
    MakingKeeps(cfg, s, c);
    DraftingKeeps(cfg, s.(made := s.made + {c}), s.queries[v.query].node, Draft(c, false));
  }

  lemma SwapDraftKeeps(cfg: Config, s: State, t: State, n: int)
    requires Inv(cfg, s) && SwapDraftStep(cfg, s, n, t)
    ensures Inv(cfg, t)
  {
    var c := s.drafts[n].claim;
    AbsorbingKeeps(cfg, s, n, c, true);
    var u := Absorb(cfg, s, n, c, true);
    if Accepts(cfg, s, n, c, true) {
      DraftingKeeps(cfg, u, n, Draft(c, true));
    } else {
      DroppingDraftKeeps(cfg, u, n);
    }
  }

  lemma JournalsSet(journals: map<int, map<string, Operation>>, held: set<Holding>, n: int, op: string, o: Operation)
    requires JournalsHeld(journals, held) && n in journals && Holding(n, o.claim) in held && o.claim.kind == TAKEOVER
    ensures JournalsHeld(journals[n := journals[n][op := o]], held)
  { }

  lemma JournalingKeeps(cfg: Config, s: State, n: int, op: string, o: Operation)
    requires Inv(cfg, s) && n in s.journals && Holding(n, o.claim) in s.held && o.claim.kind == TAKEOVER
    ensures Inv(cfg, s.(journals := s.journals[n := s.journals[n][op := o]]))
  {
    JournalsSet(s.journals, s.held, n, op, o);
  }

  lemma JournalDraftKeeps(cfg: Config, s: State, t: State, n: int)
    requires Inv(cfg, s) && JournalDraftStep(cfg, s, n, t)
    ensures Inv(cfg, t)
  {
    var c := s.drafts[n].claim;
    DroppingDraftKeeps(cfg, s, n);
    var u := s.(drafts := s.drafts - {n});
    if |s.journals[n]| < MAX_TAKEOVERS {
      JournalingKeeps(cfg, u, n, c.operationId, Operation(c, false));
      var v := u.(journals := u.journals[n := u.journals[n][c.operationId := Operation(c, false)]]);
      SendingKeeps(cfg, v, c);
    }
  }

  lemma CommittingKeeps(cfg: Config, s: State, c: Claim)
    requires Inv(cfg, s) && c in s.made && c.kind == TAKEOVER && EverMajority(cfg, s.held, c)
    ensures Inv(cfg, s.(committed := s.committed + {c}))
  { }

  /** The nodes counted by a committing broadcast all accepted the claim. */
  lemma AcknowledgedMajority(cfg: Config, s: State, n: int, c: Claim, acknowledged: set<int>)
    requires s.acks <= s.held && n in cfg.members && acknowledged <= cfg.members && Holding(n, c) in s.held
    requires forall m :: m in acknowledged ==> Holding(m, c) in s.acks
    requires |{n} + acknowledged| >= QuorumSize(cfg)
    ensures EverMajority(cfg, s.held, c)
  {
    assert {n} + acknowledged <= Holders(cfg, s.held, c);
    Sets.SubsetSize({n} + acknowledged, Holders(cfg, s.held, c));
    Sets.SubsetSize({n}, cfg.members);
  }

  lemma CommitKeeps(cfg: Config, s: State, t: State, n: int, op: string, acknowledged: set<int>)
    requires Inv(cfg, s) && CommitStep(cfg, s, n, op, acknowledged, t)
    ensures Inv(cfg, t)
  {
    var c := s.journals[n][op].claim;
    var x := Holding(n, c);
    assert x in s.held && x.claim in s.made;
    AcknowledgedMajority(cfg, s, n, c, acknowledged);
    CommittingKeeps(cfg, s, c);
    JournalingKeeps(cfg, s.(committed := s.committed + {c}), n, op, Operation(c, true));
  }

  lemma JournalsShrink(journals: map<int, map<string, Operation>>, held: set<Holding>, n: int, op: string)
    requires JournalsHeld(journals, held) && n in journals
    ensures JournalsHeld(journals[n := journals[n] - {op}], held)
  { }

  lemma ForgetKeeps(cfg: Config, s: State, t: State, n: int, op: string)
    requires Inv(cfg, s) && ForgetStep(cfg, s, n, op, t)
    ensures Inv(cfg, t)
  {
    JournalsShrink(s.journals, s.held, n, op);
  }

  lemma RestartKeeps(cfg: Config, s: State, t: State, n: int)
    requires Inv(cfg, s) && RestartStep(cfg, s, n, t)
    ensures Inv(cfg, t)
  {
  }

  ghost predicate IsQueryStep(step: Step) {
    step.Ask? || step.Answer? || step.Conclude? || step.GiveUp?
  }

  lemma QueryStepKeeps(cfg: Config, s: State, step: Step, t: State)
    requires IsQueryStep(step) && Inv(cfg, s) && Next(cfg, s, step, t)
    ensures Inv(cfg, t)
  {
    if
    case step.Ask? => AskKeeps(cfg, s, t, step.node, step.query, step.handle);
    case step.Answer? => AnswerKeeps(cfg, s, t, step.query, step.from);
    case step.Conclude? => ConcludeKeeps(cfg, s, t, step.query, step.replies, step.available, step.maximal);
    case step.GiveUp? => ClosingKeeps(cfg, s, step.query);
  }

  ghost predicate IsTakeoverStep(step: Step) {
    step.MakeDraft? || step.SwapDraft? || step.JournalDraft? || step.Commit? || step.Forget? || step.Restart?
  }

  lemma TakeoverStepKeeps(cfg: Config, s: State, step: Step, t: State)
    requires IsTakeoverStep(step) && Inv(cfg, s) && Next(cfg, s, step, t)
    ensures Inv(cfg, t)
  {
    if
    case step.MakeDraft? => MakeDraftKeeps(cfg, s, t, step.verdict, step.operationId, step.claim);
    case step.SwapDraft? => SwapDraftKeeps(cfg, s, t, step.node);
    case step.JournalDraft? => JournalDraftKeeps(cfg, s, t, step.node);
    case step.Commit? => CommitKeeps(cfg, s, t, step.node, step.operationId, step.acknowledged);
    case step.Forget? => ForgetKeeps(cfg, s, t, step.node, step.operationId);
    case step.Restart? => RestartKeeps(cfg, s, t, step.node);
  }

  lemma StepKeeps(cfg: Config, s: State, step: Step, t: State)
    requires Inv(cfg, s) && Next(cfg, s, step, t)
    ensures Inv(cfg, t)
  {
    if
    case step.Grant? => GrantKeeps(cfg, s, t, step.node, step.claim);
    case step.Observe? => ObserveKeeps(cfg, s, t, step.node, step.claim);
    case IsQueryStep(step) => QueryStepKeeps(cfg, s, step, t);
    case IsTakeoverStep(step) => TakeoverStepKeeps(cfg, s, step, t);
  }

  /** The invariant holds in every state of every run. */
  lemma {:induction false} RunKeeps(cfg: Config, run: seq<State>, i: nat)
    requires Run(cfg, run) && i < |run|
    ensures Inv(cfg, run[i])
  {
    if i > 0 {
      RunKeeps(cfg, run, i - 1);
      assert Moves(cfg, run, i - 1);
      var step :| Next(cfg, run[i - 1], step, run[i]);
      StepKeeps(cfg, run[i - 1], step, run[i]);
    }
  }
}
