/** What the ownership protocol guarantees over whole runs. */
module OwnershipTheorems {
  import opened OwnershipClaim
  import opened OwnershipProtocol
  import opened OwnershipInvariant
  import opened Quorum
  import Sets

  // ----- History only grows -----

  ghost predicate Grows(s: State, t: State) {
    && s.held <= t.held && s.made <= t.made && s.committed <= t.committed
    && (forall q :: q in s.queries ==>
       q in t.queries && t.queries[q].heldBefore == s.queries[q].heldBefore &&
         t.queries[q].handle == s.queries[q].handle)
    && (forall q :: q in t.queries && q !in s.queries ==> t.queries[q].heldBefore >= s.held)
  }

  /** Steps that neither start nor end a read. */
  lemma ClaimStepGrows(cfg: Config, s: State, step: Step, t: State)
    requires Next(cfg, s, step, t) && (step.Grant? || step.Observe? || step.SwapDraft? || step.MakeDraft?)
    ensures Grows(s, t)
  {
    assert t.queries == s.queries;
  }

  lemma JournalStepGrows(cfg: Config, s: State, step: Step, t: State)
    requires Next(cfg, s, step, t) && (step.JournalDraft? || step.Commit? || step.Forget?)
    ensures Grows(s, t)
  {
    assert t.queries == s.queries && t.held == s.held && t.made == s.made;
  }

  lemma ReadStepGrows(cfg: Config, s: State, step: Step, t: State)
    requires Next(cfg, s, step, t) && (step.Ask? || step.Answer? || step.GiveUp? || step.Restart?)
    ensures Grows(s, t)
  {
    assert t.held == s.held && t.made == s.made && t.committed == s.committed;
  }

  lemma ConcludeGrows(cfg: Config, s: State, step: Step, t: State)
    requires Next(cfg, s, step, t) && step.Conclude?
    ensures Grows(s, t)
  {
    assert t.queries == s.queries[step.query := s.queries[step.query].(open := false)];
  }

  lemma StepGrows(cfg: Config, s: State, step: Step, t: State)
    requires Next(cfg, s, step, t)
    ensures Grows(s, t)
  {
    match step
    case Grant(_, _) => ClaimStepGrows(cfg, s, step, t);
    case Observe(_, _) => ClaimStepGrows(cfg, s, step, t);
    case SwapDraft(_) => ClaimStepGrows(cfg, s, step, t);
    case MakeDraft(_, _, _) => ClaimStepGrows(cfg, s, step, t);
    case JournalDraft(_) => JournalStepGrows(cfg, s, step, t);
    case Commit(_, _, _) => JournalStepGrows(cfg, s, step, t);
    case Forget(_, _) => JournalStepGrows(cfg, s, step, t);
    case Conclude(_, _, _, _) => ConcludeGrows(cfg, s, step, t);
    case _ => ReadStepGrows(cfg, s, step, t);
  }

  lemma NextGrows(cfg: Config, s: State, t: State)
    requires NextState(cfg, s, t)
    ensures Grows(s, t)
  {
    var step :| Next(cfg, s, step, t);
    StepGrows(cfg, s, step, t);
  }

  lemma GrowsTransitive(s: State, t: State, u: State)
    requires Grows(s, t) && Grows(t, u)
    ensures Grows(s, u)
  { }

  lemma {:induction false} RunGrows(cfg: Config, run: seq<State>, i: nat, j: nat)
    requires Run(cfg, run) && i <= j < |run|
    ensures Grows(run[i], run[j])
    decreases j - i
  {
    if i < j {
      RunGrows(cfg, run, i, j - 1);
      assert Moves(cfg, run, j - 1);
      NextGrows(cfg, run[j - 1], run[j]);
      GrowsTransitive(run[i], run[j - 1], run[j]);
    }
  }

  // ----- Agreement -----

  /** Two claims of one handle and rank, each held by a majority, are one claim. */
  lemma MajorityUnique(cfg: Config, s: State, c: Claim, d: Claim)
    requires Inv(cfg, s) && EverMajority(cfg, s.held, c) && EverMajority(cfg, s.held, d)
    requires c.handle == d.handle && SameRank(c, d)
    ensures c == d
  {
    MajoritiesMeet(Holders(cfg, s.held, c), Holders(cfg, s.held, d), cfg.members);
    var n :| n in Holders(cfg, s.held, c) && n in Holders(cfg, s.held, d);
    assert Holding(n, c) in s.held && Holding(n, d) in s.held;
  }

  /** Over a whole run, at most one claim per handle and rank is ever held by a
      majority, whenever its holders accepted it. */
  lemma Agreement(cfg: Config, run: seq<State>, i: nat, j: nat, c: Claim, d: Claim)
    requires Run(cfg, run) && i < |run| && j < |run|
    requires EverMajority(cfg, run[i].held, c) && EverMajority(cfg, run[j].held, d)
    requires c.handle == d.handle && SameRank(c, d)
    ensures c == d
  {
    var last := |run| - 1;
    RunGrows(cfg, run, i, last);
    RunGrows(cfg, run, j, last);
    MajorityGrows(cfg, run[i].held, run[last].held, c);
    MajorityGrows(cfg, run[j].held, run[last].held, d);
    RunKeeps(cfg, run, last);
    MajorityUnique(cfg, run[last], c, d);
  }

  lemma SiblingsSameRank(cfg: Config, s: State, c: Claim, d: Claim)
    requires Inv(cfg, s) && c in s.made && d in s.made && c.kind == TAKEOVER && d.kind == TAKEOVER
    requires c.parentId == d.parentId
    ensures c.handle == d.handle && SameRank(c, d)
  {
    assert HasMajorityParent(cfg, s.made, s.held, c) && HasMajorityParent(cfg, s.made, s.held, d);
    var p :| p in s.made && IsParent(p, c);
    var q :| q in s.made && IsParent(q, d);
    assert p == q;
  }

  /** Two takeovers of one parent cannot both answer takeover_committed: a second
      commit is the same operation of the same node. */
  lemma OneTakeoverPerParent(cfg: Config, run: seq<State>, i: nat, j: nat, c: Claim, d: Claim)
    requires Run(cfg, run) && i < |run| && j < |run|
    requires c in run[i].committed && d in run[j].committed && c.parentId == d.parentId
    ensures c == d
  {
    var last := |run| - 1;
    RunGrows(cfg, run, i, last);
    RunGrows(cfg, run, j, last);
    RunKeeps(cfg, run, last);
    SiblingsSameRank(cfg, run[last], c, d);
    MajorityUnique(cfg, run[last], c, d);
  }

  // ----- Single lineage -----

  /** Following parent links from `t`, through claims that a majority held, leads to `c`. */
  ghost predicate Descends(cfg: Config, s: State, t: Claim, c: Claim)
    decreases if t.sequence < 0 then 0 else t.sequence
  {
    || t == c
    || exists p: Claim :: 0 <= p.sequence && p in s.made && IsParent(p, t) && EverMajority(cfg, s.held, p) &&
                          Descends(cfg, s, p, c)
  }

  lemma {:induction false} DescendsFromMajority(cfg: Config, s: State, c: Claim, t: Claim)
    requires Inv(cfg, s) && EverMajority(cfg, s.held, c) && c in s.made && t in s.made
    requires t.handle == c.handle && t.generation == c.generation && t.epoch == c.epoch && c.sequence < t.sequence
    ensures Descends(cfg, s, t, c)
    decreases t.sequence
  {
    assert ValidClaim(cfg.hash, t) && ValidClaim(cfg.hash, c);
    assert HasMajorityParent(cfg, s.made, s.held, t);
    var p :| p in s.made && IsParent(p, t) && EverMajority(cfg, s.held, p);
    if p.sequence == c.sequence {
      MajorityUnique(cfg, s, p, c);
    } else {
      DescendsFromMajority(cfg, s, c, p);
    }
  }

  lemma MajorityMade(cfg: Config, s: State, c: Claim)
    requires Inv(cfg, s) && EverMajority(cfg, s.held, c)
    ensures c in s.made
  {
    var n := Sets.Pick(Holders(cfg, s.held, c));
    var x := Holding(n, c);
    assert x in s.held;
  }

  /** What a majority held, and what anyone held, is still on record at the end of the run. */
  lemma HistoryAtEnd(cfg: Config, run: seq<State>, i: nat, j: nat, c: Claim, x: Holding)
    requires Run(cfg, run) && i < |run| && j < |run| && EverMajority(cfg, run[i].held, c) && x in run[j].held
    ensures EverMajority(cfg, run[|run| - 1].held, c) && x in run[|run| - 1].held
  {
    var last := |run| - 1;
    RunGrows(cfg, run, i, last);
    RunGrows(cfg, run, j, last);
    MajorityGrows(cfg, run[i].held, run[last].held, c);
  }

  lemma HeldDescends(cfg: Config, s: State, c: Claim, t: Claim, n: int)
    requires Inv(cfg, s) && EverMajority(cfg, s.held, c) && Holding(n, t) in s.held
    requires t.handle == c.handle && t.generation == c.generation && t.epoch == c.epoch && c.sequence < t.sequence
    ensures Descends(cfg, s, t, c)
  {
    MajorityMade(cfg, s, c);
    var x := Holding(n, t);
    assert x in s.held && x.claim in s.made;
    DescendsFromMajority(cfg, s, c, t);
  }

  /** Takeovers never fork away from a claim that a majority held: every later
      takeover of the same generation and epoch, held by any node, descends from it. */
  lemma SingleLineage(cfg: Config, run: seq<State>, i: nat, j: nat, c: Claim, t: Claim, n: int)
    requires Run(cfg, run) && i < |run| && j < |run|
    requires EverMajority(cfg, run[i].held, c) && Holding(n, t) in run[j].held
    requires t.handle == c.handle && t.generation == c.generation && t.epoch == c.epoch && c.sequence < t.sequence
    ensures Descends(cfg, run[|run| - 1], t, c)
  {
    var last := |run| - 1;
    HistoryAtEnd(cfg, run, i, j, c, Holding(n, t));
    RunKeeps(cfg, run, last);
    HeldDescends(cfg, run[last], c, t, n);
  }

  /** The committed takeovers of one handle, generation and epoch form a chain. */
  lemma CommittedChain(cfg: Config, run: seq<State>, i: nat, c: Claim, d: Claim)
    requires Run(cfg, run) && i < |run| && c in run[i].committed && d in run[i].committed
    requires c.handle == d.handle && c.generation == d.generation && c.epoch == d.epoch
    ensures Descends(cfg, run[i], c, d) || Descends(cfg, run[i], d, c)
  {
    RunKeeps(cfg, run, i);
    if c.sequence == d.sequence {
      MajorityUnique(cfg, run[i], c, d);
    } else if c.sequence < d.sequence {
      DescendsFromMajority(cfg, run[i], c, d);
    } else {
      DescendsFromMajority(cfg, run[i], d, c);
    }
  }

  // ----- Reads -----

  /** A read never returns a claim older than one that a majority held before it started,
      be that a grant, a takeover still in progress or a committed one. */
  lemma NoStaleResolve(cfg: Config, run: seq<State>, i: nat, j: nat, c: Claim, v: Verdict)
    requires Run(cfg, run) && i <= j < |run|
    requires EverMajority(cfg, run[i].held, c) && v in run[j].verdicts && v.query !in run[i].queries &&
             v.claim.handle == c.handle
    ensures AtLeast(v.claim, c)
  {
    RunGrows(cfg, run, i, j);
    RunKeeps(cfg, run, j);
    assert v.query in run[j].queries && v.claim.handle == run[j].queries[v.query].handle;
    MajorityGrows(cfg, run[i].held, run[j].queries[v.query].heldBefore, c);
    assert FreshFor(cfg, run[j].queries[v.query].handle, run[j].queries[v.query].heldBefore, v.claim);
  }

  /** In particular, no read started after a takeover was answered as committed goes behind it. */
  lemma NoStaleResolveAfterCommit(cfg: Config, run: seq<State>, i: nat, j: nat, c: Claim, v: Verdict)
    requires Run(cfg, run) && i <= j < |run|
    requires c in run[i].committed && v in run[j].verdicts && v.query !in run[i].queries && v.claim.handle == c.handle
    ensures AtLeast(v.claim, c)
  {
    CommittedByMajority(cfg, run, i, c);
    NoStaleResolve(cfg, run, i, j, c, v);
  }

  /** A takeover is only ever drafted against a claim that a majority held, and a
      committed one was accepted by a majority. */
  lemma CommittedByMajority(cfg: Config, run: seq<State>, i: nat, c: Claim)
    requires Run(cfg, run) && i < |run| && c in run[i].committed
    ensures EverMajority(cfg, run[i].held, c) && HasMajorityParent(cfg, run[i].made, run[i].held, c)
  {
    RunKeeps(cfg, run, i);
  }

  // ----- The code of one Agent takes steps of the protocol -----

  /** A read that found no single greatest claim gives up. */
  lemma NoMaximumIsStep(cfg: Config, s: State, q: nat) returns (t: State)
    requires q in s.queries && s.queries[q].node in s.stores
    ensures Next(cfg, s, GiveUp(q), t) && t.verdicts == s.verdicts
    ensures t.stores == s.stores[s.queries[q].node := s.stores[s.queries[q].node]]
  {
    t := s.(queries := s.queries[q := s.queries[q].(open := false)]);
    assert GiveUpStep(cfg, s, q, t);
  }

  /** One that found it adopts it and, with a quorum behind it, returns it. */
  lemma AdoptionIsStep(cfg: Config, s: State, q: nat, replies: map<int, Claim>, available: map<int, bool>, m: Claim,
                       store: Store, r: Resolution) returns (t: State)
    requires q in s.queries && s.queries[q].open && Gathered(s, q, replies) && IsUniqueMaximum(replies, m)
    requires s.queries[q].node in s.stores && |cfg.members| >= 1
    requires Adopts(cfg.hash, s.queries[q].node, |cfg.members| - 1, s.stores[s.queries[q].node], replies, available, m,
             store, r)
    ensures ConcludeStep(cfg, s, q, replies, available, m, t) && t.stores == s.stores[s.queries[q].node := store]
    ensures t.verdicts == if r.Resolved? then s.verdicts + {Verdict(q, m, r.decision)} else s.verdicts
    ensures r.Resolved? ==> m.claimId == r.claimId
  {
    var n := s.queries[q].node;
    var u := Absorb(cfg, s, n, m, false).(queries := s.queries[q := s.queries[q].(open := false)]);
    t := if r.Resolved? then u.(verdicts := s.verdicts + {Verdict(q, m, Decision(n, m, available))}) else u;
  }

  /** What `FinishQuery` does is a step: it returns a claim exactly when the
      step records a verdict for it. */
  lemma QueryOutcomeIsStep(cfg: Config, s: State, q: nat, replies: map<int, Claim>, available: map<int, bool>,
                           store: Store, r: Resolution) returns (step: Step, t: State)
    requires q in s.queries && s.queries[q].open && Gathered(s, q, replies)
    requires s.queries[q].node in s.stores && s.queries[q].node in cfg.members
    requires |cfg.members| >= 1
    requires QueryOutcome(cfg.hash, s.queries[q].node, |cfg.members| - 1, s.stores[s.queries[q].node], replies,
             available, store, r)
    ensures Next(cfg, s, step, t) && t.stores == s.stores[s.queries[q].node := store]
    ensures r.Unavailable? ==> t.verdicts == s.verdicts
    ensures r.Resolved? ==>
            exists m: Claim :: m.claimId == r.claimId && t.verdicts == s.verdicts + {Verdict(q, m, r.decision)}
  {
    var n := s.queries[q].node;
    if forall m :: !IsUniqueMaximum(replies, m) {
      step := GiveUp(q);
      t := NoMaximumIsStep(cfg, s, q);
    } else {
      var m :| IsUniqueMaximum(replies, m) &&
        Adopts(cfg.hash, n, |cfg.members| - 1, s.stores[n], replies, available, m, store, r);
      step := Conclude(q, replies, available, m);
      t := AdoptionIsStep(cfg, s, q, replies, available, m, store, r);
    }
  }
}
