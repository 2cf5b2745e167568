/** The protocol does move: three Agents on which a takeover is carried through to
    the end, so the theorems about committed takeovers are about something. */
module OwnershipScenario {
  import opened Basics
  import opened OwnershipClaim
  import opened OwnershipProtocol

  ghost predicate Reached(cfg: Config, run: seq<State>, s: State) {
    Run(cfg, run) && run[|run| - 1] == s
  }

  lemma Follow(cfg: Config, run: seq<State>, s: State, step: Step, t: State) returns (more: seq<State>)
    requires Reached(cfg, run, s) && Next(cfg, s, step, t)
    ensures Reached(cfg, more, t)
  {
    more := run + [t];
    assert NextState(cfg, s, t);
    forall i | 0 <= i < |more| - 1 ensures Moves(cfg, more, i) {
      if i < |run| - 1 { assert Moves(cfg, run, i); }
    }
  }

  /** Agents 1, 2 and 3; `g` is a grant to Agent 1 and `t` the takeover of it by Agent 2. */
  ghost predicate Cast(cfg: Config, g: Claim, t: Claim, op: string) {
    && cfg.members == {1, 2, 3} && g.claimId != t.claimId
    && MakeClaim(cfg.hash, g.handle, 1, g.generation, g.epoch, 0, GRANT, "", "") == Some(g)
    && TakeoverOf(cfg, g, 2, op) == Some(t)
  }

  ghost function Stores(a: Store, b: Store, c: Store): map<int, Store> {
    map[1 := a, 2 := b, 3 := c]
  }

  ghost function Start(): State {
    State(Stores(map[], map[], map[]), map[1 := map[], 2 := map[], 3 := map[]], map[], map[], {}, {}, {}, {}, {},
      {}, {})
  }

  ghost function AfterGrant(g: Claim): State {
    Start().(stores := Stores(map[g.handle := g], map[], map[]), sent := {g}, made := {g}, held := {Holding(1, g)})
  }

  ghost function AfterObserve(g: Claim): State {
    AfterGrant(g).(stores := Stores(map[g.handle := g], map[g.handle := g], map[]), acks := {Holding(2, g)},
      held := {Holding(1, g), Holding(2, g)})
  }

  ghost function AfterAnswers(g: Claim): State {
    AfterObserve(g).(queries := map[0 := Query(2, g.handle, true, AfterObserve(g).held)],
      replies := {Reply(0, 2, Some(g)), Reply(0, 1, Some(g))})
  }

  ghost function AfterRead(g: Claim): State {
    AfterAnswers(g).(queries := map[0 := Query(2, g.handle, false, AfterObserve(g).held)],
      verdicts := {Verdict(0, g, "takeover_required")})
  }

  ghost function AfterDraft(g: Claim, t: Claim): State {
    AfterRead(g).(made := {g, t}, drafts := map[2 := Draft(t, false)])
  }

  ghost function AfterSwap(g: Claim, t: Claim): State {
    AfterDraft(g, t).(drafts := map[2 := Draft(t, true)],
      stores := Stores(map[g.handle := g], map[g.handle := t], map[]),
                      held := {Holding(1, g), Holding(2, g), Holding(2, t)})
  }

  ghost function AfterJournal(g: Claim, t: Claim, op: string): State {
    AfterSwap(g, t).(drafts := map[], sent := {g, t},
      journals := map[1 := map[], 2 := map[op := Operation(t, false)], 3 := map[]])
  }

  ghost function AfterAck(g: Claim, t: Claim, op: string): State {
    AfterJournal(g, t, op).(stores := Stores(map[g.handle := t], map[g.handle := t], map[]),
      acks := {Holding(2, g), Holding(1, t)},
                            held := {Holding(1, g), Holding(2, g), Holding(2, t), Holding(1, t)})
  }

  lemma Begins(cfg: Config)
    requires cfg.members == {1, 2, 3}
    ensures Reached(cfg, [Start()], Start())
  {
    assert Start().stores == (map n | n in cfg.members :: map[]);
    assert Start().journals == (map n | n in cfg.members :: map[]);
  }

  lemma Grants(cfg: Config, g: Claim, t: Claim, op: string)
    requires Cast(cfg, g, t, op)
    ensures GrantStep(cfg, Start(), 1, g, AfterGrant(g))
  {
    var r := Absorb(cfg, Start(), 1, g, false);
    assert r.stores == AfterGrant(g).stores;
    assert r.held == AfterGrant(g).held && {} + {g} == {g};
  }

  lemma Observes(cfg: Config, g: Claim, t: Claim, op: string)
    requires Cast(cfg, g, t, op)
    ensures ObserveStep(cfg, AfterGrant(g), 2, g, AfterObserve(g))
  {
    var r := Absorb(cfg, AfterGrant(g), 2, g, false);
    assert r.stores == AfterObserve(g).stores;
    assert r.held == AfterObserve(g).held && {} + {Holding(2, g)} == {Holding(2, g)};
  }

  /** The grant is known to Agents 1 and 2. */
  lemma Granted(cfg: Config, g: Claim, t: Claim, op: string) returns (run: seq<State>)
    requires Cast(cfg, g, t, op)
    ensures Reached(cfg, run, AfterObserve(g))
  {
    Begins(cfg);
    Grants(cfg, g, t, op);
    run := Follow(cfg, [Start()], Start(), Grant(1, g), AfterGrant(g));
    Observes(cfg, g, t, op);
    run := Follow(cfg, run, AfterGrant(g), Observe(2, g), AfterObserve(g));
  }

  /** Agent 2 asks, and it and Agent 1 answer. */
  lemma Asked(cfg: Config, g: Claim, t: Claim, op: string) returns (run: seq<State>)
    requires Cast(cfg, g, t, op)
    ensures Reached(cfg, run, AfterAnswers(g))
  {
    run := Granted(cfg, g, t, op);
    var s2 := AfterObserve(g);
    var s3 := s2.(queries := map[0 := Query(2, g.handle, true, s2.held)]);
    assert AskStep(cfg, s2, 2, 0, g.handle, s3) by {
      assert s2.queries[0 := Query(2, g.handle, true, s2.held)] == s3.queries;
    }
    run := Follow(cfg, run, s2, Ask(2, 0, g.handle), s3);
    var s4 := s3.(replies := {Reply(0, 2, Some(g))});
    assert AnswerStep(cfg, s3, 0, 2, s4) by { assert {} + {Reply(0, 2, Some(g))} == s4.replies; }
    run := Follow(cfg, run, s3, Answer(0, 2), s4);
    assert AnswerStep(cfg, s4, 0, 1, AfterAnswers(g));
    run := Follow(cfg, run, s4, Answer(0, 1), AfterAnswers(g));
  }

  /** Both replies name the grant, so it is the one maximum and two nodes match. */
  lemma RepliesAgree(g: Claim)
    ensures Gathered(AfterAnswers(g), 0, map[1 := g, 2 := g]) && IsUniqueMaximum(map[1 := g, 2 := g], g)
    ensures Matching(2, map[1 := g, 2 := g], g.claimId) == {1, 2}
  {
    var s, replies := AfterAnswers(g), map[1 := g, 2 := g];
    assert Reply(0, 2, Some(g)) in s.replies && replies[1] == g;
  }

  /** Adopting what is stored already changes nothing. */
  lemma AdoptsNothingNew(cfg: Config, g: Claim, t: Claim, op: string)
    requires Cast(cfg, g, t, op)
    ensures Accepts(cfg, AfterAnswers(g), 2, g, false) && Absorb(cfg, AfterAnswers(g), 2, g, false) == AfterAnswers(g)
  {
    var s := AfterAnswers(g);
    var r := Absorb(cfg, s, 2, g, false);
    assert r.stores == s.stores && r.held == s.held;
  }

  lemma Concludes(cfg: Config, g: Claim, t: Claim, op: string)
    requires Cast(cfg, g, t, op)
    ensures ConcludeStep(cfg, AfterAnswers(g), 0, map[1 := g, 2 := g], map[], g, AfterRead(g))
  {
    RepliesAgree(g);
    AdoptsNothingNew(cfg, g, t, op);
    var s := AfterAnswers(g);
    assert s.queries[0 := s.queries[0].(open := false)] == AfterRead(g).queries;
    assert {} + {Verdict(0, g, "takeover_required")} == AfterRead(g).verdicts;
  }

  lemma Drafts(cfg: Config, g: Claim, t: Claim, op: string)
    requires Cast(cfg, g, t, op)
    ensures MakeDraftStep(cfg, AfterRead(g), Verdict(0, g, "takeover_required"), op, t, AfterDraft(g, t))
  {
    assert {g} + {t} == {g, t};
  }

  /** What the takeover is, and what storing it over the grant gives. */
  lemma TakeoverFacts(cfg: Config, g: Claim, t: Claim, op: string)
    requires Cast(cfg, g, t, op)
    ensures ValidClaim(cfg.hash, t) && t.kind == TAKEOVER && t.handle == g.handle && t.parentId == g.claimId &&
            Below(g, t)
    ensures ApplyClaim(cfg.hash, map[g.handle := g], t, true) == Applied(map[g.handle := t], true)
  {
    assert map[g.handle := g][g.handle := t] == map[g.handle := t];
  }

  lemma Swaps(cfg: Config, g: Claim, t: Claim, op: string)
    requires Cast(cfg, g, t, op)
    ensures SwapDraftStep(cfg, AfterDraft(g, t), 2, AfterSwap(g, t))
  {
    TakeoverFacts(cfg, g, t, op);
    var r := Absorb(cfg, AfterDraft(g, t), 2, t, true);
    assert r.stores == AfterSwap(g, t).stores;
    assert r.held == AfterSwap(g, t).held;
  }

  /** Agent 2 reads a quorum, finds the owner unavailable, drafts and swaps. */
  lemma Taken(cfg: Config, g: Claim, t: Claim, op: string) returns (run: seq<State>)
    requires Cast(cfg, g, t, op)
    ensures Reached(cfg, run, AfterSwap(g, t))
  {
    run := Asked(cfg, g, t, op);
    Concludes(cfg, g, t, op);
    run := Follow(cfg, run, AfterAnswers(g), Conclude(0, map[1 := g, 2 := g], map[], g), AfterRead(g));
    Drafts(cfg, g, t, op);
    run := Follow(cfg, run, AfterRead(g), MakeDraft(Verdict(0, g, "takeover_required"), op, t), AfterDraft(g, t));
    Swaps(cfg, g, t, op);
    run := Follow(cfg, run, AfterDraft(g, t), SwapDraft(2), AfterSwap(g, t));
  }

  lemma Journals(cfg: Config, g: Claim, t: Claim, op: string)
    requires Cast(cfg, g, t, op)
    ensures JournalDraftStep(cfg, AfterSwap(g, t), 2, AfterJournal(g, t, op))
  {
    var s := AfterSwap(g, t);
    assert s.drafts - {2} == map[];
    assert s.journals[2 := s.journals[2][op := Operation(t, false)]] == AfterJournal(g, t, op).journals;
    assert {g} + {t} == {g, t};
  }

  lemma AcknowledgerStores(cfg: Config, g: Claim, t: Claim, op: string)
    requires Cast(cfg, g, t, op)
    ensures Accepts(cfg, AfterJournal(g, t, op), 1, t, true)
    ensures Absorb(cfg, AfterJournal(g, t, op), 1, t, true) == AfterAck(g, t, op).(acks := AfterJournal(g, t, op).acks)
  {
    TakeoverFacts(cfg, g, t, op);
    var r := Absorb(cfg, AfterJournal(g, t, op), 1, t, true);
    assert r.stores == AfterAck(g, t, op).stores;
    assert r.held == AfterAck(g, t, op).held;
  }

  lemma Acknowledges(cfg: Config, g: Claim, t: Claim, op: string)
    requires Cast(cfg, g, t, op)
    ensures ObserveStep(cfg, AfterJournal(g, t, op), 1, t, AfterAck(g, t, op))
  {
    TakeoverFacts(cfg, g, t, op);
    AcknowledgerStores(cfg, g, t, op);
    assert {Holding(2, g)} + {Holding(1, t)} == AfterAck(g, t, op).acks;
  }

  ghost function AfterCommit(g: Claim, t: Claim, op: string): State {
    AfterAck(g, t, op).(committed := {t}, journals := map[1 := map[], 2 := map[op := Operation(t, true)], 3 := map[]])
  }

  lemma JournalSucceeds(g: Claim, t: Claim, op: string)
    ensures var s := AfterAck(g, t, op);
            s.journals[2 := s.journals[2][op := Operation(t, true)]] == AfterCommit(g, t, op).journals
  {
    var s := AfterAck(g, t, op);
    assert s.journals[2][op := Operation(t, true)] == map[op := Operation(t, true)];
  }

  lemma Commits(cfg: Config, g: Claim, t: Claim, op: string)
    requires Cast(cfg, g, t, op)
    ensures CommitStep(cfg, AfterAck(g, t, op), 2, op, {1}, AfterCommit(g, t, op))
  {
    JournalSucceeds(g, t, op);
    assert {} + {t} == {t} && {2} + {1} == {1, 2};
  }

  /** The takeover is journalled, acknowledged by Agent 1 and committed. */
  lemma TakeoverCommits(cfg: Config, g: Claim, t: Claim, op: string) returns (run: seq<State>)
    requires Cast(cfg, g, t, op)
    ensures Run(cfg, run) && t in run[|run| - 1].committed
  {
    run := Taken(cfg, g, t, op);
    Journals(cfg, g, t, op);
    run := Follow(cfg, run, AfterSwap(g, t), JournalDraft(2), AfterJournal(g, t, op));
    Acknowledges(cfg, g, t, op);
    run := Follow(cfg, run, AfterJournal(g, t, op), Observe(1, t), AfterAck(g, t, op));
    Commits(cfg, g, t, op);
    run := Follow(cfg, run, AfterAck(g, t, op), Commit(2, op, {1}), AfterCommit(g, t, op));
  }
}
