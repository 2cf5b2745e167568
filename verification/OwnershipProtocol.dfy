/** The Agents of one deployment as a state machine. Every step is atomic at one
    Agent; messages are kept for ever and may be used late, often or never.
    Membership is fixed: the peers of an Agent are the other members. */
module OwnershipProtocol {
  import opened Basics
  import opened OwnershipClaim
  import opened Quorum

  const MAX_TAKEOVERS := 1000

  datatype Config = Config(members: set<int>, hash: string -> string)

  /** `node` accepted `claim` at some time. */
  datatype Holding = Holding(node: int, claim: Claim)

  /** A quorum read. The last field records history: what had been held when the read started. */
  datatype Query = Query(node: int, handle: string, open: bool, heldBefore: set<Holding>)

  datatype Reply = Reply(query: nat, from: int, claim: Option<Claim>)

  /** A quorum read that returned OK. */
  datatype Verdict = Verdict(query: nat, claim: Claim, decision: string)

  datatype Draft = Draft(claim: Claim, swapped: bool)

  /** A journal entry, `ownershipTakeoverOperation`. */
  datatype Operation = Operation(claim: Claim, succeeded: bool)

  datatype State = State(
    stores: map<int, Store>,
    journals: map<int, map<string, Operation>>,
    drafts: map<int, Draft>,      // the takeover in progress; one per node, under its mutex
    queries: map<nat, Query>,
    replies: set<Reply>,
    acks: set<Holding>,
    sent: set<Claim>,
    verdicts: set<Verdict>,
    committed: set<Claim>,        // takeovers answered with takeover_committed
    made: set<Claim>,             // every claim ever made
    held: set<Holding>)           // every acceptance ever

  ghost predicate Init(cfg: Config, s: State) {
    && s.stores == (map n | n in cfg.members :: map[])
    && s.journals == (map n | n in cfg.members :: map[])
    && s.drafts == map[] && s.queries == map[] && s.replies == {} && s.acks == {} && s.sent == {}
    && s.verdicts == {} && s.committed == {} && s.made == {} && s.held == {}
  }

  /** `(len(PeerWitnessURLs)+1)/2 + 1` */
  ghost function QuorumSize(cfg: Config): nat {
    Required(if |cfg.members| == 0 then 0 else |cfg.members| - 1)
  }

  // ----- Steps -----

  datatype Step =
    | Grant(node: int, claim: Claim)
    | Observe(node: int, claim: Claim)
    | Ask(node: int, query: nat, handle: string)
    | Answer(query: nat, from: int)
    | Conclude(query: nat, replies: map<int, Claim>, available: map<int, bool>, maximal: Claim)
    | GiveUp(query: nat)
    | MakeDraft(verdict: Verdict, operationId: string, claim: Claim)
    | SwapDraft(node: int)
    | JournalDraft(node: int)
    | Commit(node: int, operationId: string, acknowledged: set<int>)
    | Forget(node: int, operationId: string)
    | Restart(node: int)

  /** `node` runs `applyActivityOwnershipClaim` on `c`. */
  ghost function Absorb(cfg: Config, s: State, node: int, c: Claim, requireParent: bool): State
    requires node in s.stores
  {
    var r := ApplyClaim(cfg.hash, s.stores[node], c, requireParent);
    s.(stores := s.stores[node := r.store], held := if r.accepted then s.held + {Holding(node, c)} else s.held)
  }

  ghost predicate Accepts(cfg: Config, s: State, node: int, c: Claim, requireParent: bool)
    requires node in s.stores
  {
    ApplyClaim(cfg.hash, s.stores[node], c, requireParent).accepted
  }

  ghost function TakeoverOf(cfg: Config, parent: Claim, node: int, operationId: string): Option<Claim> {
    MakeClaim(cfg.hash, parent.handle, node, parent.generation, parent.epoch, parent.sequence + 1, TAKEOVER,
              parent.claimId, operationId)
  }

  /** Two made claims never share a SHA-256 digest. */
  ghost predicate NoCollision(claims: set<Claim>) {
    forall a, b :: a in claims && b in claims && a.claimId == b.claimId ==> a == b
  }

  /** Replies of one read: at most one per node, any of them may be missing, but
      the node's own stored claim is always among them. */
  ghost predicate Gathered(s: State, query: nat, replies: map<int, Claim>)
    requires query in s.queries
  {
    && (forall n :: n in replies ==> Reply(query, n, Some(replies[n])) in s.replies)
    && var self := s.queries[query].node;
       (exists own :: Reply(query, self, own) in s.replies && (own.Some? ==> self in replies))
  }

  /** `recordControllerOwnershipGrant`: applied without a parent check, then broadcast whatever the outcome. */
  ghost predicate GrantStep(cfg: Config, s: State, n: int, c: Claim, t: State) {
    && n in s.stores && NoCollision(s.made + {c})
    && MakeClaim(cfg.hash, c.handle, n, c.generation, c.epoch, 0, GRANT, "", "") == Some(c)
    && t == Absorb(cfg, s, n, c, false).(made := s.made + {c}, sent := s.sent + {c})
  }

  /** `handlePeerOwnershipObserve`. */
  ghost predicate ObserveStep(cfg: Config, s: State, n: int, c: Claim, t: State) {
    && n in s.stores && c in s.sent
    && t == Absorb(cfg, s, n, c, c.kind == TAKEOVER).(
            acks := if Accepts(cfg, s, n, c, c.kind == TAKEOVER) then s.acks + {Holding(n, c)} else s.acks)
  }

  ghost predicate AskStep(cfg: Config, s: State, n: int, q: nat, h: string, t: State) {
    && n in s.stores && q !in s.queries && ValidOwnershipHandle(h) && |cfg.members| >= 2
    && t == s.(queries := s.queries[q := Query(n, h, true, s.held)])
  }

  /** `handlePeerOwnershipQuery`, or the node reading its own claim. */
  ghost predicate AnswerStep(cfg: Config, s: State, q: nat, m: int, t: State) {
    && q in s.queries && m in s.stores && (forall own :: Reply(q, m, own) !in s.replies)
    && var h := s.queries[q].handle;
       t == s.(replies := s.replies + {Reply(q, m, if h in s.stores[m] then Some(s.stores[m][h]) else None)})
  }

  /** The tail of queryOwnershipQuorum, with read repair of the local claim. */
  ghost predicate ConcludeStep(cfg: Config, s: State, q: nat, replies: map<int, Claim>, available: map<int, bool>,
      m: Claim, t: State) {
    && q in s.queries && s.queries[q].open && s.queries[q].node in s.stores
    && Gathered(s, q, replies) && IsUniqueMaximum(replies, m)
    && var n := s.queries[q].node;
       var r := Absorb(cfg, s, n, m, false);
       var closed := s.queries[q := s.queries[q].(open := false)];
       if Accepts(cfg, s, n, m, false) && |Matching(n, replies, m.claimId)| >= QuorumSize(cfg)
       then t == r.(queries := closed, verdicts := s.verdicts + {Verdict(q, m, Decision(n, m, available))})
       else t == r.(queries := closed)
  }

  /** a conflict between the replies, or a deadline. */
  ghost predicate GiveUpStep(cfg: Config, s: State, q: nat, t: State) {
    && q in s.queries
    && t == s.(queries := s.queries[q := s.queries[q].(open := false)])
  }

  /** `performUserConfirmedTakeover` up to the local compare-and-set. */
  ghost predicate MakeDraftStep(cfg: Config, s: State, v: Verdict, op: string, c: Claim, t: State) {
    && v in s.verdicts && v.decision == "takeover_required" && v.query in s.queries
    && var n := s.queries[v.query].node;
       var h := s.queries[v.query].handle;
       && n in s.stores && n in s.journals && n !in s.drafts && op !in s.journals[n]
       && h in s.stores[n] && s.stores[n][h].claimId == v.claim.claimId
       && TakeoverOf(cfg, s.stores[n][h], n, op) == Some(c)
       && NoCollision(s.made + {c})
       && t == s.(made := s.made + {c}, drafts := s.drafts[n := Draft(c, false)])
  }

  ghost predicate SwapDraftStep(cfg: Config, s: State, n: int, t: State) {
    && n in s.drafts && !s.drafts[n].swapped && n in s.stores
    && var c := s.drafts[n].claim;
       t == Absorb(cfg, s, n, c, true).(
            drafts := if Accepts(cfg, s, n, c, true) then s.drafts[n := Draft(c, true)] else s.drafts - {n})
  }

  ghost predicate JournalDraftStep(cfg: Config, s: State, n: int, t: State) {
    && n in s.drafts && s.drafts[n].swapped && n in s.journals
    && var c := s.drafts[n].claim;
       if |s.journals[n]| >= MAX_TAKEOVERS then t == s.(drafts := s.drafts - {n})
       else t == s.(drafts := s.drafts - {n}, sent := s.sent + {c},
                    journals := s.journals[n := s.journals[n][c.operationId := Operation(c, false)]])
  }

  /** `broadcastOwnershipClaim` counted the node itself and its acknowledging peers. */
  ghost predicate CommitStep(cfg: Config, s: State, n: int, op: string, acknowledged: set<int>, t: State) {
    && n in s.journals && op in s.journals[n] && n in cfg.members && acknowledged <= cfg.members
    && var c := s.journals[n][op].claim;
       && (forall m :: m in acknowledged ==> Holding(m, c) in s.acks)
       && |{n} + acknowledged| >= QuorumSize(cfg)
       && t == s.(committed := s.committed + {c},
                  journals := s.journals[n := s.journals[n][op := Operation(c, true)]])
  }

  /** The Controller acknowledged the takeover. */
  ghost predicate ForgetStep(cfg: Config, s: State, n: int, op: string, t: State) {
    && n in s.journals && op in s.journals[n] && s.journals[n][op].succeeded
    && t == s.(journals := s.journals[n := s.journals[n] - {op}])
  }

  /** Stores and journals are durable; calls in progress are lost. */
  ghost predicate RestartStep(cfg: Config, s: State, n: int, t: State) {
    t == s.(drafts := s.drafts - {n},
            queries := map q | q in s.queries :: s.queries[q].(open := s.queries[q].open && s.queries[q].node != n))
  }

  ghost predicate Next(cfg: Config, s: State, step: Step, t: State) {
    match step
    case Grant(n, c) => GrantStep(cfg, s, n, c, t)
    case Observe(n, c) => ObserveStep(cfg, s, n, c, t)
    case Ask(n, q, h) => AskStep(cfg, s, n, q, h, t)
    case Answer(q, m) => AnswerStep(cfg, s, q, m, t)
    case Conclude(q, replies, available, m) => ConcludeStep(cfg, s, q, replies, available, m, t)
    case GiveUp(q) => GiveUpStep(cfg, s, q, t)
    case MakeDraft(v, op, c) => MakeDraftStep(cfg, s, v, op, c, t)
    case SwapDraft(n) => SwapDraftStep(cfg, s, n, t)
    case JournalDraft(n) => JournalDraftStep(cfg, s, n, t)
    case Commit(n, op, acknowledged) => CommitStep(cfg, s, n, op, acknowledged, t)
    case Forget(n, op) => ForgetStep(cfg, s, n, op, t)
    case Restart(n) => RestartStep(cfg, s, n, t)
  }

  // ----- Runs -----

  ghost predicate NextState(cfg: Config, s: State, t: State) {
    exists step :: Next(cfg, s, step, t)
  }

  /** State number `i` is followed by one step. */
  ghost predicate Moves(cfg: Config, run: seq<State>, i: nat)
    requires i + 1 < |run|
  {
    NextState(cfg, run[i], run[i + 1])
  }

  ghost predicate Run(cfg: Config, run: seq<State>) {
    && |run| > 0 && Init(cfg, run[0])
    && forall i :: 0 <= i < |run| - 1 ==> Moves(cfg, run, i)
  }

  // ----- Invariant -----

  ghost function Holders(cfg: Config, held: set<Holding>, c: Claim): set<int> {
    set m | m in cfg.members && Holding(m, c) in held
  }

  /** A strict majority of the members accepted `c`, each at some time. */
  ghost predicate EverMajority(cfg: Config, held: set<Holding>, c: Claim) {
    IsMajority(Holders(cfg, held, c), cfg.members)
  }

  ghost predicate Shape(cfg: Config, stores: map<int, Store>, journals: map<int, map<string, Operation>>) {
    stores.Keys == cfg.members && journals.Keys == cfg.members
  }

  ghost predicate MadeValid(cfg: Config, made: set<Claim>) {
    NoCollision(made) && forall c :: c in made ==> ValidClaim(cfg.hash, c)
  }

  ghost predicate HeldMade(cfg: Config, held: set<Holding>, made: set<Claim>) {
    forall x :: x in held ==> x.node in cfg.members && x.claim in made
  }

  ghost predicate StoredHeld(stores: map<int, Store>, held: set<Holding>) {
    forall n, h :: n in stores && h in stores[n] ==> stores[n][h].handle == h && Holding(n, stores[n][h]) in held
  }

  ghost predicate Overtaken(stores: map<int, Store>, x: Holding) {
    && x.node in stores && x.claim.handle in stores[x.node]
    && var current := stores[x.node][x.claim.handle];
       current == x.claim || Below(x.claim, current)
  }

  /** A node only ever moves to a claim of greater rank. */
  ghost predicate AllOvertaken(stores: map<int, Store>, held: set<Holding>) {
    forall x :: x in held ==> Overtaken(stores, x)
  }

  /** So it never accepts two claims of one handle and rank. */
  ghost predicate OnePerRank(held: set<Holding>) {
    forall x, y ::
      x in held && y in held && x.node == y.node && x.claim.handle == y.claim.handle && SameRank(x.claim, y.claim) ==>
      x == y
  }

  ghost predicate DraftsKept(drafts: map<int, Draft>, made: set<Claim>, held: set<Holding>) {
    && (forall n :: n in drafts ==> drafts[n].claim in made && drafts[n].claim.kind == TAKEOVER)
    && (forall n :: n in drafts && drafts[n].swapped ==> Holding(n, drafts[n].claim) in held)
  }

  ghost predicate JournalsHeld(journals: map<int, map<string, Operation>>, held: set<Holding>) {
    forall n, op :: n in journals && op in journals[n] ==>
      Holding(n, journals[n][op].claim) in held && journals[n][op].claim.kind == TAKEOVER
  }

  ghost predicate QueriesKept(cfg: Config, queries: map<nat, Query>, held: set<Holding>) {
    forall q :: q in queries ==> queries[q].node in cfg.members && queries[q].heldBefore <= held
  }

  ghost predicate RepliesHeld(cfg: Config, queries: map<nat, Query>, replies: set<Reply>, held: set<Holding>) {
    forall r :: r in replies ==>
      && r.query in queries && r.from in cfg.members
      && (r.claim.Some? ==> r.claim.value.handle == queries[r.query].handle && Holding(r.from, r.claim.value) in held)
  }

  /** A reply is at least as new as anything its sender held when the read began. */
  ghost predicate RepliesFresh(queries: map<nat, Query>, replies: set<Reply>) {
    forall r, x ::
      r in replies && r.query in queries && x in queries[r.query].heldBefore && x.node == r.from &&
      x.claim.handle == queries[r.query].handle ==>
      r.claim.Some? && AtLeast(r.claim.value, x.claim)
  }

  ghost predicate VerdictsMajority(cfg: Config, queries: map<nat, Query>, verdicts: set<Verdict>, made: set<Claim>,
      held: set<Holding>) {
    forall v :: v in verdicts ==>
      v.query in queries && v.claim in made && v.claim.handle == queries[v.query].handle &&
        EverMajority(cfg, held, v.claim)
  }

  /** Nothing that a majority held before outranks `claim`. */
  ghost predicate FreshFor(cfg: Config, handle: string, heldBefore: set<Holding>, claim: Claim) {
    forall c: Claim :: c.handle == handle && EverMajority(cfg, heldBefore, c) ==> AtLeast(claim, c)
  }

  ghost predicate VerdictsFresh(cfg: Config, queries: map<nat, Query>, verdicts: set<Verdict>) {
    forall v :: v in verdicts && v.query in queries ==>
      FreshFor(cfg, queries[v.query].handle, queries[v.query].heldBefore, v.claim)
  }

  ghost predicate CommittedMajority(cfg: Config, committed: set<Claim>, made: set<Claim>, held: set<Holding>) {
    forall c :: c in committed ==> c in made && c.kind == TAKEOVER && EverMajority(cfg, held, c)
  }

  ghost predicate IsParent(p: Claim, c: Claim) {
    && p.claimId == c.parentId && p.handle == c.handle
    && p.generation == c.generation && p.epoch == c.epoch && p.sequence + 1 == c.sequence
  }

  ghost predicate HasMajorityParent(cfg: Config, made: set<Claim>, held: set<Holding>, c: Claim) {
    exists p :: p in made && IsParent(p, c) && EverMajority(cfg, held, p)
  }

  /** Every takeover was made from a claim that a majority had held. */
  ghost predicate Lineage(cfg: Config, made: set<Claim>, held: set<Holding>) {
    forall c :: c in made && c.kind == TAKEOVER ==> HasMajorityParent(cfg, made, held, c)
  }

  ghost predicate Inv(cfg: Config, s: State) {
    && Shape(cfg, s.stores, s.journals)
    && MadeValid(cfg, s.made) && HeldMade(cfg, s.held, s.made) && s.sent <= s.made && s.acks <= s.held
    && StoredHeld(s.stores, s.held) && AllOvertaken(s.stores, s.held) && OnePerRank(s.held)
    && DraftsKept(s.drafts, s.made, s.held) && JournalsHeld(s.journals, s.held)
    && QueriesKept(cfg, s.queries, s.held)
    && RepliesHeld(cfg, s.queries, s.replies, s.held) && RepliesFresh(s.queries, s.replies)
    && VerdictsMajority(cfg, s.queries, s.verdicts, s.made, s.held) && VerdictsFresh(cfg, s.queries, s.verdicts)
    && CommittedMajority(cfg, s.committed, s.made, s.held)
    && Lineage(cfg, s.made, s.held)
  }
}
