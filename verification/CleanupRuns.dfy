/** Cleanup commands, publications, crashes at any point and startup recovery,
    interleaved in every possible way. */
module CleanupRuns {
  import opened Basics
  import opened Formats
  import opened ReplicaCleanup

  /** Where the holder of the replica mutex stands. */
  datatype Stage =
    | Idle
    | Checking(req: Request)           // a command has begun
    | Isolating(req: Request)          // its target matched; the rename comes next
    | Removing(req: Request)           // the tombstone is being removed
    | Recovering(left: set<string>)    // startup removes the tombstones it accepted

  datatype State = State(names: Names, guards: Guards, stage: Stage, up: bool, nextTag: nat)

  datatype Event =
    | SetGuards(guards: Guards)                                      // mode, leases and claims change
    | Publication(handle: string, identity: Option<Identity>, files: set<string>)
    | Begin(req: Request)
    | Inspect
    | Isolate(now: int)
    | Remove(cleanup: string, rest: Option<Tree>)                    // `rest` is what is left; None when all is gone
    | Abandon                                                        // the command ends with an error
    | Crash
    | Boot
    | BootDone

  /** What a removal that stops half way may leave behind. */
  predicate PartOf(rest: Tree, t: Tree) {
    rest.tag == t.tag && rest.files <= t.files && (rest.identity == t.identity || rest.identity.None?)
  }

  predicate MayRemove(s: State, c: string) {
    (s.stage.Removing? && s.stage.req.cleanup == c) || (s.stage.Recovering? && c in s.stage.left)
  }

  ghost predicate AllTombstonesValid(cfg: Config, n: Names) {
    forall c :: c in n.trash ==> ValidUuid(c) && ValidTombstone(cfg, n.trash[c])
  }

  /** Publications and commands exclude each other; recovery runs before either. */
  ghost predicate Enabled(cfg: Config, s: State, e: Event) {
    match e
    case SetGuards(_) => true
    case Publication(_, _, _) => s.up && s.stage == Idle
    case Begin(req) => s.up && s.stage == Idle && ValidRequest(cfg, req)
    case Inspect => s.stage.Checking?
    case Isolate(_) => s.stage.Isolating?
    case Remove(c, rest) => MayRemove(s, c) && c in s.names.trash &&
      (rest.Some? ==> PartOf(rest.value, s.names.trash[c]))
    case Abandon => s.up && s.stage != Idle
    case Crash => true
    case Boot => !s.up && s.stage == Idle && AllTombstonesValid(cfg, s.names)
    case BootDone => !s.up && s.stage == Recovering({})
  }

  function InspectStage(cfg: Config, n: Names, req: Request): Stage {
    if req.cleanup in n.trash then
      if Matches(cfg, n.trash[req.cleanup], req) then Removing(req) else Idle
    else if req.handle in n.final && Matches(cfg, n.final[req.handle], req) then Isolating(req)
    else Idle
  }

  /** The guard and the identity are looked at again in the step that renames. */
  ghost predicate Renames(cfg: Config, s: State, now: int) {
    && s.stage.Isolating? && Allowed(cfg, s.guards, s.stage.req, now)
    && s.stage.req.handle in s.names.final && Matches(cfg, s.names.final[s.stage.req.handle], s.stage.req)
  }

  ghost function Apply(cfg: Config, s: State, e: Event): State
    requires Enabled(cfg, s, e)
  {
    match e
    case SetGuards(g) => s.(guards := g)
    case Publication(h, identity, files) =>
      s.(names := s.names.(final := s.names.final[h := Tree(s.nextTag, identity, files)]), nextTag := s.nextTag + 1)
    case Begin(req) => s.(stage := Checking(req))
    case Inspect => s.(stage := InspectStage(cfg, s.names, s.stage.req))
    case Isolate(now) =>
      if !Renames(cfg, s, now) then s.(stage := Idle)
      else
        var req := s.stage.req;
        s.(names := Names(s.names.final - {req.handle}, s.names.trash[req.cleanup := s.names.final[req.handle]]),
          stage := Removing(req))
    case Remove(c, rest) =>
      if rest.Some? then s.(names := s.names.(trash := s.names.trash[c := rest.value]))
      else
        var stage := if s.stage.Recovering? then Recovering(s.stage.left - {c}) else Idle;
        s.(names := s.names.(trash := s.names.trash - {c}), stage := stage)
    case Abandon => s.(stage := Idle)
    case Crash => s.(stage := Idle, up := false)
    case Boot => s.(stage := Recovering(s.names.trash.Keys))
    case BootDone => s.(stage := Idle, up := true)
  }

  datatype Trace = Trace(cfg: Config, events: seq<Event>, states: seq<State>)

  ghost predicate Shaped(r: Trace) {
    |r.states| == |r.events| + 1
  }

  ghost predicate Follows(r: Trace, k: nat)
    requires Shaped(r) && k < |r.events|
  {
    Enabled(r.cfg, r.states[k], r.events[k]) && r.states[k + 1] == Apply(r.cfg, r.states[k], r.events[k])
  }

  ghost predicate IsRun(r: Trace) {
    && Shaped(r) && r.states[0].names == Names(map[], map[]) && r.states[0].stage == Idle
    && forall k :: 0 <= k < |r.events| ==> Follows(r, k)
  }

  // ----- Tombstones are never overwritten -----

  /** The target of a rename is free. */
  ghost predicate TargetFree(s: State) {
    s.stage.Isolating? ==> s.stage.req.cleanup !in s.names.trash
  }

  lemma {:induction false} TargetsFree(r: Trace, k: nat)
    requires IsRun(r) && k <= |r.events|
    ensures TargetFree(r.states[k])
  {
    if k > 0 {
      TargetsFree(r, k - 1);
      assert Follows(r, k - 1);
    }
  }

  ghost predicate Has(n: Names, tag: nat) {
    (exists h :: h in n.final && n.final[h].tag == tag) || (exists c :: c in n.trash && n.trash[c].tag == tag)
  }

  ghost predicate Erases(s: State, e: Event, tag: nat) {
    e.Remove? && e.rest.None? && e.cleanup in s.names.trash && s.names.trash[e.cleanup].tag == tag
  }

  ghost predicate Replaces(s: State, e: Event, tag: nat) {
    e.Publication? && e.handle in s.names.final && s.names.final[e.handle].tag == tag
  }

  lemma TreeKept(cfg: Config, s: State, e: Event, tag: nat)
    requires Enabled(cfg, s, e) && TargetFree(s) && Has(s.names, tag) && !Erases(s, e, tag) && !Replaces(s, e, tag)
    ensures Has(Apply(cfg, s, e).names, tag)
  {
    var n, m := s.names, Apply(cfg, s, e).names;
    if h :| h in n.final && n.final[h].tag == tag {
      if h in m.final {
        assert m.final[h].tag == tag;
      } else {
        assert m.trash[s.stage.req.cleanup].tag == tag;
      }
    } else {
      var c :| c in n.trash && n.trash[c].tag == tag;
      assert c in m.trash && m.trash[c].tag == tag;
    }
  }

  /** Conservation: a tree disappears only when its tombstone is removed in full or a
      publication takes its public name. */
  lemma {:induction false} TreesConserved(r: Trace, tag: nat, i: nat, j: nat)
    requires IsRun(r) && i <= j <= |r.events| && Has(r.states[i].names, tag)
    requires forall k :: i <= k < j ==>
             !Erases(r.states[k], r.events[k], tag) && !Replaces(r.states[k], r.events[k], tag)
    ensures Has(r.states[j].names, tag)
  {
    if i < j {
      TreesConserved(r, tag, i, j - 1);
      TargetsFree(r, j - 1);
      assert Follows(r, j - 1);
      TreeKept(r.cfg, r.states[j - 1], r.events[j - 1], tag);
    }
  }

  // ----- Only authorised trees are destroyed -----

  /** Event `j` renamed away to tombstone `c`, for cleanup `c`'s own request, which it matched, and while
      the managed-mode, lease and ownership guard held, the tree of which `t` is what is left. */
  ghost predicate Authorised(r: Trace, j: nat, c: string, t: Tree)
    requires Shaped(r) && j < |r.events|
  {
    var s, e := r.states[j], r.events[j];
    && e.Isolate? && s.stage.Isolating? && s.stage.req.cleanup == c && s.stage.req.handle in s.names.final
    && PartOf(t, s.names.final[s.stage.req.handle]) && Matches(r.cfg, s.names.final[s.stage.req.handle], s.stage.req)
    && Allowed(r.cfg, s.guards, s.stage.req, e.now)
  }

  lemma TrashStep(cfg: Config, s: State, e: Event, c: string)
    requires Enabled(cfg, s, e)
    requires c in Apply(cfg, s, e).names.trash
    ensures var t := Apply(cfg, s, e).names.trash[c];
            || (c in s.names.trash && PartOf(t, s.names.trash[c]))
            || (e.Isolate? && Renames(cfg, s, e.now) && s.stage.req.cleanup == c &&
               s.names.final[s.stage.req.handle] == t)
  { }

  lemma {:induction false} TombstoneOrigin(r: Trace, k: nat, c: string) returns (j: nat)
    requires IsRun(r) && k <= |r.events| && c in r.states[k].names.trash
    ensures j < k && Authorised(r, j, c, r.states[k].names.trash[c])
  {
    assert Follows(r, k - 1);
    TrashStep(r.cfg, r.states[k - 1], r.events[k - 1], c);
    var s, t := r.states[k - 1], r.states[k].names.trash[c];
    if c in s.names.trash && PartOf(t, s.names.trash[c]) {
      j := TombstoneOrigin(r, k - 1, c);
    } else {
      j := k - 1;
    }
  }

  /** Cleanup destroys any part of a tree only after that tree matched a request whose
      guard held at the rename. */
  lemma DestroyedOnlyIfAuthorised(r: Trace, k: nat) returns (j: nat)
    requires IsRun(r) && k < |r.events| && r.events[k].Remove?
    ensures r.events[k].cleanup in r.states[k].names.trash
    ensures j < k && Authorised(r, j, r.events[k].cleanup, r.states[k].names.trash[r.events[k].cleanup])
  {
    assert Follows(r, k);
    j := TombstoneOrigin(r, k, r.events[k].cleanup);
  }

  // ----- A tag names one tree -----

  ghost predicate TagsOnce(n: Names, limit: nat) {
    && (forall h :: h in n.final ==> n.final[h].tag < limit)
    && (forall c :: c in n.trash ==> n.trash[c].tag < limit)
    && (forall h, g :: h in n.final && g in n.final && h != g ==> n.final[h].tag != n.final[g].tag)
    && (forall c, d :: c in n.trash && d in n.trash && c != d ==> n.trash[c].tag != n.trash[d].tag)
    && (forall h, c :: h in n.final && c in n.trash ==> n.final[h].tag != n.trash[c].tag)
  }

  lemma TagsPublished(n: Names, limit: nat, h: string, t: Tree)
    requires TagsOnce(n, limit) && t.tag == limit
    ensures TagsOnce(n.(final := n.final[h := t]), limit + 1)
  { }

  lemma TagsMoved(n: Names, limit: nat, h: string, c: string)
    requires TagsOnce(n, limit) && h in n.final
    ensures TagsOnce(Names(n.final - {h}, n.trash[c := n.final[h]]), limit)
  { }

  lemma TagsReduced(n: Names, limit: nat, c: string, rest: Tree)
    requires TagsOnce(n, limit) && c in n.trash && rest.tag == n.trash[c].tag
    ensures TagsOnce(n.(trash := n.trash[c := rest]), limit) && TagsOnce(n.(trash := n.trash - {c}), limit)
  { }

  lemma TagsStep(cfg: Config, s: State, e: Event)
    requires Enabled(cfg, s, e) && TagsOnce(s.names, s.nextTag)
    ensures TagsOnce(Apply(cfg, s, e).names, Apply(cfg, s, e).nextTag)
  {
    match e
    case Publication(h, identity, files) => TagsPublished(s.names, s.nextTag, h, Tree(s.nextTag, identity, files));
    case Isolate(now) =>
      if Renames(cfg, s, now) { TagsMoved(s.names, s.nextTag, s.stage.req.handle, s.stage.req.cleanup); }
    case Remove(c, rest) => TagsReduced(s.names, s.nextTag, c, if rest.Some? then rest.value else s.names.trash[c]);
    case _ =>
  }

  /** No two places ever hold the same tree. */
  lemma {:induction false} TagsUnique(r: Trace, k: nat)
    requires IsRun(r) && k <= |r.events|
    ensures TagsOnce(r.states[k].names, r.states[k].nextTag)
  {
    if k > 0 {
      TagsUnique(r, k - 1);
      assert Follows(r, k - 1);
      TagsStep(r.cfg, r.states[k - 1], r.events[k - 1]);
    }
  }

  // ----- Replacements survive -----

  /** A public name changes only by a publication or by an authorised rename. */
  lemma FinalStep(cfg: Config, s: State, e: Event, h: string)
    requires Enabled(cfg, s, e) && h in s.names.final
    requires !(e.Publication? && e.handle == h)
    requires !(e.Isolate? && Renames(cfg, s, e.now) && s.stage.req.handle == h)
    ensures h in Apply(cfg, s, e).names.final && Apply(cfg, s, e).names.final[h] == s.names.final[h]
  { }

  ghost predicate RequestOf(s: State, req: Request) {
    (s.stage.Checking? || s.stage.Isolating? || s.stage.Removing?) && s.stage.req == req
  }

  /** A tree stays at its public name, whole, through any number of commands it does not
      match, crashes and recoveries, until a later publication replaces it. In particular
      the replica of another snapshot survives every retry of an old command. */
  lemma {:induction false} ReplacementSurvives(r: Trace, h: string, i: nat, j: nat)
    requires IsRun(r) && i <= j <= |r.events| && h in r.states[i].names.final
    requires forall k :: i <= k < j ==> !(r.events[k].Publication? && r.events[k].handle == h)
    requires forall k, req :: i <= k < j && RequestOf(r.states[k], req) ==>
             !Matches(r.cfg, r.states[i].names.final[h], req)
    ensures h in r.states[j].names.final && r.states[j].names.final[h] == r.states[i].names.final[h]
  {
    if i < j {
      ReplacementSurvives(r, h, i, j - 1);
      assert Follows(r, j - 1);
      var s := r.states[j - 1];
      if s.stage.Isolating? { assert RequestOf(s, s.stage.req); }
      FinalStep(r.cfg, s, r.events[j - 1], h);
    }
  }

  /** The same, said of the snapshots: no command for another snapshot can touch it. */
  lemma OtherSnapshotSurvives(r: Trace, h: string, i: nat, j: nat)
    requires IsRun(r) && i <= j <= |r.events| && h in r.states[i].names.final
    requires forall k :: i <= k < j ==> !(r.events[k].Publication? && r.events[k].handle == h)
    requires forall k, req :: i <= k < j && RequestOf(r.states[k], req) ==>
               r.states[i].names.final[h].identity.None? ||
                 r.states[i].names.final[h].identity.value.snapshot != req.snapshot
    ensures h in r.states[j].names.final && r.states[j].names.final[h] == r.states[i].names.final[h]
  {
    ReplacementSurvives(r, h, i, j);
  }

  // ----- The uninterrupted command is one of these interleavings -----

  lemma Extend(r: Trace, e: Event) returns (more: Trace)
    requires IsRun(r) && Enabled(r.cfg, r.states[|r.events|], e)
    ensures IsRun(more) && more.cfg == r.cfg && |more.events| == |r.events| + 1
    ensures more.states[|more.events|] == Apply(r.cfg, r.states[|r.events|], e)
  {
    more := Trace(r.cfg, r.events + [e], r.states + [Apply(r.cfg, r.states[|r.events|], e)]);
    forall k | 0 <= k < |more.events| ensures Follows(more, k) {
      if k < |r.events| { assert Follows(r, k); }
    }
  }

  /** Whatever run leads to an idle Agent, the command run to its end continues it to
      the names that its sequential specification gives. */
  lemma CommandIsRun(r: Trace, req: Request, now: int) returns (more: Trace)
    requires IsRun(r) && r.states[|r.events|].up && r.states[|r.events|].stage == Idle
    ensures IsRun(more) && more.states[|more.events|].names ==
            DeleteSpec(r.cfg, r.states[|r.events|].names, r.states[|r.events|].guards, req, now).0
  {
    more := r;
    var s := r.states[|r.events|];
    if ValidRequest(r.cfg, req) {
      more := Extend(more, Begin(req));
      more := Extend(more, Inspect);
      var stage := InspectStage(r.cfg, s.names, req);
      if stage.Isolating? { more := FinishIsolated(more, s, req, now); }
      if stage.Removing? { more := Extend(more, Remove(req.cleanup, None)); }
    }
  }

  lemma FinishIsolated(r: Trace, s: State, req: Request, now: int) returns (more: Trace)
    requires IsRun(r) && r.states[|r.events|] == s.(stage := Isolating(req))
    requires req.cleanup !in s.names.trash && req.handle in s.names.final &&
             Matches(r.cfg, s.names.final[req.handle], req)
    ensures IsRun(more)
    ensures more.states[|more.events|].names ==
            if Allowed(r.cfg, s.guards, req, now) then s.names.(final := s.names.final - {req.handle}) else s.names
  {
    more := Extend(r, Isolate(now));
    if Allowed(r.cfg, s.guards, req, now) {
      more := Extend(more, Remove(req.cleanup, None));
      assert s.names.trash[req.cleanup := s.names.final[req.handle]] - {req.cleanup} == s.names.trash;
    }
  }
}
