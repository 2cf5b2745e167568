/** Per-file decisions go to the Agent in pages of at most one hundred and are
    read back as one map. */
module DecisionPages {
  import opened ArchivePath
  import opened ConflictAgreement
  import opened ConflictChoices
  import opened ConflictFiles
  import opened ConflictMerge
  import opened DecisionText
  import opened Basics
  import Text

  const PAGE_SIZE: nat := 100

  function PageCount(n: nat): nat {
    (n + 99) / 100
  }

  function PageEnd(n: nat, k: nat): nat {
    if k * PAGE_SIZE <= n then k * PAGE_SIZE else n
  }

  /** The decisions of page `k`. */
  function PageOf(decisions: seq<Decision>, k: nat): seq<Decision> {
    decisions[PageEnd(|decisions|, k)..PageEnd(|decisions|, k + 1)]
  }

  datatype Plan = Plan(base: int, pageCount: nat, count: nat, nodes: seq<int>)

  const MAX_PAGES: nat := 1000
  const MAX_DECISIONS: nat := 100_000
  const MAX_SOURCES: nat := 20

  ghost predicate SourcesAccepted(base: int, nodes: seq<int>) {
    && 2 <= |nodes| <= MAX_SOURCES && base in nodes && (forall i :: 0 <= i < |nodes| ==> nodes[i] > 0)
    && forall i, j :: 0 <= i < j < |nodes| ==> nodes[i] != nodes[j]
  }

  /** What `prepareConflictResolution` demands of the plan. */
  ghost predicate PlanAccepted(plan: Plan) {
    plan.pageCount <= MAX_PAGES && (plan.count == 0 <==> plan.pageCount == 0) && SourcesAccepted(plan.base, plan.nodes)
  }

  method PreparePlan(plan: Plan) returns (ok: bool)
    ensures ok <==> PlanAccepted(plan)
  {
    if plan.pageCount > MAX_PAGES || (plan.count == 0) != (plan.pageCount == 0) { return false; }
    if |plan.nodes| < 2 || |plan.nodes| > MAX_SOURCES { return false; }
    var seen: set<int>, hasBase := {}, false;
    for k := 0 to |plan.nodes|
      invariant (forall i :: 0 <= i < k ==> plan.nodes[i] > 0) && forall i, j :: 0 <= i < j < k ==>
                plan.nodes[i] != plan.nodes[j]
      invariant forall n :: n in seen <==> exists i :: 0 <= i < k && plan.nodes[i] == n
      invariant hasBase <==> plan.base in seen
    {
      var node := plan.nodes[k];
      if node <= 0 || node in seen { return false; }
      seen := seen + {node};
      hasBase := hasBase || node == plan.base;
    }
    return hasBase;
  }

  /** The page bound of the plan is the decision bound of the request: neither is tighter. */
  lemma PlanAcceptedIff(base: int, n: nat, nodes: seq<int>)
    requires SourcesAccepted(base, nodes)
    ensures PlanAccepted(Plan(base, PageCount(n), n, nodes)) <==> n <= MAX_DECISIONS
  { }

  /** What both the Agent's page writer and its reader demand of a decision. */
  predicate StoredDecision(d: Decision) {
    SafeArchivePath(d.path) && d.source > 0 && KnownAction(d.action)
  }

  predicate AppliedDecision(plan: Plan, d: Decision) {
    SafeArchivePath(d.path) && d.source in plan.nodes && KnownAction(d.action)
  }

  ghost predicate PageApplies(plan: Plan, index: int, page: seq<Decision>) {
    && 0 <= index < plan.pageCount && 0 < |page| <= PAGE_SIZE
    && (forall d :: d in page ==> AppliedDecision(plan, d)) && DistinctPaths(page)
  }

  /** The page files of one plan. */
  class PlanDirectory {
    const plan: Plan
    var pages: map<int, seq<Decision>>

    constructor (plan: Plan)
      ensures this.plan == plan && pages == map[]
    {
      this.plan, this.pages := plan, map[];
    }

    /** `applyConflictResolutionDecisions`: a page once written is never changed. */
    method Apply(index: int, page: seq<Decision>) returns (ok: bool)
      modifies this
      ensures ok <==> PageApplies(plan, index, page) && (index in old(pages) ==> old(pages)[index] == page)
      ensures pages == if ok then old(pages)[index := page] else old(pages)
    {
      if index < 0 || |page| == 0 || |page| > PAGE_SIZE || index >= plan.pageCount { return false; }
      var good := CheckPage(plan, page);
      if !good { return false; }
      if index in pages {
        assert pages[index] == page ==> pages[index := page] == pages;
        return pages[index] == page;
      }
      pages := pages[index := page];
      return true;
    }
  }

  method CheckPage(plan: Plan, page: seq<Decision>) returns (ok: bool)
    ensures ok <==> (forall d :: d in page ==> AppliedDecision(plan, d)) && DistinctPaths(page)
  {
    var seen: set<string> := {};
    for k := 0 to |page|
      invariant (forall i :: 0 <= i < k ==> AppliedDecision(plan, page[i])) && DistinctBefore(page, k)
      invariant forall p :: p in seen <==> exists i :: 0 <= i < k && page[i].path == p
    {
      var d := page[k];
      if !AppliedDecision(plan, d) {
        assert d in page;
        return false;
      }
      if d.path in seen {
        ghost var i :| 0 <= i < k && page[i].path == d.path;
        assert page[i].path == page[k].path;
        return false;
      }
      seen := seen + {d.path};
    }
    return true;
  }

  // ----- Sending -----

  /** Pages already written by an earlier attempt are the pages of the same decisions. */
  ghost predicate WrittenBy(pages: map<int, seq<Decision>>, decisions: seq<Decision>, k: nat) {
    && (forall i :: i in pages ==> 0 <= i < PageCount(|decisions|) && pages[i] == PageOf(decisions, i))
    && forall i :: 0 <= i < k ==> i in pages
  }

  ghost predicate Sendable(plan: Plan, decisions: seq<Decision>) {
    && plan.pageCount == PageCount(|decisions|) && plan.count == |decisions|
    && (forall d :: d in decisions ==> AppliedDecision(plan, d)) && DistinctPaths(decisions)
  }

  lemma PageSizes(n: nat, k: nat)
    requires k < PageCount(n)
    ensures PageEnd(n, k) == k * PAGE_SIZE && PageEnd(n, k) < PageEnd(n, k + 1) <= PageEnd(n, k) + PAGE_SIZE
    ensures PageEnd(n, k + 1) <= n
  { }

  lemma PagesApply(plan: Plan, decisions: seq<Decision>, k: nat)
    requires Sendable(plan, decisions) && k < plan.pageCount
    ensures PageApplies(plan, k, PageOf(decisions, k))
  {
    PageSizes(|decisions|, k);
    var page, start := PageOf(decisions, k), PageEnd(|decisions|, k);
    forall i, j | 0 <= i < j < |page| ensures page[i].path != page[j].path {
      assert page[i] == decisions[start + i] && page[j] == decisions[start + j];
    }
  }

  /** The command with page `k` reaches the Agent; `stamps` gives the sizes of the fields that vary. */
  predicate Delivered(decisions: seq<Decision>, stamps: int -> nat, k: nat) {
    Arrives(k, PageOf(decisions, k), stamps(k))
  }

  ghost predicate AllDelivered(decisions: seq<Decision>, stamps: int -> nat, k: nat) {
    forall i :: 0 <= i < k ==> Delivered(decisions, stamps, i)
  }

  /** The Controller's loop, also when an earlier attempt stopped half way. A page whose command
      does not arrive is never applied. */
  method SendPages(directory: PlanDirectory, decisions: seq<Decision>, stamps: int -> nat) returns (ok: bool)
    requires Sendable(directory.plan, decisions) && WrittenBy(directory.pages, decisions, 0)
    modifies directory
    ensures ok <==> AllDelivered(decisions, stamps, directory.plan.pageCount)
    ensures WrittenBy(directory.pages, decisions, if ok then directory.plan.pageCount else 0)
  {
    var pageCount := (|decisions| + 99) / 100;
    for k := 0 to pageCount
      invariant WrittenBy(directory.pages, decisions, k) && AllDelivered(decisions, stamps, k)
    {
      PageSizes(|decisions|, k);
      PagesApply(directory.plan, decisions, k);
      var start := k * 100;
      var end := if start + 100 < |decisions| then start + 100 else |decisions|;
      if !Arrives(k, decisions[start..end], stamps(k)) {
        assert !Delivered(decisions, stamps, k);
        return false;
      }
      ok := directory.Apply(k, decisions[start..end]);
      assert ok;
    }
    ok := true;
  }

  // ----- Reading back -----

  function AllDecisions(pages: map<int, seq<Decision>>, k: nat): seq<Decision>
    requires forall i :: 0 <= i < k ==> i in pages
  {
    if k == 0 then [] else AllDecisions(pages, k - 1) + pages[k - 1]
  }

  ghost predicate PagesPresent(pages: map<int, seq<Decision>>, fits: seq<Decision> -> bool, k: nat) {
    forall i :: 0 <= i < k ==> i in pages && 0 < |pages[i]| <= PAGE_SIZE && fits(pages[i])
  }

  /** Decisions the reader can put into one map. */
  ghost predicate Sound(decisions: seq<Decision>) {
    (forall d :: d in decisions ==> StoredDecision(d)) && DistinctPaths(decisions)
  }

  /** The pages can be read when `fits` accepts the size of each. */
  ghost predicate ReadableIf(plan: Plan, pages: map<int, seq<Decision>>, fits: seq<Decision> -> bool) {
    && PagesPresent(pages, fits, plan.pageCount)
    && Sound(AllDecisions(pages, plan.pageCount)) && |AllDecisions(pages, plan.pageCount)| == plan.count
  }

  ghost predicate Readable(plan: Plan, pages: map<int, seq<Decision>>) {
    ReadableIf(plan, pages, PageFits)
  }

  lemma {:induction false} DecisionMapAgrees(a: seq<Decision>, b: seq<Decision>, k: nat)
    requires k <= |a|
    ensures DecisionMapOf(a + b, k) == DecisionMapOf(a, k)
    ensures DistinctBefore(a, k) <==> DistinctBefore(a + b, k)
  {
    if k > 0 { DecisionMapAgrees(a, b, k - 1); }
    assert forall i :: 0 <= i < k ==> (a + b)[i] == a[i];
  }

  lemma {:induction false} AllDecisionsPrefix(pages: map<int, seq<Decision>>, j: nat, k: nat)
    requires j <= k && forall i :: 0 <= i < k ==> i in pages
    ensures AllDecisions(pages, j) <= AllDecisions(pages, k)
  {
    if j < k { AllDecisionsPrefix(pages, j, k - 1); }
  }

  lemma SoundPrefix(a: seq<Decision>, b: seq<Decision>)
    requires a <= b && Sound(b)
    ensures Sound(a)
  {
    assert forall i :: 0 <= i < |a| ==> a[i] == b[i] && b[i] in b;
  }

  /** What the reader's two tests say of the next decision. */
  lemma SoundStep(s: seq<Decision>, d: Decision)
    requires Sound(s)
    ensures Sound(s + [d]) <==> StoredDecision(d) && d.path !in DecisionMap(s)
    ensures DecisionMap(s + [d]) == DecisionMap(s)[d.path := d]
  {
    var t := s + [d];
    DecisionMapAgrees(s, [d], |s|);
    RepeatDetected(t, |s|);
    assert t[|s|] == d && d in t;
    assert forall e :: e in t <==> e in s || e == d;
  }

  /** Adds one page to the map read so far; false when a decision is invalid or repeated. */
  method AddPage(ghost before: seq<Decision>, known: map<string, Decision>, page: seq<Decision>)
    returns (ok: bool, out: map<string, Decision>)
    requires Sound(before) && known == DecisionMap(before)
    ensures ok <==> Sound(before + page)
    ensures ok ==> out == DecisionMap(before + page)
  {
    out := known;
    assert before + page[..0] == before;
    for k := 0 to |page|
      invariant Sound(before + page[..k]) && out == DecisionMap(before + page[..k])
    {
      var d := page[k];
      SoundStep(before + page[..k], d);
      assert before + page[..k] + [d] == before + page[..k + 1];
      if !StoredDecision(d) || d.path in out {
        if Sound(before + page) { SoundPrefix(before + page[..k + 1], before + page); }
        return false, map[];
      }
      out := out[d.path := d];
    }
    assert page[..|page|] == page;
    ok := true;
  }

  method ReadFitting(plan: Plan, pages: map<int, seq<Decision>>, fits: seq<Decision> -> bool)
    returns (r: Option<map<string, Decision>>)
    ensures r.Some? <==> ReadableIf(plan, pages, fits)
    ensures r.Some? ==> r.value == DecisionMap(AllDecisions(pages, plan.pageCount))
  {
    var out, count := map[], 0;
    for k := 0 to plan.pageCount
      invariant PagesPresent(pages, fits, k) && Sound(AllDecisions(pages, k))
      invariant out == DecisionMap(AllDecisions(pages, k)) && count == |AllDecisions(pages, k)|
    {
      if k !in pages || !fits(pages[k]) || |pages[k]| == 0 || |pages[k]| > PAGE_SIZE { return None; }
      var ok, more := AddPage(AllDecisions(pages, k), out, pages[k]);
      if !ok {
        if ReadableIf(plan, pages, fits) {
          AllDecisionsPrefix(pages, k + 1, plan.pageCount);
          SoundPrefix(AllDecisions(pages, k + 1), AllDecisions(pages, plan.pageCount));
        }
        return None;
      }
      out, count := more, count + |pages[k]|;
    }
    if count != plan.count { return None; }
    return Some(out);
  }

  /** `readConflictResolutionDecisions`. */
  method ReadDecisions(plan: Plan, pages: map<int, seq<Decision>>) returns (r: Option<map<string, Decision>>)
    ensures r.Some? <==> Readable(plan, pages)
    ensures r.Some? ==> r.value == DecisionMap(AllDecisions(pages, plan.pageCount))
  {
    r := ReadFitting(plan, pages, PageFits);
  }

  // ----- The round trip -----

  lemma {:induction false} AllDecisionsSplit(pages: map<int, seq<Decision>>, decisions: seq<Decision>, k: nat)
    requires WrittenBy(pages, decisions, PageCount(|decisions|)) && k <= PageCount(|decisions|)
    ensures AllDecisions(pages, k) == decisions[..PageEnd(|decisions|, k)]
  {
    if k > 0 {
      AllDecisionsSplit(pages, decisions, k - 1);
      PageSizes(|decisions|, k - 1);
      assert decisions[..PageEnd(|decisions|, k - 1)] + PageOf(decisions, k - 1) ==
             decisions[..PageEnd(|decisions|, k)];
    }
  }

  lemma LastPageEnds(n: nat)
    ensures PageEnd(n, PageCount(n)) == n
  { }

  /** Pages that were all delivered join to the original decisions and can be read back. */
  lemma DecisionRoundTrip(plan: Plan, pages: map<int, seq<Decision>>, decisions: seq<Decision>, stamps: int -> nat)
    requires PlanAccepted(plan) && Sendable(plan, decisions) && WrittenBy(pages, decisions, plan.pageCount)
    requires AllDelivered(decisions, stamps, plan.pageCount)
    ensures AllDecisions(pages, plan.pageCount) == decisions && Readable(plan, pages)
  {
    AllDecisionsSplit(pages, decisions, plan.pageCount);
    LastPageEnds(|decisions|);
    assert decisions[..|decisions|] == decisions;
    forall d | d in decisions ensures StoredDecision(d) {
      var i :| 0 <= i < |plan.nodes| && plan.nodes[i] == d.source;
    }
    forall i | 0 <= i < plan.pageCount ensures 0 < |pages[i]| <= PAGE_SIZE && PageFits(pages[i]) {
      PageSizes(|decisions|, i);
      assert Delivered(decisions, stamps, i);
      ArrivedFits(i, PageOf(decisions, i), stamps(i));
    }
  }

  /** Sending and reading back: the Agent ends up with the Controller's decisions if and only if
      the command of every page arrives. */
  method SendAndRead(directory: PlanDirectory, decisions: seq<Decision>, stamps: int -> nat)
    returns (r: Option<map<string, Decision>>)
    requires PlanAccepted(directory.plan) && Sendable(directory.plan, decisions) &&
             WrittenBy(directory.pages, decisions, 0)
    modifies directory
    ensures r.Some? <==> AllDelivered(decisions, stamps, directory.plan.pageCount)
    ensures r.Some? ==> r.value == DecisionMap(decisions)
  {
    var sent := SendPages(directory, decisions, stamps);
    if !sent { return None; }
    DecisionRoundTrip(directory.plan, directory.pages, decisions, stamps);
    r := ReadDecisions(directory.plan, directory.pages);
  }

  /** Decisions of at most 7858 bytes of text are always delivered. */
  lemma ShortDecisionsDelivered(decisions: seq<Decision>, stamps: int -> nat)
    requires |decisions| <= MAX_DECISIONS && forall d :: d in decisions ==> DecisionLength(d) <= 7858
    requires forall k :: stamps(k) <= MAX_STAMP
    ensures AllDelivered(decisions, stamps, PageCount(|decisions|))
  {
    forall k | 0 <= k < PageCount(|decisions|) ensures Delivered(decisions, stamps, k) {
      PageSizes(|decisions|, k);
      ShortArrives(k, PageOf(decisions, k), stamps(k));
    }
  }

  /** Decisions the Controller accepted are sendable to the Agent holding the evidence, and the
      plan that announces them is accepted exactly when the request kept to its own limit. */
  lemma AcceptedSendable(m: Merge, compute: set<int>, items: seq<Decision>, sorted: seq<Decision>)
    requires Checked(m) && ValidChoices(m.evidence, compute, m.base, items) && SourcesAccepted(m.base, m.evidence.nodes)
    requires DecisionMap(sorted) == DecisionMap(items) && Text.Ascending(ChoicePaths(sorted))
    ensures var plan := Plan(m.base, PageCount(|sorted|), |sorted|, m.evidence.nodes);
            Sendable(plan, sorted) && (PlanAccepted(plan) <==> |items| <= MAX_DECISIONS)
  {
    AscendingDistinct(sorted);
    DecisionMapHolds(sorted);
    DecisionMapHolds(items);
    PlanAcceptedIff(m.base, |sorted|, m.evidence.nodes);
    forall d | d in sorted ensures AppliedDecision(Plan(m.base, PageCount(|sorted|), |sorted|, m.evidence.nodes), d) {
      assert d.path in DecisionMap(items) && d in items;
      assert d.path in Union(m.evidence) && PathDecided(m.evidence, m.base, DecisionMap(items), d.path);
    }
  }

  // ----- What the writer's checks are worth to the reader -----

  /** Every page there was accepted by `applyConflictResolutionDecisions`, and arrived. */
  ghost predicate AllApplied(plan: Plan, pages: map<int, seq<Decision>>) {
    forall i :: i in pages ==> PageApplies(plan, i, pages[i]) && PageFits(pages[i])
  }

  ghost predicate Complete(plan: Plan, pages: map<int, seq<Decision>>) {
    forall i :: 0 <= i < plan.pageCount ==> i in pages
  }

  lemma {:induction false} AppliedStored(plan: Plan, pages: map<int, seq<Decision>>, k: nat)
    requires AllApplied(plan, pages) && k <= plan.pageCount && Complete(plan, pages)
    requires forall i :: 0 <= i < |plan.nodes| ==> plan.nodes[i] > 0
    ensures forall d :: d in AllDecisions(pages, k) ==> StoredDecision(d)
  {
    if k > 0 {
      AppliedStored(plan, pages, k - 1);
      assert PageApplies(plan, k - 1, pages[k - 1]);
      forall d | d in AllDecisions(pages, k) ensures StoredDecision(d) {
        if d !in AllDecisions(pages, k - 1) { assert d in pages[k - 1] && AppliedDecision(plan, d); }
      }
    }
  }

  /** Pages that were each accepted when written are read back if and only if none is missing, no path
      is decided in two of them and their decisions are as many as the plan says. */
  lemma AppliedReadableIff(plan: Plan, pages: map<int, seq<Decision>>)
    requires AllApplied(plan, pages) && SourcesAccepted(plan.base, plan.nodes)
    ensures Readable(plan, pages) <==>
            Complete(plan, pages) && DistinctPaths(AllDecisions(pages, plan.pageCount)) &&
              |AllDecisions(pages, plan.pageCount)| == plan.count
  {
    if Complete(plan, pages) {
      AppliedStored(plan, pages, plan.pageCount);
      forall i | 0 <= i < plan.pageCount ensures 0 < |pages[i]| <= PAGE_SIZE && PageFits(pages[i]) {
        assert PageApplies(plan, i, pages[i]);
      }
    }
  }

  /** And a decision that is read names a source of the plan. */
  lemma {:induction false} ReadNamesSource(plan: Plan, pages: map<int, seq<Decision>>, k: nat, d: Decision)
    requires AllApplied(plan, pages) && k <= plan.pageCount && Complete(plan, pages) && d in AllDecisions(pages, k)
    ensures d.source in plan.nodes && SafeArchivePath(d.path) && d.action in {"use_source", "preserve_both"}
  {
    assert PageApplies(plan, k - 1, pages[k - 1]);
    if d in pages[k - 1] {
      assert AppliedDecision(plan, d);
    } else {
      ReadNamesSource(plan, pages, k - 1, d);
    }
  }
}
