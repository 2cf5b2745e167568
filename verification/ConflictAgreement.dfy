/** The Controller's validator and the Agent's builder agree. */
module ConflictAgreement {
  import opened ArchivePath
  import opened ConflictChoices
  import opened ConflictFiles
  import opened ConflictMerge
  import opened ConflictMergeTheorems
  import Formats
  import Text

  // ----- Which paths accept a decision -----

  lemma {:induction false} DecisionMapShared(items: seq<Decision>, choice: Decision, k: nat)
    requires k <= |items|
    ensures DecisionMapOf(items + [choice], k) == DecisionMapOf(items, k)
  {
    if k > 0 { DecisionMapShared(items, choice, k - 1); }
  }

  lemma DecisionMapAppend(items: seq<Decision>, choice: Decision)
    ensures DecisionMap(items + [choice]) == DecisionMap(items)[choice.path := choice]
  {
    DecisionMapShared(items, choice, |items|);
  }

  lemma OthersDecided(e: Evidence, base: int, decisions: map<string, Decision>, choice: Decision, p: string)
    requires p != choice.path
    ensures PathDecided(e, base, decisions[choice.path := choice], p) == PathDecided(e, base, decisions, p)
  { }

  lemma AllDecidedWithOne(e: Evidence, base: int, decisions: map<string, Decision>, choice: Decision)
    requires AllDecided(e, base, decisions) && choice.path !in decisions
    ensures AllDecided(e, base, decisions[choice.path := choice]) <==>
            choice.path in Union(e) && |Versions(e, choice.path)| > 1 && Holds(e, choice.source, choice.path)
  {
    var more := decisions[choice.path := choice];
    forall p | p in Union(e) && p != choice.path ensures PathDecided(e, base, more, p) {
      OthersDecided(e, base, decisions, choice, p);
    }
    assert PathDecided(e, base, more, choice.path) <==>
           |Versions(e, choice.path)| > 1 && Holds(e, choice.source, choice.path);
    assert choice.path in more;
  }

  /** One more well-formed choice is accepted exactly when its path is shown as
      different at the same path and the chosen source holds it. */
  lemma DecidableIffShown(e: Evidence, compute: set<int>, base: int, items: seq<Decision>, choice: Decision,
      paths: seq<string>)
    requires Text.IsListing(paths, Union(e)) && ValidChoices(e, compute, base, items)
    requires WellFormedChoice(choice) && choice.path !in DecisionMap(items)
    ensures ValidChoices(e, compute, base, items + [choice]) <==>
            DifferentAtSamePath(choice.path) in DifferencesAt(e, paths) && Holds(e, choice.source, choice.path)
  {
    var more := items + [choice];
    DifferentMeansSeveral(e, paths, choice.path);
    DecisionMapAppend(items, choice);
    AllDecidedWithOne(e, base, DecisionMap(items), choice);
    DecisionMapHolds(items);
    assert DistinctPaths(more) by {
      forall i, j | 0 <= i < j < |more| ensures more[i].path != more[j].path {
        assert more[i] == items[i] && items[i] in items;
        if j < |items| { assert more[j] == items[j]; }
      }
    }
  }

  // ----- Accepted choices build -----

  /** What the evidence checks guarantee of the manifests and the plan checks of the conflict. */
  ghost predicate Checked(m: Merge) {
    && Indexed(m.evidence) && Formats.ValidUuid(m.conflictId)
    && (forall n :: n in m.evidence.nodes ==> n > 0)
    && forall p :: p in Union(m.evidence) ==> SafeArchivePath(p) && p != "."
  }

  ghost predicate GoodActions(decisions: map<string, Decision>) {
    forall p :: p in decisions ==> KnownAction(decisions[p].action)
  }

  lemma ChoiceSucceeds(m: Merge, path: string)
    requires path in Union(m.evidence) && GoodActions(m.decisions)
    requires PathDecided(m.evidence, m.base, m.decisions, path)
    ensures Choose(m, path).Ok? && Holds(m.evidence, Choose(m, path).value, path)
  {
    VersionsExist(m.evidence, path);
    if Present(m.evidence, path) != [] {
      PresentHeld(m.evidence, path, |m.evidence.nodes|, Present(m.evidence, path)[0]);
    }
  }

  lemma {:induction false} SearchOnlyExhausts(conflictId: string, node: int, original: string, reserved: set<string>,
      k: nat)
    requires Formats.ValidUuid(conflictId) && node > 0 && SafeArchivePath(original) && original != "." &&
             k <= MAX_SUFFIX
    ensures var r := FirstFree(conflictId, node, original, reserved, k); r.Kept? || r == Refused(Collision)
    decreases MAX_SUFFIX - k
  {
    if k < MAX_SUFFIX {
      CandidateSafe(conflictId, node, original, k);
      SearchOnlyExhausts(conflictId, node, original, reserved, k + 1);
    }
  }

  predicate IsTaken(conflictId: string, node: int, original: string, reserved: set<string>, k: nat) {
    Candidate(conflictId, node, original, k) in reserved
  }

  ghost predicate AllTaken(conflictId: string, node: int, original: string, reserved: set<string>, k: nat) {
    forall j :: k <= j < MAX_SUFFIX ==> IsTaken(conflictId, node, original, reserved, j)
  }

  lemma {:induction false} SearchFailsFrom(conflictId: string, node: int, original: string, reserved: set<string>,
      k: nat)
    requires Formats.ValidUuid(conflictId) && node > 0 && SafeArchivePath(original) && original != "." &&
             k <= MAX_SUFFIX
    ensures FirstFree(conflictId, node, original, reserved, k) == Refused(Collision) <==>
            AllTaken(conflictId, node, original, reserved, k)
    decreases MAX_SUFFIX - k
  {
    if k < MAX_SUFFIX {
      CandidateSafe(conflictId, node, original, k);
      SearchFailsFrom(conflictId, node, original, reserved, k + 1);
      assert AllTaken(conflictId, node, original, reserved, k) <==>
             IsTaken(conflictId, node, original, reserved, k) && AllTaken(conflictId, node, original, reserved, k + 1);
    }
  }

  /** For a safe original the search fails exactly when all its candidates are taken. */
  lemma SearchFailsIff(conflictId: string, node: int, original: string, reserved: set<string>)
    requires Formats.ValidUuid(conflictId) && node > 0 && SafeArchivePath(original) && original != "."
    ensures !PreservedPath(conflictId, node, original, reserved).Kept? <==>
            AllTaken(conflictId, node, original, reserved, 0)
  {
    SearchOnlyExhausts(conflictId, node, original, reserved, 0);
    SearchFailsFrom(conflictId, node, original, reserved, 0);
  }

  ghost predicate Settled<T>(r: Result<T>) {
    r.Ok? || r == Err(NoPreservedPath(Collision))
  }

  lemma {:induction false} PreserveSettles(m: Merge, path: string, i: nat, kept: set<string>, d: Draft)
    requires Checked(m) && path in Union(m.evidence) && i <= |m.evidence.nodes|
    ensures Settled(PreserveFrom(m, path, i, kept, d))
    decreases |m.evidence.nodes| - i
  {
    if i < |m.evidence.nodes| {
      var node := m.evidence.nodes[i];
      assert node in m.evidence.nodes;
      SearchOnlyExhausts(m.conflictId, node, path, d.reserved, 0);
      var step := PreserveOne(m, path, i, kept, d);
      if step.Ok? { PreserveSettles(m, path, i + 1, step.value.1, step.value.0); }
    }
  }

  lemma {:induction false} MergeSettles(m: Merge, paths: seq<string>, d: Draft)
    requires Checked(m) && GoodActions(m.decisions)
    requires forall p :: p in paths ==> p in Union(m.evidence) && PathDecided(m.evidence, m.base, m.decisions, p)
    ensures Settled(MergeFrom(m, paths, d))
  {
    if paths != [] {
      var path := paths[0];
      assert path in paths;
      ChoiceSucceeds(m, path);
      var node := Choose(m, path).value;
      PreserveSettles(m, path, 0, {Version(Lookup(m.evidence, node, path))}, AddChosen(m, path, node, d));
      var step := MergePath(m, path, d);
      if step.Ok? { MergeSettles(m, paths[1..], step.value); }
    }
  }

  lemma AcceptedMap(e: Evidence, compute: set<int>, base: int, items: seq<Decision>)
    requires ValidChoices(e, compute, base, items)
    ensures GoodActions(DecisionMap(items)) && |Union(e) * DecisionMap(items).Keys| == |items|
  {
    DecisionMapHolds(items);
    assert Union(e) * DecisionMap(items).Keys == DecisionMap(items).Keys;
  }

  /** Choices the Controller accepts make the Agent's selection succeed and use
      every decision, unless the suffix search for a preserved path runs out. */
  lemma ValidatorImpliesBuilder(m: Merge, compute: set<int>, items: seq<Decision>, paths: seq<string>)
    requires Checked(m) && Text.IsListing(paths, Union(m.evidence))
    requires ValidChoices(m.evidence, compute, m.base, items) && m.decisions == DecisionMap(items)
    ensures Settled(Select(m, paths))
    ensures Select(m, paths).Ok? ==> Select(m, paths).value.used == |items|
  {
    AcceptedMap(m.evidence, compute, m.base, items);
    MergeSettles(m, paths, Draft([], Union(m.evidence), 0));
    if Select(m, paths).Ok? { Conservation(m, paths); }
  }
}
