/** The Controller's side of a conflict: the differences it shows and the
    per-file choices it accepts. */
module ConflictChoices {
  import opened ConflictFiles
  import opened ConflictMerge
  import Formats
  import Sets
  import Text

  /** What the request checks of a single choice. */
  predicate WellFormedChoice(d: Decision) {
    d.path != "" && |d.path| <= Formats.MAX_PATH_BYTES && d.source > 0 && KnownAction(d.action)
  }

  function DecisionMapOf(items: seq<Decision>, k: nat): map<string, Decision>
    requires k <= |items|
  {
    if k == 0 then map[] else DecisionMapOf(items, k - 1)[items[k - 1].path := items[k - 1]]
  }

  /** The decisions keyed by path. */
  function DecisionMap(items: seq<Decision>): map<string, Decision> {
    DecisionMapOf(items, |items|)
  }

  ghost predicate DistinctBefore(items: seq<Decision>, k: nat)
    requires k <= |items|
  {
    forall i, j :: 0 <= i < j < k ==> items[i].path != items[j].path
  }

  ghost predicate DistinctPaths(items: seq<Decision>) {
    DistinctBefore(items, |items|)
  }

  /** What the request checks of one path of the sources. */
  predicate PathDecided(e: Evidence, base: int, decisions: map<string, Decision>, path: string) {
    if |Versions(e, path)| <= 1 then path !in decisions
    else if path in decisions then Holds(e, decisions[path].source, path)
    else Holds(e, base, path)
  }

  ghost predicate AllDecided(e: Evidence, base: int, decisions: map<string, Decision>) {
    && (forall p :: p in Union(e) ==> PathDecided(e, base, decisions, p))
    && forall p :: p in decisions ==> p in Union(e)
  }

  ghost predicate ValidChoices(e: Evidence, compute: set<int>, base: int, items: seq<Decision>) {
    && base in e.nodes && base in compute
    && (forall d :: d in items ==> WellFormedChoice(d)) && DistinctPaths(items)
    && AllDecided(e, base, DecisionMap(items))
  }

  lemma {:induction false} DecisionMapKeys(items: seq<Decision>, k: nat, p: string)
    requires k <= |items|
    ensures p in DecisionMapOf(items, k) <==> exists i :: 0 <= i < k && items[i].path == p
  {
    if k > 0 { DecisionMapKeys(items, k - 1, p); }
  }

  lemma {:induction false} DecisionMapValue(items: seq<Decision>, i: nat, k: nat)
    requires i < k <= |items| && DistinctBefore(items, k)
    ensures items[i].path in DecisionMapOf(items, k) && DecisionMapOf(items, k)[items[i].path] == items[i]
  {
    if i < k - 1 { DecisionMapValue(items, i, k - 1); }
  }

  lemma {:induction false} DecisionMapSize(items: seq<Decision>, k: nat)
    requires k <= |items| && DistinctBefore(items, k)
    ensures |DecisionMapOf(items, k)| == k
  {
    if k > 0 {
      DecisionMapSize(items, k - 1);
      DecisionMapKeys(items, k - 1, items[k - 1].path);
    }
  }

  /** Looking the next path up in the map tells whether it repeats an earlier one. */
  lemma RepeatDetected(items: seq<Decision>, k: nat)
    requires k < |items| && DistinctBefore(items, k)
    ensures items[k].path in DecisionMapOf(items, k) <==> !DistinctBefore(items, k + 1)
  {
    DecisionMapKeys(items, k, items[k].path);
    if items[k].path in DecisionMapOf(items, k) {
      var i :| 0 <= i < k && items[i].path == items[k].path;
      assert !DistinctBefore(items, k + 1);
    }
  }

  lemma DecisionMapHolds(items: seq<Decision>)
    requires DistinctPaths(items)
    ensures forall d :: d in items ==> d.path in DecisionMap(items) && DecisionMap(items)[d.path] == d
    ensures forall p :: p in DecisionMap(items) ==> DecisionMap(items)[p] in items && DecisionMap(items)[p].path == p
    ensures |DecisionMap(items)| == |items|
  {
    DecisionMapSize(items, |items|);
    forall d | d in items ensures d.path in DecisionMap(items) && DecisionMap(items)[d.path] == d {
      var i :| 0 <= i < |items| && items[i] == d;
      DecisionMapValue(items, i, |items|);
    }
    forall p | p in DecisionMap(items) ensures DecisionMap(items)[p] in items && DecisionMap(items)[p].path == p {
      DecisionMapKeys(items, |items|, p);
      var i :| 0 <= i < |items| && items[i].path == p;
      DecisionMapValue(items, i, |items|);
    }
  }

  // ----- The validator -----

  method IndexChoices(items: seq<Decision>) returns (ok: bool, decisions: map<string, Decision>)
    ensures ok <==> (forall d :: d in items ==> WellFormedChoice(d)) && DistinctPaths(items)
    ensures ok ==> decisions == DecisionMap(items)
  {
    ok, decisions := true, map[];
    for k := 0 to |items|
      invariant ok && (forall i :: 0 <= i < k ==> WellFormedChoice(items[i])) && DistinctBefore(items, k)
      invariant decisions == DecisionMapOf(items, k)
    {
      var d := items[k];
      if !WellFormedChoice(d) {
        assert d in items;
        return false, map[];
      }
      RepeatDetected(items, k);
      if d.path in decisions { return false, map[]; }
      decisions := decisions[d.path := d];
    }
  }

  method CheckPaths(e: Evidence, base: int, decisions: map<string, Decision>, all: set<string>) returns (ok: bool)
    ensures ok <==> forall p :: p in all ==> PathDecided(e, base, decisions, p)
  {
    var remaining := all;
    while remaining != {}
      invariant remaining <= all && forall p :: p in all - remaining ==> PathDecided(e, base, decisions, p)
      decreases remaining
    {
      ghost var some := Sets.Pick(remaining);
      var path: string :| path in remaining;
      var versions, present := CollectVersions(e, path);
      var accepted;
      if |versions| <= 1 {
        accepted := path !in decisions;
      } else if path in decisions {
        accepted := Holds(e, decisions[path].source, path);
      } else {
        accepted := Holds(e, base, path);
      }
      if !accepted {
        assert path in all && !PathDecided(e, base, decisions, path);
        return false;
      }
      remaining := remaining - {path};
    }
    return true;
  }

  method CheckKnown(decisions: map<string, Decision>, all: set<string>) returns (ok: bool)
    ensures ok <==> forall p :: p in decisions ==> p in all
  {
    var remaining := decisions.Keys;
    while remaining != {}
      invariant remaining <= decisions.Keys && forall p :: p in decisions.Keys - remaining ==> p in all
      decreases remaining
    {
      ghost var some := Sets.Pick(remaining);
      var path: string :| path in remaining;
      if path !in all {
        assert path in decisions && path !in all;
        return false;
      }
      remaining := remaining - {path};
    }
    return true;
  }

  function ChoicePaths(items: seq<Decision>): seq<string> {
    seq(|items|, i requires 0 <= i < |items| => items[i].path)
  }

  ghost predicate Keyed(decisions: map<string, Decision>) {
    forall p :: p in decisions ==> decisions[p].path == p
  }

  lemma OrderedMap(decisions: map<string, Decision>, keys: seq<string>, out: seq<Decision>)
    requires Keyed(decisions) && Text.IsListing(keys, decisions.Keys) && |out| == |keys|
    requires forall i :: 0 <= i < |keys| ==> keys[i] in decisions && out[i] == decisions[keys[i]]
    ensures Text.Ascending(ChoicePaths(out)) && DecisionMap(out) == decisions
  {
    assert ChoicePaths(out) == keys;
    AscendingDistinct(out);
    forall p ensures p in DecisionMap(out) <==> p in decisions {
      DecisionMapKeys(out, |out|, p);
      assert p in decisions <==> p in keys;
    }
    forall p | p in decisions ensures DecisionMap(out)[p] == decisions[p] {
      assert p in keys;
      var i :| 0 <= i < |keys| && keys[i] == p;
      DecisionMapValue(out, i, |out|);
    }
  }

  /** The accepted decisions in path order. */
  method InOrder(decisions: map<string, Decision>) returns (out: seq<Decision>)
    requires Keyed(decisions)
    ensures Text.Ascending(ChoicePaths(out)) && DecisionMap(out) == decisions
  {
    var keys := Text.SortKeys(decisions.Keys);
    forall i | 0 <= i < |keys| ensures keys[i] in decisions { assert keys[i] in keys; }
    out := seq(|keys|, i requires 0 <= i < |keys| => decisions[keys[i]]);
    OrderedMap(decisions, keys, out);
  }

  lemma AscendingDistinct(items: seq<Decision>)
    requires Text.Ascending(ChoicePaths(items))
    ensures DistinctPaths(items)
  {
    var paths := ChoicePaths(items);
    forall i, j | 0 <= i < j < |items| ensures items[i].path != items[j].path {
      Text.AscendingOrder(paths, i, j);
      assert paths[i] == items[i].path && paths[j] == items[j].path;
      Text.LessIrreflexive(paths[i]);
    }
  }

  datatype Verdict = Accepted(decisions: seq<Decision>) | Rejected

  method BaseIsCompute(e: Evidence, compute: set<int>, base: int) returns (ok: bool)
    ensures ok <==> base in e.nodes && base in compute
  {
    ok := false;
    for k := 0 to |e.nodes|
      invariant ok <==> base in compute && exists i :: 0 <= i < k && e.nodes[i] == base
    {
      if e.nodes[k] == base && e.nodes[k] in compute { ok := true; }
    }
  }

  method CheckDecided(e: Evidence, base: int, decisions: map<string, Decision>) returns (ok: bool)
    requires Indexed(e)
    ensures ok <==> AllDecided(e, base, decisions)
  {
    var complete, all := CollectPaths(e);
    var decided := CheckPaths(e, base, decisions, all);
    if !decided { return false; }
    ok := CheckKnown(decisions, all);
  }

  /** `validateConflictResolutionChoices`. */
  method Validate(e: Evidence, compute: set<int>, base: int, items: seq<Decision>) returns (r: Verdict)
    requires Indexed(e)
    ensures r.Accepted? <==> ValidChoices(e, compute, base, items)
    ensures r.Accepted? ==> DecisionMap(r.decisions) == DecisionMap(items) && Text.Ascending(ChoicePaths(r.decisions))
  {
    var baseIsCompute := BaseIsCompute(e, compute, base);
    if !baseIsCompute { return Rejected; }
    var formed, decisions := IndexChoices(items);
    if !formed { return Rejected; }
    var decided := CheckDecided(e, base, decisions);
    if !decided { return Rejected; }
    DecisionMapHolds(items);
    var out := InOrder(decisions);
    return Accepted(out);
  }

  // ----- The differences shown to the user -----

  datatype Difference = OnlyOnSome(path: string) | DifferentAtSamePath(path: string)

  /** The difference shown for one path, if any. */
  function DifferenceAt(e: Evidence, path: string): seq<Difference> {
    if |Present(e, path)| == |e.nodes| && |Versions(e, path)| == 1 then []
    else if |Present(e, path)| < |e.nodes| && |Versions(e, path)| == 1 then [OnlyOnSome(path)]
    else [DifferentAtSamePath(path)]
  }

  function ShownAt(e: Evidence, paths: seq<string>): seq<seq<Difference>> {
    seq(|paths|, i requires 0 <= i < |paths| => DifferenceAt(e, paths[i]))
  }

  function Flatten(shown: seq<seq<Difference>>, k: nat): seq<Difference>
    requires k <= |shown|
  {
    if k == 0 then [] else Flatten(shown, k - 1) + shown[k - 1]
  }

  /** The differences of all paths, in path order. */
  function DifferencesAt(e: Evidence, paths: seq<string>): seq<Difference> {
    Flatten(ShownAt(e, paths), |paths|)
  }

  function CountDifferent(s: seq<Difference>): nat {
    if s == [] then 0 else CountDifferent(s[..|s| - 1]) + if s[|s| - 1].DifferentAtSamePath? then 1 else 0
  }

  lemma CountAppend(s: seq<Difference>, shown: seq<Difference>)
    requires |shown| <= 1
    ensures CountDifferent(s + shown) == CountDifferent(s) + if shown != [] &&
            shown[0].DifferentAtSamePath? then 1 else 0
  {
    if shown == [] {
      assert s + shown == s;
    } else {
      assert (s + shown)[..|s|] == s;
    }
  }

  method Classify(e: Evidence, path: string) returns (shown: seq<Difference>)
    ensures shown == DifferenceAt(e, path) && |shown| <= 1
  {
    var versions, present := CollectVersions(e, path);
    if |present| == |e.nodes| && |versions| == 1 { return []; }
    if |present| < |e.nodes| && |versions| == 1 { return [OnlyOnSome(path)]; }
    return [DifferentAtSamePath(path)];
  }

  method ShowDifferences(e: Evidence, paths: seq<string>)
    returns (files: seq<Difference>, onlyOnSome: nat, different: nat)
    ensures files == DifferencesAt(e, paths)
    ensures different == CountDifferent(files) && onlyOnSome + different == |files|
  {
    files, onlyOnSome, different := [], 0, 0;
    for k := 0 to |paths|
      invariant files == Flatten(ShownAt(e, paths), k)
      invariant different == CountDifferent(files) && onlyOnSome + different == |files|
    {
      var shown := Classify(e, paths[k]);
      CountAppend(files, shown);
      files := files + shown;
      if shown != [] {
        if shown[0].OnlyOnSome? {
          onlyOnSome := onlyOnSome + 1;
        } else {
          different := different + 1;
        }
      }
    }
  }

  /** `buildConflictDifferences`. */
  method BuildDifferences(e: Evidence) returns (files: seq<Difference>, onlyOnSome: nat, different: nat)
    requires Indexed(e)
    ensures forall paths :: Text.IsListing(paths, Union(e)) ==> files == DifferencesAt(e, paths)
    ensures different == CountDifferent(files) && onlyOnSome + different == |files|
  {
    var complete, all := CollectPaths(e);
    var paths := Text.SortKeys(all);
    forall other | Text.IsListing(other, Union(e)) ensures other == paths { Text.ListingUnique(other, paths, all); }
    files, onlyOnSome, different := ShowDifferences(e, paths);
  }

  lemma ShownFor(e: Evidence, path: string, d: Difference)
    ensures d in DifferenceAt(e, path) <==> path == d.path && DifferenceAt(e, path) == [d]
  {
    assert |DifferenceAt(e, path)| <= 1;
  }

  lemma {:induction false} FlattenHolds(shown: seq<seq<Difference>>, k: nat, d: Difference)
    requires k <= |shown|
    ensures d in Flatten(shown, k) <==> exists i :: 0 <= i < k && d in shown[i]
  {
    if k > 0 { FlattenHolds(shown, k - 1, d); }
  }

  lemma Listed(e: Evidence, paths: seq<string>, d: Difference)
    ensures d in DifferencesAt(e, paths) <==> d.path in paths && DifferenceAt(e, d.path) == [d]
  {
    var shown := ShownAt(e, paths);
    FlattenHolds(shown, |paths|, d);
    forall i | 0 <= i < |paths| ensures d in shown[i] <==> paths[i] == d.path && DifferenceAt(e, d.path) == [d] {
      ShownFor(e, paths[i], d);
    }
  }

  lemma VersionsExist(e: Evidence, path: string)
    requires path in Union(e)
    ensures |Versions(e, path)| >= 1 && Present(e, path) != []
  {
    UnionHolds(e, path);
    var n :| n in e.nodes && Holds(e, n, path);
    VersionsHold(e, path, Version(Lookup(e, n, path)));
    assert Version(Lookup(e, n, path)) in Versions(e, path);
    PresentCount(e, path, |e.nodes|);
  }

  /** A path is shown as different exactly when its sources hold several contents. */
  lemma DifferentMeansSeveral(e: Evidence, paths: seq<string>, path: string)
    requires Text.IsListing(paths, Union(e))
    ensures DifferentAtSamePath(path) in DifferencesAt(e, paths) <==> path in Union(e) && |Versions(e, path)| > 1
    ensures OnlyOnSome(path) in DifferencesAt(e, paths) <==>
            path in Union(e) && |Versions(e, path)| == 1 && exists n :: n in e.nodes && !Holds(e, n, path)
  {
    Listed(e, paths, DifferentAtSamePath(path));
    Listed(e, paths, OnlyOnSome(path));
    PresentCount(e, path, |e.nodes|);
    PresentEverywhere(e, path, |e.nodes|);
    if path in Union(e) { VersionsExist(e, path); }
    if i :| 0 <= i < |e.nodes| && !Holds(e, e.nodes[i], path) { assert e.nodes[i] in e.nodes; }
  }
}
