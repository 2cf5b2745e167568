/** Nothing is lost and nothing is invented by a merge. */
module ConflictMergeTheorems {
  import opened ArchivePath
  import opened ConflictFiles
  import opened ConflictMerge
  import Text

  /** A selected file is some source's entry with at most its path changed. */
  ghost predicate Origin(m: Merge, s: Selected) {
    && s.node in m.evidence.nodes && Holds(m.evidence, s.node, s.sourcePath)
    && s.entry == Lookup(m.evidence, s.node, s.sourcePath).(path := s.entry.path)
  }

  ghost predicate DistinctOutputs(files: seq<Selected>) {
    forall i, j :: 0 <= i < j < |files| ==> files[i].entry.path != files[j].entry.path
  }

  /** No content of one path is emitted twice. */
  ghost predicate OnePerVersion(files: seq<Selected>) {
    forall s, t :: s in files && t in files && s.sourcePath == t.sourcePath && Version(s.entry) == Version(t.entry) ==>
      s == t
  }

  ghost predicate Origins(m: Merge, files: seq<Selected>) {
    forall s :: s in files ==> Origin(m, s)
  }

  /** A path of the sources is used only for the file found there. */
  ghost predicate OwnPaths(m: Merge, files: seq<Selected>) {
    forall s :: s in files && s.entry.path in Union(m.evidence) ==> s.entry.path == s.sourcePath
  }

  ghost predicate Taken(files: seq<Selected>, reserved: set<string>) {
    forall s :: s in files ==> s.entry.path in reserved
  }

  ghost predicate Good(m: Merge, files: seq<Selected>, reserved: set<string>) {
    && Origins(m, files) && OwnPaths(m, files) && Taken(files, reserved) && Union(m.evidence) <= reserved
    && DistinctOutputs(files) && OnePerVersion(files)
  }

  ghost predicate Emitted(files: seq<Selected>, path: string, v: string) {
    exists s :: s in files && s.sourcePath == path && Version(s.entry) == v
  }

  /** The chosen entry stands at its own path. */
  ghost predicate ChosenInPlace(m: Merge, files: seq<Selected>, path: string) {
    && Choose(m, path).Ok? && Holds(m.evidence, Choose(m, path).value, path)
    && Selected(Choose(m, path).value, path, Lookup(m.evidence, Choose(m, path).value, path)) in files
  }

  /** Every version survives where all are to be preserved, elsewhere only the chosen file. */
  ghost predicate ContentKept(m: Merge, files: seq<Selected>, path: string) {
    if PreserveAll(m, path) then forall v :: v in Versions(m.evidence, path) ==> Emitted(files, path, v)
    else forall s :: s in files && s.sourcePath == path ==> s.entry.path == path
  }

  ghost predicate Completed(m: Merge, files: seq<Selected>, path: string) {
    ChosenInPlace(m, files, path) && ContentKept(m, files, path)
  }

  ghost predicate FromPaths(files: seq<Selected>, done: set<string>) {
    forall s :: s in files ==> s.sourcePath in done
  }

  lemma ExtendGood(m: Merge, files: seq<Selected>, reserved: set<string>, x: Selected)
    requires Good(m, files, reserved) && Origin(m, x)
    requires x.entry.path in Union(m.evidence) ==> x.entry.path == x.sourcePath
    requires forall s :: s in files ==> s.entry.path != x.entry.path
    requires !Emitted(files, x.sourcePath, Version(x.entry))
    ensures Good(m, files + [x], reserved + {x.entry.path})
  {
    var more := files + [x];
    forall i, j | 0 <= i < j < |more| ensures more[i].entry.path != more[j].entry.path {
      assert more[i] == files[i] && files[i] in files;
      if j < |files| { assert more[j] == files[j]; }
    }
  }

  lemma KeptPath(conflictId: string, node: int, original: string, reserved: set<string>, k: nat)
    requires k <= MAX_SUFFIX
    ensures var r := FirstFree(conflictId, node, original, reserved, k); r.Kept? ==>
            r.path !in reserved && SafeArchivePath(r.path)
    decreases MAX_SUFFIX - k
  {
    if k < MAX_SUFFIX { KeptPath(conflictId, node, original, reserved, k + 1); }
  }

  ghost predicate KeptMatches(files: seq<Selected>, path: string, kept: set<string>) {
    forall v :: v in kept <==> Emitted(files, path, v)
  }

  lemma EmitOne(files: seq<Selected>, path: string, kept: set<string>, x: Selected)
    requires KeptMatches(files, path, kept) && x.sourcePath == path
    ensures KeptMatches(files + [x], path, kept + {Version(x.entry)})
  {
    var more := files + [x];
    forall v ensures v in kept + {Version(x.entry)} <==> Emitted(more, path, v) {
      if v == Version(x.entry) { assert x in more; }
      if Emitted(files, path, v) {
        var s :| s in files && s.sourcePath == path && Version(s.entry) == v;
        assert s in more;
      }
      if Emitted(more, path, v) {
        var s :| s in more && s.sourcePath == path && Version(s.entry) == v;
        assert s in files || s == x;
      }
    }
  }

  lemma PreserveOneKeeps(m: Merge, path: string, i: nat, kept: set<string>, d: Draft)
    requires Indexed(m.evidence) && i < |m.evidence.nodes|
    requires Good(m, d.selected, d.reserved) && KeptMatches(d.selected, path, kept)
    requires PreserveOne(m, path, i, kept, d).Ok?
    ensures var (next, keptNext) := PreserveOne(m, path, i, kept, d).value;
            && Good(m, next.selected, next.reserved) && KeptMatches(next.selected, path, keptNext)
            && kept <= keptNext && next.used == d.used
            && (Holds(m.evidence, m.evidence.nodes[i], path) ==>
               Version(Lookup(m.evidence, m.evidence.nodes[i], path)) in keptNext)
            && (next.selected == d.selected ||
               (exists x: Selected :: x.sourcePath == path && next.selected == d.selected + [x]))
  {
    var node := m.evidence.nodes[i];
    if Holds(m.evidence, node, path) && Version(Lookup(m.evidence, node, path)) !in kept {
      var entry := Lookup(m.evidence, node, path);
      var target := PreservedPath(m.conflictId, node, path, d.reserved).path;
      KeptPath(m.conflictId, node, path, d.reserved, 0);
      var x := Selected(node, entry.path, entry.(path := target));
      assert entry.path == path && Version(x.entry) == Version(entry);
      ExtendGood(m, d.selected, d.reserved, x);
      EmitOne(d.selected, path, kept, x);
    }
  }

  /** `files` grew only by files taken from `path`. */
  ghost predicate GrownBy(before: seq<Selected>, after: seq<Selected>, path: string) {
    && (forall s :: s in before ==> s in after)
    && forall s :: s in after && s !in before ==> s.sourcePath == path
  }

  ghost predicate KeptBefore(m: Merge, path: string, i: nat, kept: set<string>)
    requires i <= |m.evidence.nodes|
  {
    forall v :: v in VersionsOf(m.evidence, path, i) ==> v in kept
  }

  lemma {:induction false} PreserveKeeps(m: Merge, path: string, i: nat, kept: set<string>, d: Draft)
    requires Indexed(m.evidence) && i <= |m.evidence.nodes|
    requires Good(m, d.selected, d.reserved) && KeptMatches(d.selected, path, kept) && KeptBefore(m, path, i, kept)
    requires PreserveFrom(m, path, i, kept, d).Ok?
    ensures var r := PreserveFrom(m, path, i, kept, d).value;
            && Good(m, r.selected, r.reserved) && r.used == d.used && GrownBy(d.selected, r.selected, path)
            && forall v :: v in Versions(m.evidence, path) ==> Emitted(r.selected, path, v)
    decreases |m.evidence.nodes| - i
  {
    if i < |m.evidence.nodes| {
      var (next, keptNext) := PreserveOne(m, path, i, kept, d).value;
      PreserveOneKeeps(m, path, i, kept, d);
      PreserveKeeps(m, path, i + 1, keptNext, next);
      GrownFurther(d.selected, next.selected, PreserveFrom(m, path, i, kept, d).value.selected, path);
    }
  }

  lemma GrownFurther(a: seq<Selected>, b: seq<Selected>, c: seq<Selected>, path: string)
    requires a == b || exists x: Selected :: x.sourcePath == path && b == a + [x]
    requires GrownBy(b, c, path)
    ensures GrownBy(a, c, path)
  { }

  /** Whoever is chosen is one of the sources. */
  lemma ChosenListed(m: Merge, path: string, node: int)
    requires Indexed(m.evidence) && Holds(m.evidence, node, path)
    ensures node in m.evidence.nodes && Lookup(m.evidence, node, path).path == path
  { }

  lemma AddChosenKeeps(m: Merge, path: string, node: int, d: Draft, done: set<string>)
    requires Indexed(m.evidence) && Holds(m.evidence, node, path) && path in Union(m.evidence)
    requires Good(m, d.selected, d.reserved) && FromPaths(d.selected, done) && path !in done
    ensures var r := AddChosen(m, path, node, d);
            && Good(m, r.selected, r.reserved) && GrownBy(d.selected, r.selected, path)
            && KeptMatches(r.selected, path, {Version(Lookup(m.evidence, node, path))})
            && Selected(node, path, Lookup(m.evidence, node, path)) in r.selected
            && forall s :: s in r.selected && s.sourcePath == path ==> s.entry.path == path
  {
    ChosenListed(m, path, node);
    var x := Selected(node, path, Lookup(m.evidence, node, path));
    ExtendGood(m, d.selected, d.reserved, x);
    assert d.reserved + {path} == d.reserved;
    assert KeptMatches(d.selected, path, {});
    EmitOne(d.selected, path, {}, x);
    assert {} + {Version(x.entry)} == {Version(x.entry)};
  }

  lemma MergePathKeeps(m: Merge, path: string, d: Draft, done: set<string>)
    requires Indexed(m.evidence) && path in Union(m.evidence)
    requires Good(m, d.selected, d.reserved) && FromPaths(d.selected, done) && path !in done
    requires MergePath(m, path, d).Ok?
    ensures var r := MergePath(m, path, d).value;
            && Good(m, r.selected, r.reserved) && GrownBy(d.selected, r.selected, path)
            && Completed(m, r.selected, path)
            && r.used == d.used + if path in m.decisions then 1 else 0
  {
    var node := Choose(m, path).value;
    AddChosenKeeps(m, path, node, d, done);
    var r := AddChosen(m, path, node, d);
    if PreserveAll(m, path) {
      PreserveKeeps(m, path, 0, {Version(Lookup(m.evidence, node, path))}, r);
    }
  }

  lemma CompletedStays(m: Merge, before: seq<Selected>, after: seq<Selected>, p: string, path: string)
    requires Completed(m, before, p) && GrownBy(before, after, path) && p != path
    ensures Completed(m, after, p)
  {
    if PreserveAll(m, p) {
      forall v | v in Versions(m.evidence, p) ensures Emitted(after, p, v) {
        var s :| s in before && s.sourcePath == p && Version(s.entry) == v;
        assert s in after;
      }
    }
  }

  /** The invariant of the loop over paths, after the paths in `done`. */
  ghost predicate Merged(m: Merge, d: Draft, done: set<string>) {
    && Good(m, d.selected, d.reserved) && FromPaths(d.selected, done)
    && (forall p :: p in done ==> Completed(m, d.selected, p))
    && d.used == |done * m.decisions.Keys|
  }

  lemma FromMore(before: seq<Selected>, after: seq<Selected>, path: string, done: set<string>)
    requires FromPaths(before, done) && GrownBy(before, after, path)
    ensures FromPaths(after, done + {path})
  { }

  lemma MergedStep(m: Merge, path: string, d: Draft, done: set<string>)
    requires Indexed(m.evidence) && path in Union(m.evidence) && path !in done
    requires Merged(m, d, done) && MergePath(m, path, d).Ok?
    ensures Merged(m, MergePath(m, path, d).value, done + {path})
  {
    var next := MergePath(m, path, d).value;
    MergePathKeeps(m, path, d, done);
    forall p | p in done ensures Completed(m, next.selected, p) {
      CompletedStays(m, d.selected, next.selected, p, path);
    }
    FromMore(d.selected, next.selected, path, done);
    UsedGrows(done, m.decisions.Keys, path);
  }

  ghost predicate Covers(all: set<string>, done: set<string>, paths: seq<string>) {
    forall p :: p in all <==> p in done || p in paths
  }

  lemma CoversNothing(all: set<string>, done: set<string>)
    requires Covers(all, done, [])
    ensures all == done
  {
    assert forall p :: p in all <==> p in done;
  }

  lemma CoversTail(all: set<string>, done: set<string>, paths: seq<string>)
    requires paths != [] && Text.Ascending(paths) && Covers(all, done, paths)
    requires forall p :: p in paths ==> p !in done
    ensures Covers(all, done + {paths[0]}, paths[1..])
    ensures forall p :: p in paths[1..] ==> p !in done + {paths[0]}
    ensures Text.Ascending(paths[1..])
  {
    Text.AscendingTailLacks(paths);
    assert paths == [paths[0]] + paths[1..];
  }

  lemma {:induction false} MergedRun(m: Merge, paths: seq<string>, d: Draft, done: set<string>, all: set<string>)
    requires Indexed(m.evidence) && Text.Ascending(paths) && Covers(all, done, paths) && all <= Union(m.evidence)
    requires forall p :: p in paths ==> p !in done
    requires Merged(m, d, done) && MergeFrom(m, paths, d).Ok?
    ensures Merged(m, MergeFrom(m, paths, d).value, all)
  {
    if paths == [] {
      CoversNothing(all, done);
    } else {
      var next, more := MergePath(m, paths[0], d).value, done + {paths[0]};
      assert paths[0] in paths;
      MergedStep(m, paths[0], d, done);
      CoversTail(all, done, paths);
      MergedRun(m, paths[1..], next, more, all);
    }
  }

  lemma UsedGrows(done: set<string>, keys: set<string>, path: string)
    requires path !in done
    ensures |(done + {path}) * keys| == |done * keys| + if path in keys then 1 else 0
  {
    if path in keys {
      assert (done + {path}) * keys == done * keys + {path};
    } else {
      assert (done + {path}) * keys == done * keys;
    }
  }

  // ----- Sorting keeps the files -----

  lemma {:induction false} InsertByPathKeeps(x: Selected, s: seq<Selected>)
    requires Text.Ascending(OutputPaths(s)) && forall y :: y in s ==> y.entry.path != x.entry.path
    ensures multiset(InsertByPath(x, s)) == multiset(s) + multiset{x}
    ensures Text.Ascending(OutputPaths(InsertByPath(x, s)))
    ensures InsertByPath(x, s) != [] && (InsertByPath(x, s)[0] == x || (s != [] && InsertByPath(x, s)[0] == s[0]))
  {
    var paths := OutputPaths(s);
    if s != [] && !Text.Less(x.entry.path, s[0].entry.path) {
      var rest := s[1..];
      assert s == [s[0]] + rest;
      assert OutputPaths(rest) == paths[1..];
      forall i | 0 <= i < |rest| - 1 ensures Text.Less(paths[1..][i], paths[1..][i + 1]) {
        assert Text.Less(paths[i + 1], paths[i + 2]);
      }
      InsertByPathKeeps(x, rest);
      Text.LessTotal(x.entry.path, s[0].entry.path);
      assert s[0] in s;
      var r := InsertByPath(x, rest);
      if r[0] != x { assert Text.Less(paths[0], paths[1]); }
      PrependAscending(s[0], r);
    } else if s != [] {
      PrependAscending(x, s);
    }
  }

  lemma PrependAscending(x: Selected, s: seq<Selected>)
    requires Text.Ascending(OutputPaths(s)) && s != [] && Text.Less(x.entry.path, s[0].entry.path)
    ensures Text.Ascending(OutputPaths([x] + s))
  {
    var all := OutputPaths([x] + s);
    var paths := OutputPaths(s);
    forall i | 0 <= i < |all| - 1 ensures Text.Less(all[i], all[i + 1]) {
      if i > 0 { assert Text.Less(paths[i - 1], paths[i - 1 + 1]); }
    }
  }

  lemma {:induction false} SortByPathKeeps(s: seq<Selected>)
    requires DistinctOutputs(s)
    ensures multiset(SortByPath(s)) == multiset(s) && Text.Ascending(OutputPaths(SortByPath(s)))
  {
    if s != [] {
      var x, rest := s[|s| - 1], s[..|s| - 1];
      assert s == rest + [x];
      SortByPathKeeps(rest);
      forall y | y in SortByPath(rest) ensures y.entry.path != x.entry.path {
        assert y in multiset(SortByPath(rest));
        assert y in rest;
      }
      InsertByPathKeeps(x, SortByPath(rest));
    }
  }

  /** Any sorted arrangement of the same files is this one, so an unstable sort makes no difference. */
  lemma SortUnique(a: seq<Selected>, b: seq<Selected>)
    requires multiset(a) == multiset(b) && Text.Ascending(OutputPaths(a)) && Text.Ascending(OutputPaths(b))
    ensures a == b
  {
    var pa, pb := OutputPaths(a), OutputPaths(b);
    SamePaths(a, b);
    SamePaths(b, a);
    Text.AscendingUnique(pa, pb);
    forall i | 0 <= i < |a| ensures a[i] == b[i] {
      assert a[i] in multiset(a) && a[i] in b;
      var j :| 0 <= j < |b| && b[j] == a[i];
      assert pb[j] == pa[i] == pb[i];
      Text.LessIrreflexive(pb[i]);
      if i < j { Text.AscendingOrder(pb, i, j); }
      if j < i { Text.AscendingOrder(pb, j, i); }
    }
  }

  lemma SamePaths(a: seq<Selected>, b: seq<Selected>)
    requires multiset(a) == multiset(b)
    ensures forall p :: p in OutputPaths(a) ==> p in OutputPaths(b)
  {
    forall p | p in OutputPaths(a) ensures p in OutputPaths(b) {
      var i :| 0 <= i < |a| && OutputPaths(a)[i] == p;
      assert a[i] in multiset(a) && a[i] in b;
      var j :| 0 <= j < |b| && b[j] == a[i];
      assert OutputPaths(b)[j] == p;
    }
  }

  // ----- The theorem -----

  lemma MergedAll(m: Merge, paths: seq<string>)
    requires Indexed(m.evidence) && Text.IsListing(paths, Union(m.evidence))
    requires MergeFrom(m, paths, Draft([], Union(m.evidence), 0)).Ok?
    ensures Merged(m, MergeFrom(m, paths, Draft([], Union(m.evidence), 0)).value, Union(m.evidence))
  {
    assert {} * m.decisions.Keys == {};
    MergedRun(m, paths, Draft([], Union(m.evidence), 0), {}, Union(m.evidence));
  }

  lemma SameFiles(a: seq<Selected>, b: seq<Selected>)
    requires multiset(a) == multiset(b)
    ensures forall s :: s in a <==> s in b
  {
    forall s ensures s in a <==> s in b {
      assert s in a <==> s in multiset(a);
      assert s in b <==> s in multiset(b);
    }
  }

  lemma CompletedSame(m: Merge, a: seq<Selected>, b: seq<Selected>, p: string)
    requires (forall s :: s in a <==> s in b) && Completed(m, a, p)
    ensures Completed(m, b, p)
  {
    if PreserveAll(m, p) {
      forall v | v in Versions(m.evidence, p) ensures Emitted(b, p, v) {
        var s :| s in a && s.sourcePath == p && Version(s.entry) == v;
        assert s in b;
      }
    }
  }

  /** Merge conservation. Output paths are distinct and sorted; every path of the
      union stands at itself with the chosen entry; every output is a source entry
      with at most its path changed; a preserved path yields exactly one file for
      each distinct content and any other path exactly one file. */
  lemma Conservation(m: Merge, paths: seq<string>)
    requires Indexed(m.evidence) && Text.IsListing(paths, Union(m.evidence))
    requires Select(m, paths).Ok?
    ensures var out := Select(m, paths).value;
            && Text.Ascending(OutputPaths(out.files))
            && Origins(m, out.files) && OwnPaths(m, out.files) && OnePerVersion(out.files)
            && (forall p :: p in Union(m.evidence) ==> Completed(m, out.files, p))
            && FromPaths(out.files, Union(m.evidence))
            && out.used == |Union(m.evidence) * m.decisions.Keys|
  {
    MergedAll(m, paths);
    var d := MergeFrom(m, paths, Draft([], Union(m.evidence), 0)).value;
    var out := Select(m, paths).value;
    SortByPathKeeps(d.selected);
    SameFiles(d.selected, out.files);
    forall p | p in Union(m.evidence) ensures Completed(m, out.files, p) { CompletedSame(m, d.selected, out.files, p); }
  }
}
