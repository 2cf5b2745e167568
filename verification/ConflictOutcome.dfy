/** What a merge publishes, said from the manifests, the decisions and the default action alone. */
module ConflictOutcome {
  import opened ArchivePath
  import opened ConflictAgreement
  import opened ConflictChoices
  import opened ConflictFiles
  import opened ConflictMerge
  import opened ConflictMergeTheorems
  import opened ConflictSlots
  import Sets
  import Text

  // ----- The rules -----

  predicate SameContent(x: Entry, y: Entry) {
    x.sha == y.sha && x.size == y.size
  }

  /** Two sources hold different contents at `p`. */
  ghost predicate Differs(e: Evidence, p: string) {
    exists a, b :: Holds(e, a, p) && Holds(e, b, p) && !SameContent(Lookup(e, a, p), Lookup(e, b, p))
  }

  /** The first listed source that holds `p`. */
  ghost predicate FirstHolder(e: Evidence, p: string, n: int) {
    exists i :: 0 <= i < |e.nodes| && e.nodes[i] == n && Holds(e, n, p) &&
                forall j :: 0 <= j < i ==> !Holds(e, e.nodes[j], p)
  }

  /** Whose file stands at `p`: the user's choice, else the base's, else the first one there is. */
  ghost predicate Wins(m: Merge, p: string, n: int) {
    if Differs(m.evidence, p) then n == if p in m.decisions then m.decisions[p].source else m.base
    else if Holds(m.evidence, m.base, p) then n == m.base
    else FirstHolder(m.evidence, p, n)
  }

  /** The other contents of `p` are to be kept beside the winner. */
  ghost predicate KeepsAll(m: Merge, p: string) {
    && Differs(m.evidence, p)
    && if p in m.decisions then m.decisions[p].action == "preserve_both"
       else m.defaultAction == "preserve_all_originals"
  }

  /** A decision for every path where sources differ and the base has none to offer, and for no
      path where they agree; each for a source that holds the path. */
  ghost predicate Decided(m: Merge, p: string) {
    if !Differs(m.evidence, p) then p !in m.decisions
    else if p in m.decisions then
      Holds(m.evidence, m.decisions[p].source, p) && m.decisions[p].action in {"use_source", "preserve_both"}
    else Holds(m.evidence, m.base, p)
  }

  // ----- What is published -----

  ghost predicate WinnerOf(m: Merge, s: Selected) {
    && Wins(m, s.sourcePath, s.node) && Holds(m.evidence, s.node, s.sourcePath)
    && s.entry == Lookup(m.evidence, s.node, s.sourcePath)
  }

  ghost predicate Occupied(m: Merge, files: seq<Selected>, r: string) {
    r in Union(m.evidence) || exists s :: s in files && s.entry.path == r
  }

  /** Source number `i` is the first to bring this content, which is not the winner's. */
  ghost predicate Brings(m: Merge, p: string, i: nat)
    requires i < |m.evidence.nodes|
  {
    && Holds(m.evidence, m.evidence.nodes[i], p)
    && (forall j :: 0 <= j < i && Holds(m.evidence, m.evidence.nodes[j], p) ==>
        !SameContent(Lookup(m.evidence, m.evidence.nodes[j], p), Lookup(m.evidence, m.evidence.nodes[i], p)))
    && forall w :: Wins(m, p, w) && Holds(m.evidence, w, p) ==>
       !SameContent(Lookup(m.evidence, w, p), Lookup(m.evidence, m.evidence.nodes[i], p))
  }

  /** The content source number `i` brings, kept under candidate `k`, all earlier ones being occupied. */
  ghost predicate KeptAs(m: Merge, files: seq<Selected>, s: Selected, i: nat, k: nat)
    requires i < |m.evidence.nodes|
  {
    && s.node == m.evidence.nodes[i] && KeepsAll(m, s.sourcePath) && Brings(m, s.sourcePath, i) && k < 1000
    && s.entry == Lookup(m.evidence, s.node, s.sourcePath).(
                  path := Candidate(m.conflictId, s.node, s.sourcePath, k))
    && forall j :: 0 <= j < k ==> Occupied(m, files, Candidate(m.conflictId, s.node, s.sourcePath, j))
  }

  ghost predicate CopyOf(m: Merge, files: seq<Selected>, s: Selected) {
    exists i: nat, k: nat :: i < |m.evidence.nodes| && KeptAs(m, files, s, i, k)
  }

  ghost predicate Explained(m: Merge, files: seq<Selected>, s: Selected) {
    s.sourcePath in Union(m.evidence) && (WinnerOf(m, s) || CopyOf(m, files, s))
  }

  ghost predicate InPlace(m: Merge, files: seq<Selected>, p: string) {
    exists w :: Wins(m, p, w) && Holds(m.evidence, w, p) && Selected(w, p, Lookup(m.evidence, w, p)) in files
  }

  ghost predicate ContentPublished(m: Merge, files: seq<Selected>, p: string, n: int)
    requires Holds(m.evidence, n, p)
  {
    exists s :: s in files && s.sourcePath == p && SameContent(s.entry, Lookup(m.evidence, n, p))
  }

  /** Nothing else, nothing twice, and everything that has to be there. */
  ghost predicate Published(m: Merge, files: seq<Selected>) {
    && Text.Ascending(OutputPaths(files))
    && (forall s :: s in files ==> Explained(m, files, s))
    && (forall p :: p in Union(m.evidence) ==> InPlace(m, files, p))
    && (forall p, n :: p in Union(m.evidence) && KeepsAll(m, p) && Holds(m.evidence, n, p) ==>
        ContentPublished(m, files, p, n))
    && forall s, t :: s in files && t in files && s.sourcePath == t.sourcePath && SameContent(s.entry, t.entry) ==>
       s == t
  }

  // ----- The code's own notions -----

  lemma VersionIsContent(x: Entry, y: Entry)
    ensures Version(x) == Version(y) <==> SameContent(x, y)
  {
    if Version(x) == Version(y) { VersionInjective(x, y); }
  }

  lemma DiffersIff(e: Evidence, p: string)
    requires Indexed(e) && p in Union(e)
    ensures Differs(e, p) <==> |Versions(e, p)| > 1
    ensures |Versions(e, p)| >= 1
  {
    VersionsExist(e, p);
    var all := Versions(e, p);
    if Differs(e, p) {
      var a, b :| Holds(e, a, p) && Holds(e, b, p) && !SameContent(Lookup(e, a, p), Lookup(e, b, p));
      var v, w := Version(Lookup(e, a, p)), Version(Lookup(e, b, p));
      VersionIsContent(Lookup(e, a, p), Lookup(e, b, p));
      VersionsHold(e, p, v);
      VersionsHold(e, p, w);
      Sets.SubsetSize({v, w}, all);
    } else {
      var v := Sets.Pick(all);
      forall w | w in all ensures w == v {
        VersionsHold(e, p, v);
        VersionsHold(e, p, w);
        var a :| a in e.nodes && Holds(e, a, p) && Version(Lookup(e, a, p)) == v;
        var b :| b in e.nodes && Holds(e, b, p) && Version(Lookup(e, b, p)) == w;
        VersionIsContent(Lookup(e, a, p), Lookup(e, b, p));
      }
      assert all == {v};
    }
  }

  lemma KeepsAllIff(m: Merge, p: string)
    requires Indexed(m.evidence) && p in Union(m.evidence)
    ensures KeepsAll(m, p) <==> PreserveAll(m, p)
  {
    DiffersIff(m.evidence, p);
  }

  lemma {:induction false} PresentFirst(e: Evidence, p: string, k: nat) returns (i: nat)
    requires k <= |e.nodes| && PresentOf(e, p, k) != []
    ensures i < k && e.nodes[i] == PresentOf(e, p, k)[0] && Holds(e, e.nodes[i], p)
    ensures forall j :: 0 <= j < i ==> !Holds(e, e.nodes[j], p)
  {
    if PresentOf(e, p, k - 1) != [] {
      i := PresentFirst(e, p, k - 1);
    } else {
      i := k - 1;
      forall j | 0 <= j < i ensures !Holds(e, e.nodes[j], p) { PresentNone(e, p, k - 1, j); }
    }
  }

  lemma {:induction false} PresentNone(e: Evidence, p: string, k: nat, j: nat)
    requires j < k <= |e.nodes| && PresentOf(e, p, k) == []
    ensures !Holds(e, e.nodes[j], p)
  {
    if j < k - 1 { PresentNone(e, p, k - 1, j); }
  }

  lemma FirstHolderUnique(e: Evidence, p: string, n: int, o: int)
    requires FirstHolder(e, p, n) && FirstHolder(e, p, o)
    ensures n == o
  {
    var i :| 0 <= i < |e.nodes| && e.nodes[i] == n && Holds(e, n, p) &&
             forall j :: 0 <= j < i ==> !Holds(e, e.nodes[j], p);
    var k :| 0 <= k < |e.nodes| && e.nodes[k] == o && Holds(e, o, p) &&
             forall j :: 0 <= j < k ==> !Holds(e, e.nodes[j], p);
    assert !(i < k) && !(k < i);
  }

  lemma WinnerUnique(m: Merge, p: string, n: int, o: int)
    requires Wins(m, p, n) && Wins(m, p, o)
    ensures n == o
  {
    if !Differs(m.evidence, p) && !Holds(m.evidence, m.base, p) { FirstHolderUnique(m.evidence, p, n, o); }
  }

  /** The code chooses the winner. */
  lemma ChosenWins(m: Merge, p: string)
    requires Indexed(m.evidence) && p in Union(m.evidence) && Choose(m, p).Ok?
    ensures Wins(m, p, Choose(m, p).value)
  {
    var e := m.evidence;
    DiffersIff(e, p);
    if !Differs(e, p) && !Holds(e, m.base, p) {
      VersionsExist(e, p);
      var i := PresentFirst(e, p, |e.nodes|);
      assert FirstHolder(e, p, e.nodes[i]);
    }
  }

  /** And it chooses at all exactly where the path is decided. */
  lemma ChoosesIff(m: Merge, p: string)
    requires Indexed(m.evidence) && p in Union(m.evidence)
    ensures Choose(m, p).Ok? && Holds(m.evidence, Choose(m, p).value, p) <==> Decided(m, p)
  {
    var e := m.evidence;
    DiffersIff(e, p);
    if !Differs(e, p) && !Holds(e, m.base, p) {
      VersionsExist(e, p);
      var i := PresentFirst(e, p, |e.nodes|);
    }
  }

  // ----- Every file is explained -----

  lemma FirstFreeNext(conflictId: string, node: int, original: string, reserved: set<string>, k: nat)
    requires k < MAX_SUFFIX && FirstFree(conflictId, node, original, reserved, k).Kept?
    ensures FirstFree(conflictId, node, original, reserved, k) ==
            if IsTaken(conflictId, node, original, reserved, k)
            then FirstFree(conflictId, node, original, reserved, k + 1)
            else Kept(Candidate(conflictId, node, original, k))
  { }

  ghost predicate TakenBetween(conflictId: string, node: int, original: string, reserved: set<string>, k: nat, g: nat) {
    forall j :: k <= j < g ==> IsTaken(conflictId, node, original, reserved, j)
  }

  lemma TakenMore(conflictId: string, node: int, original: string, reserved: set<string>, k: nat, g: nat)
    requires IsTaken(conflictId, node, original, reserved, k)
    requires TakenBetween(conflictId, node, original, reserved, k + 1, g)
    ensures TakenBetween(conflictId, node, original, reserved, k, g)
  { }

  lemma {:induction false} FirstFreeIs(conflictId: string, node: int, original: string, reserved: set<string>, k: nat)
    returns (g: nat)
    requires k < MAX_SUFFIX && FirstFree(conflictId, node, original, reserved, k).Kept?
    ensures k <= g < MAX_SUFFIX && TakenBetween(conflictId, node, original, reserved, k, g)
    ensures FirstFree(conflictId, node, original, reserved, k) == Kept(Candidate(conflictId, node, original, g))
    decreases MAX_SUFFIX - k
  {
    FirstFreeNext(conflictId, node, original, reserved, k);
    if IsTaken(conflictId, node, original, reserved, k) {
      g := FirstFreeIs(conflictId, node, original, reserved, k + 1);
      TakenMore(conflictId, node, original, reserved, k, g);
    } else {
      g := k;
    }
  }

  ghost predicate AllExplained(m: Merge, files: seq<Selected>) {
    forall s :: s in files ==> Explained(m, files, s)
  }

  ghost predicate ReservedOccupied(m: Merge, files: seq<Selected>, reserved: set<string>) {
    forall r :: r in reserved ==> Occupied(m, files, r)
  }

  lemma ExplainedMore(m: Merge, files: seq<Selected>, more: seq<Selected>, s: Selected)
    requires files <= more && Explained(m, files, s)
    ensures Explained(m, more, s)
  {
    if !WinnerOf(m, s) {
      var i: nat, k: nat :| i < |m.evidence.nodes| && KeptAs(m, files, s, i, k);
      forall j | 0 <= j < k ensures Occupied(m, more, Candidate(m.conflictId, s.node, s.sourcePath, j)) {
        OccupiedMore(m, files, more, Candidate(m.conflictId, s.node, s.sourcePath, j));
      }
      assert KeptAs(m, more, s, i, k);
    }
  }

  lemma OccupiedMore(m: Merge, files: seq<Selected>, more: seq<Selected>, r: string)
    requires files <= more && Occupied(m, files, r)
    ensures Occupied(m, more, r)
  {
    if r !in Union(m.evidence) {
      var s :| s in files && s.entry.path == r;
      assert s in more;
    }
  }

  lemma ExplainNext(m: Merge, files: seq<Selected>, reserved: set<string>, x: Selected)
    requires AllExplained(m, files) && ReservedOccupied(m, files, reserved) && Explained(m, files, x)
    ensures AllExplained(m, files + [x]) && ReservedOccupied(m, files + [x], reserved + {x.entry.path})
  {
    var more := files + [x];
    forall s | s in more ensures Explained(m, more, s) { ExplainedMore(m, files, more, s); }
    forall r | r in reserved + {x.entry.path} ensures Occupied(m, more, r) {
      if r == x.entry.path { assert x in more; } else { OccupiedMore(m, files, more, r); }
    }
  }

  lemma NewContent(m: Merge, p: string, i: nat)
    requires Indexed(m.evidence) && p in Union(m.evidence) && i < |m.evidence.nodes|
    requires Choose(m, p).Ok? && Holds(m.evidence, Choose(m, p).value, p) && Holds(m.evidence, m.evidence.nodes[i], p)
    requires Version(Lookup(m.evidence, m.evidence.nodes[i], p)) !in
             {Version(Lookup(m.evidence, Choose(m, p).value, p))} + VersionsOf(m.evidence, p, i)
    ensures Brings(m, p, i)
  {
    var e, node := m.evidence, m.evidence.nodes[i];
    forall j | 0 <= j < i && Holds(e, e.nodes[j], p)
      ensures !SameContent(Lookup(e, e.nodes[j], p), Lookup(e, node, p))
    {
      VersionsPrefix(e, p, i, Version(Lookup(e, node, p)));
      VersionIsContent(Lookup(e, e.nodes[j], p), Lookup(e, node, p));
    }
    forall w | Wins(m, p, w) && Holds(e, w, p) ensures !SameContent(Lookup(e, w, p), Lookup(e, node, p)) {
      ChosenWins(m, p);
      WinnerUnique(m, p, w, Choose(m, p).value);
      VersionIsContent(Lookup(e, w, p), Lookup(e, node, p));
    }
  }

  lemma CopyExplained(m: Merge, p: string, i: nat, files: seq<Selected>, reserved: set<string>)
    requires Indexed(m.evidence) && p in Union(m.evidence) && i < |m.evidence.nodes| && PreserveAll(m, p)
    requires Brings(m, p, i) && ReservedOccupied(m, files, reserved)
    requires PreservedPath(m.conflictId, m.evidence.nodes[i], p, reserved).Kept?
    ensures var node := m.evidence.nodes[i]; var target := PreservedPath(m.conflictId, node, p, reserved).path;
            Explained(m, files, Selected(node, p, Lookup(m.evidence, node, p).(path := target)))
  {
    var node := m.evidence.nodes[i];
    var k := FirstFreeIs(m.conflictId, node, p, reserved, 0);
    var x := Selected(node, p, Lookup(m.evidence, node, p).(path := Candidate(m.conflictId, node, p, k)));
    KeepsAllIff(m, p);
    forall j | 0 <= j < k ensures Occupied(m, files, Candidate(m.conflictId, node, p, j)) {
      assert IsTaken(m.conflictId, node, p, reserved, j);
    }
    assert KeptAs(m, files, x, i, k);
  }

  lemma PreserveOneExplains(m: Merge, p: string, i: nat, kept: set<string>, d: Draft)
    requires Indexed(m.evidence) && p in Union(m.evidence) && i < |m.evidence.nodes| && PreserveAll(m, p)
    requires Choose(m, p).Ok? && Holds(m.evidence, Choose(m, p).value, p)
    requires kept == {Version(Lookup(m.evidence, Choose(m, p).value, p))} + VersionsOf(m.evidence, p, i)
    requires AllExplained(m, d.selected) && ReservedOccupied(m, d.selected, d.reserved)
    requires PreserveOne(m, p, i, kept, d).Ok?
    ensures var next := PreserveOne(m, p, i, kept, d).value.0;
            AllExplained(m, next.selected) && ReservedOccupied(m, next.selected, next.reserved)
  {
    var node := m.evidence.nodes[i];
    if Holds(m.evidence, node, p) && Version(Lookup(m.evidence, node, p)) !in kept {
      NewContent(m, p, i);
      CopyExplained(m, p, i, d.selected, d.reserved);
      var target := PreservedPath(m.conflictId, node, p, d.reserved).path;
      ExplainNext(m, d.selected, d.reserved, Selected(node, p, Lookup(m.evidence, node, p).(path := target)));
    }
  }

  lemma KeptNext(m: Merge, p: string, i: nat, v: string, kept: set<string>, d: Draft)
    requires i < |m.evidence.nodes| && kept == {v} + VersionsOf(m.evidence, p, i) && PreserveOne(m, p, i, kept, d).Ok?
    ensures PreserveOne(m, p, i, kept, d).value.1 == {v} + VersionsOf(m.evidence, p, i + 1)
  { }

  lemma {:induction false} PreserveExplains(m: Merge, p: string, i: nat, kept: set<string>, d: Draft)
    requires Indexed(m.evidence) && p in Union(m.evidence) && i <= |m.evidence.nodes| && PreserveAll(m, p)
    requires Choose(m, p).Ok? && Holds(m.evidence, Choose(m, p).value, p)
    requires kept == {Version(Lookup(m.evidence, Choose(m, p).value, p))} + VersionsOf(m.evidence, p, i)
    requires AllExplained(m, d.selected) && ReservedOccupied(m, d.selected, d.reserved)
    requires PreserveFrom(m, p, i, kept, d).Ok?
    ensures var r := PreserveFrom(m, p, i, kept, d).value;
            AllExplained(m, r.selected) && ReservedOccupied(m, r.selected, r.reserved)
    decreases |m.evidence.nodes| - i
  {
    if i < |m.evidence.nodes| {
      PreserveOneExplains(m, p, i, kept, d);
      KeptNext(m, p, i, Version(Lookup(m.evidence, Choose(m, p).value, p)), kept, d);
      var (next, keptNext) := PreserveOne(m, p, i, kept, d).value;
      PreserveExplains(m, p, i + 1, keptNext, next);
    }
  }

  lemma MergePathExplains(m: Merge, p: string, d: Draft)
    requires Indexed(m.evidence) && p in Union(m.evidence) && Union(m.evidence) <= d.reserved
    requires AllExplained(m, d.selected) && ReservedOccupied(m, d.selected, d.reserved) && MergePath(m, p, d).Ok?
    ensures var r := MergePath(m, p, d).value;
            AllExplained(m, r.selected) && ReservedOccupied(m, r.selected, r.reserved)
  {
    var node := Choose(m, p).value;
    ChosenWins(m, p);
    var x := Selected(node, p, Lookup(m.evidence, node, p));
    assert WinnerOf(m, x);
    ExplainNext(m, d.selected, d.reserved, x);
    assert d.reserved + {p} == d.reserved;
    if PreserveAll(m, p) {
      PreserveExplains(m, p, 0, {Version(Lookup(m.evidence, node, p))}, AddChosen(m, p, node, d));
    }
  }

  lemma {:induction false} ReservedGrows(m: Merge, p: string, i: nat, kept: set<string>, d: Draft)
    requires i <= |m.evidence.nodes| && PreserveFrom(m, p, i, kept, d).Ok?
    ensures d.reserved <= PreserveFrom(m, p, i, kept, d).value.reserved
    decreases |m.evidence.nodes| - i
  {
    if i < |m.evidence.nodes| {
      var (next, keptNext) := PreserveOne(m, p, i, kept, d).value;
      ReservedGrows(m, p, i + 1, keptNext, next);
    }
  }

  lemma {:induction false} MergeExplains(m: Merge, paths: seq<string>, d: Draft)
    requires Indexed(m.evidence) && (forall p :: p in paths ==> p in Union(m.evidence))
    requires Union(m.evidence) <= d.reserved
    requires AllExplained(m, d.selected) && ReservedOccupied(m, d.selected, d.reserved) && MergeFrom(m, paths, d).Ok?
    ensures AllExplained(m, MergeFrom(m, paths, d).value.selected)
  {
    if paths != [] {
      var p := paths[0];
      assert p in paths;
      MergePathExplains(m, p, d);
      var next := MergePath(m, p, d).value;
      if PreserveAll(m, p) {
        var node := Choose(m, p).value;
        ReservedGrows(m, p, 0, {Version(Lookup(m.evidence, node, p))}, AddChosen(m, p, node, d));
      }
      MergeExplains(m, paths[1..], next);
    }
  }

  lemma ExplainedSame(m: Merge, a: seq<Selected>, b: seq<Selected>, s: Selected)
    requires (forall t :: t in a <==> t in b) && Explained(m, a, s)
    ensures Explained(m, b, s)
  {
    if !WinnerOf(m, s) {
      var i: nat, k: nat :| i < |m.evidence.nodes| && KeptAs(m, a, s, i, k);
      forall j | 0 <= j < k ensures Occupied(m, b, Candidate(m.conflictId, s.node, s.sourcePath, j)) {
        var r := Candidate(m.conflictId, s.node, s.sourcePath, j);
        assert Occupied(m, a, r);
      }
      assert KeptAs(m, b, s, i, k);
    }
  }

  // ----- The theorem -----

  lemma PublishedInPlace(m: Merge, files: seq<Selected>, p: string)
    requires Indexed(m.evidence) && p in Union(m.evidence) && Completed(m, files, p)
    ensures InPlace(m, files, p)
  {
    ChosenWins(m, p);
  }

  lemma PublishedContent(m: Merge, files: seq<Selected>, p: string, n: int)
    requires Indexed(m.evidence) && p in Union(m.evidence) && Completed(m, files, p)
    requires KeepsAll(m, p) && Holds(m.evidence, n, p)
    ensures ContentPublished(m, files, p, n)
  {
    KeepsAllIff(m, p);
    var v := Version(Lookup(m.evidence, n, p));
    VersionsHold(m.evidence, p, v);
    var s :| s in files && s.sourcePath == p && Version(s.entry) == v;
    VersionIsContent(s.entry, Lookup(m.evidence, n, p));
  }

  lemma PublishedOnce(m: Merge, files: seq<Selected>)
    requires OnePerVersion(files)
    ensures forall s, t :: s in files && t in files && s.sourcePath == t.sourcePath && SameContent(s.entry, t.entry) ==>
              s == t
  {
    forall s, t | s in files && t in files && s.sourcePath == t.sourcePath && SameContent(s.entry, t.entry)
      ensures s == t
    {
      VersionIsContent(s.entry, t.entry);
    }
  }

  lemma FilesExplained(m: Merge, paths: seq<string>)
    requires Indexed(m.evidence) && Text.IsListing(paths, Union(m.evidence)) && Select(m, paths).Ok?
    ensures AllExplained(m, Select(m, paths).value.files)
  {
    var start := Draft([], Union(m.evidence), 0);
    MergeExplains(m, paths, start);
    MergedAll(m, paths);
    var d, files := MergeFrom(m, paths, start).value, Select(m, paths).value.files;
    SortByPathKeeps(d.selected);
    SameFiles(d.selected, files);
    forall s | s in files ensures Explained(m, files, s) { ExplainedSame(m, d.selected, files, s); }
  }

  /** The merge publishes at every path the file the user chose, else the base's, else the first
      there is; keeps each other content once where that was asked for, at the first free place
      under its first source; and nothing else. */
  lemma MergePublishes(m: Merge, paths: seq<string>)
    requires Indexed(m.evidence) && Text.IsListing(paths, Union(m.evidence)) && Select(m, paths).Ok?
    ensures Published(m, Select(m, paths).value.files)
  {
    var files := Select(m, paths).value.files;
    Conservation(m, paths);
    FilesExplained(m, paths);
    PublishedOnce(m, files);
    forall p | p in Union(m.evidence) ensures InPlace(m, files, p) { PublishedInPlace(m, files, p); }
    forall p, n | p in Union(m.evidence) && KeepsAll(m, p) && Holds(m.evidence, n, p)
      ensures ContentPublished(m, files, p, n)
    {
      PublishedContent(m, files, p, n);
    }
  }

  // ----- When there is a result -----

  lemma {:induction false} MergeDecides(m: Merge, paths: seq<string>, d: Draft, p: string)
    requires Indexed(m.evidence) && p in paths && p in Union(m.evidence) && MergeFrom(m, paths, d).Ok?
    ensures Decided(m, p)
  {
    if p == paths[0] {
      ChoosesIff(m, p);
    } else {
      assert p in paths[1..];
      MergeDecides(m, paths[1..], MergePath(m, paths[0], d).value, p);
    }
  }

  lemma DecidedEach(m: Merge)
    requires Indexed(m.evidence) && m.decisions.Keys <= Union(m.evidence)
    requires forall p :: p in Union(m.evidence) ==> Decided(m, p)
    ensures EachDecided(m)
  {
    forall p | p in Union(m.evidence) ensures PathDecided(m.evidence, m.base, m.decisions, p) {
      DiffersIff(m.evidence, p);
      assert Decided(m, p);
    }
    forall p | p in m.decisions ensures KnownAction(m.decisions[p].action) { assert Decided(m, p); }
  }

  lemma CommonSize(all: set<string>, keys: set<string>)
    ensures |all * keys| == |keys| <==> keys <= all
  {
    Sets.SubsetSize(all * keys, keys);
    if keys <= all { assert all * keys == keys; }
  }

  lemma UsedCount(m: Merge, paths: seq<string>)
    requires Indexed(m.evidence) && Text.IsListing(paths, Union(m.evidence)) && Select(m, paths).Ok?
    ensures Select(m, paths).value.used == |Union(m.evidence) * m.decisions.Keys|
  {
    Conservation(m, paths);
  }

  lemma AllUsed(m: Merge, paths: seq<string>)
    requires Indexed(m.evidence) && Text.IsListing(paths, Union(m.evidence)) && Select(m, paths).Ok?
    ensures Select(m, paths).value.used == |m.decisions| <==> m.decisions.Keys <= Union(m.evidence)
  {
    UsedCount(m, paths);
    CommonSize(Union(m.evidence), m.decisions.Keys);
    assert |m.decisions| == |m.decisions.Keys|;
  }

  lemma ResultDecided(m: Merge, paths: seq<string>)
    requires Indexed(m.evidence) && Text.IsListing(paths, Union(m.evidence)) && Select(m, paths).Ok?
    ensures forall p :: p in Union(m.evidence) ==> Decided(m, p)
  {
    forall p | p in Union(m.evidence) ensures Decided(m, p) {
      MergeDecides(m, paths, Draft([], Union(m.evidence), 0), p);
    }
  }

  lemma ResultIff(m: Merge, paths: seq<string>)
    requires Checked(m) && Text.IsListing(paths, Union(m.evidence)) && m.decisions.Keys <= Union(m.evidence)
    requires forall p :: p in Union(m.evidence) ==> Decided(m, p)
    ensures Select(m, paths).Ok? <==> AllSlots(m, paths)
  {
    DecidedEach(m);
    MergeExactly(m, paths, Draft([], Union(m.evidence), 0), {}, "");
  }

  /** The Agent publishes a merge that uses every decision if and only if every path of the sources
      is decided, no decision is about any other path, and every content to be kept has a place. */
  lemma PublishesIff(m: Merge, paths: seq<string>)
    requires Checked(m) && Text.IsListing(paths, Union(m.evidence))
    ensures Select(m, paths).Ok? && Select(m, paths).value.used == |m.decisions| <==>
            && (forall p :: p in Union(m.evidence) ==> Decided(m, p))
            && m.decisions.Keys <= Union(m.evidence) && AllSlots(m, paths)
  {
    if Select(m, paths).Ok? {
      AllUsed(m, paths);
      ResultDecided(m, paths);
    }
    if m.decisions.Keys <= Union(m.evidence) && forall p :: p in Union(m.evidence) ==> Decided(m, p) {
      ResultIff(m, paths);
    }
  }
}
