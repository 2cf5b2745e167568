/** Exactly when the Agent finds a place for every version it must preserve. */
module ConflictSlots {
  import opened ArchivePath
  import opened ConflictAgreement
  import opened ConflictChoices
  import opened ConflictFiles
  import opened ConflictMerge
  import Text

  // ----- Candidates as text -----

  lemma Regroup(directory: string, id: string, prefix: string, number: string, path: string)
    ensures directory + "/" + id + "/" + (prefix + number) + "/" + path == (directory + "/" + id + "/" + prefix) +
            (number + "/" + path)
  { }

  lemma SameTail(root: string, x: string, y: string)
    requires root + x == root + y
    ensures x == y
  {
    assert x == (root + x)[|root|..] && y == (root + y)[|root|..];
  }

  /** Different sources and paths are preserved at different places. */
  lemma BaseInjective(conflictId: string, a: int, p: string, b: int, q: string)
    requires PreservedBase(conflictId, a, p) == PreservedBase(conflictId, b, q)
    ensures a == b && p == q
  {
    Regroup(PRESERVED_DIRECTORY, conflictId, SOURCE_PREFIX, Text.Decimal(a), p);
    Regroup(PRESERVED_DIRECTORY, conflictId, SOURCE_PREFIX, Text.Decimal(b), q);
    SameTail(PRESERVED_DIRECTORY + "/" + conflictId + "/" + SOURCE_PREFIX, Text.Decimal(a) + "/" + p,
      Text.Decimal(b) + "/" + q);
    Text.DecimalLacks(a, '/');
    Text.DecimalLacks(b, '/');
    Text.CutUnique(Text.Decimal(a), p, Text.Decimal(b), q, '/');
    Text.DecimalInjective(a, b);
  }

  lemma AppendLast(a: string, slash: string, b: string, c: string, d: string, suffix: string)
    ensures a + slash + b + slash + c + slash + d + suffix == a + slash + b + slash + c + slash + (d + suffix)
  { }

  /** A suffixed candidate is the plain one of the suffixed path. */
  lemma CandidateIsBase(conflictId: string, node: int, p: string, k: nat)
    ensures Candidate(conflictId, node, p, k) == PreservedBase(conflictId, node, p + CopySuffix(k))
  {
    AppendLast(PRESERVED_DIRECTORY, "/", conflictId, SOURCE_PREFIX + Text.Decimal(node), p, CopySuffix(k));
  }

  lemma CandidatesEqual(conflictId: string, a: int, p: string, j: nat, b: int, q: string, k: nat)
    requires Candidate(conflictId, a, p, j) == Candidate(conflictId, b, q, k)
    ensures a == b && p + CopySuffix(j) == q + CopySuffix(k)
  {
    CandidateIsBase(conflictId, a, p, j);
    CandidateIsBase(conflictId, b, q, k);
    BaseInjective(conflictId, a, p + CopySuffix(j), b, q + CopySuffix(k));
  }

  /** Two paths with numbered suffixes agree only if path and number do. */
  lemma SuffixesEqual(p: string, j: nat, q: string, k: nat)
    requires j > 0 && k > 0 && p + CopySuffix(j) == q + CopySuffix(k)
    ensures p == q && j == k
  {
    Text.DigitsRoundTrip(j);
    Text.DigitsRoundTrip(k);
    assert p + CopySuffix(j) == (p + ".copy") + "-" + Text.Decimal(j);
    assert q + CopySuffix(k) == (q + ".copy") + "-" + Text.Decimal(k);
    Text.LastCutUnique(p + ".copy", Text.Decimal(j), q + ".copy", Text.Decimal(k), '-');
    assert p == (p + ".copy")[..|p|] && q == (q + ".copy")[..|q|];
    Text.DecimalInjective(j, k);
  }

  // ----- Where each version goes -----

  ghost function NodeAt(m: Merge, i: nat): int
    requires i < |m.evidence.nodes|
  {
    m.evidence.nodes[i]
  }

  /** Source number `i` is the first to bring a version of `p` other than the chosen one, and all are preserved. */
  ghost predicate NeedsCopy(m: Merge, i: nat, p: string)
    requires i < |m.evidence.nodes|
  {
    && PreserveAll(m, p) && Choose(m, p).Ok? && Holds(m.evidence, Choose(m, p).value, p) &&
       Holds(m.evidence, NodeAt(m, i), p)
    && Version(Lookup(m.evidence, NodeAt(m, i), p)) != Version(Lookup(m.evidence, Choose(m, p).value, p))
    && Version(Lookup(m.evidence, NodeAt(m, i), p)) !in VersionsOf(m.evidence, p, i)
  }

  ghost predicate NodeNeedsCopy(m: Merge, n: int, p: string) {
    exists i :: 0 <= i < |m.evidence.nodes| && NodeAt(m, i) == n && NeedsCopy(m, i, p)
  }

  /** The first numbered candidate from `k` on that no source holds. */
  ghost function FirstGap(m: Merge, n: int, p: string, k: nat): (g: nat)
    requires k <= MAX_SUFFIX
    ensures k <= g <= MAX_SUFFIX
    ensures forall j :: k <= j < g ==> Candidate(m.conflictId, n, p, j) in Union(m.evidence)
    ensures g < MAX_SUFFIX ==> Candidate(m.conflictId, n, p, g) !in Union(m.evidence)
    decreases MAX_SUFFIX - k
  {
    if k == MAX_SUFFIX || Candidate(m.conflictId, n, p, k) !in Union(m.evidence) then k else FirstGap(m, n, p, k + 1)
  }

  /** The plain candidate is a file of some source, or the place already given to a shorter path
      of the same source. */
  ghost predicate PlainTaken(m: Merge, n: int, p: string)
    decreases |p|, 0
  {
    || PreservedBase(m.conflictId, n, p) in Union(m.evidence)
    || exists q: string :: |q| < |p| && NodeNeedsCopy(m, n, q) && Slot(m, n, q) < MAX_SUFFIX &&
                           p == q + CopySuffix(Slot(m, n, q))
  }

  /** The suffix under which source `n`'s version of `p` is kept; `MAX_SUFFIX` when there is no place. */
  ghost function Slot(m: Merge, n: int, p: string): (k: nat)
    ensures k <= MAX_SUFFIX
    decreases |p|, 1
  {
    if PlainTaken(m, n, p) then FirstGap(m, n, p, 1) else 0
  }

  /** There is no place exactly when the plain candidate is taken and the sources hold all 999 numbered ones. */
  lemma NoSlotIff(m: Merge, n: int, p: string)
    ensures Slot(m, n, p) == MAX_SUFFIX <==>
            PlainTaken(m, n, p) && forall k :: 1 <= k < MAX_SUFFIX ==>
              Candidate(m.conflictId, n, p, k) in Union(m.evidence)
  {
    var g := FirstGap(m, n, p, 1);
  }

  // ----- What is reserved while the merge runs -----

  /** `r` is the place of a copy already made: of a finished path, or of an earlier source of `path`. */
  ghost predicate CopyAt(m: Merge, r: string, i: nat, q: string, done: set<string>, path: string, k: nat)
    requires i < |m.evidence.nodes|
  {
    && NeedsCopy(m, i, q) && (q in done || (q == path && i < k)) && Slot(m, NodeAt(m, i), q) < MAX_SUFFIX
    && r == Candidate(m.conflictId, NodeAt(m, i), q, Slot(m, NodeAt(m, i), q))
  }

  ghost predicate Copied(m: Merge, r: string, done: set<string>, path: string, k: nat) {
    exists i: nat, q: string :: i < |m.evidence.nodes| && CopyAt(m, r, i, q, done, path, k)
  }

  ghost predicate ReservedIs(m: Merge, reserved: set<string>, done: set<string>, path: string, k: nat) {
    forall r :: r in reserved <==> r in Union(m.evidence) || Copied(m, r, done, path, k)
  }

  /** The finished paths are those before `path`. */
  ghost predicate DoneBefore(m: Merge, done: set<string>, path: string) {
    forall q :: q in done <==> q in Union(m.evidence) && Text.Less(q, path)
  }

  lemma HeldInUnion(m: Merge, i: nat, q: string)
    requires i < |m.evidence.nodes| && NeedsCopy(m, i, q)
    ensures q in Union(m.evidence)
  {
    assert m.evidence.nodes[i] in m.evidence.nodes;
    UnionHolds(m.evidence, q);
  }

  /** One version of a path is copied for one source only. */
  lemma CopyOnce(m: Merge, i: nat, j: nat, p: string)
    requires i < j < |m.evidence.nodes| && NodeAt(m, i) == NodeAt(m, j) && NeedsCopy(m, i, p)
    ensures !NeedsCopy(m, j, p)
  {
    VersionsPrefix(m.evidence, p, j, Version(Lookup(m.evidence, NodeAt(m, i), p)));
    assert Holds(m.evidence, m.evidence.nodes[i], p);
  }

  lemma PrefixLess(q: string, p: string)
    requires q <= p && q != p
    ensures Text.Less(q, p)
    decreases |q|
  {
    if q != "" {
      assert q[0] == p[0] && q[1..] <= p[1..];
      assert q == [q[0]] + q[1..] && p == [p[0]] + p[1..];
      PrefixLess(q[1..], p[1..]);
    }
  }

  /** A numbered candidate can only be taken by a file of some source. */
  lemma NumberedReserved(m: Merge, i: nat, p: string, reserved: set<string>, done: set<string>, k: nat)
    requires i < |m.evidence.nodes| && NeedsCopy(m, i, p) && DoneBefore(m, done, p) &&
             ReservedIs(m, reserved, done, p, i) && k > 0
    ensures Candidate(m.conflictId, NodeAt(m, i), p, k) in reserved <==>
            Candidate(m.conflictId, NodeAt(m, i), p, k) in Union(m.evidence)
  {
    var r := Candidate(m.conflictId, NodeAt(m, i), p, k);
    if Copied(m, r, done, p, i) {
      var j: nat, q: string :| j < |m.evidence.nodes| && CopyAt(m, r, j, q, done, p, i);
      CopyElsewhere(m, i, p, done, k, j, q);
    }
  }

  lemma CopyElsewhere(m: Merge, i: nat, p: string, done: set<string>, k: nat, j: nat, q: string)
    requires i < |m.evidence.nodes| && j < |m.evidence.nodes| && NeedsCopy(m, i, p) && DoneBefore(m, done, p) && k > 0
    ensures !CopyAt(m, Candidate(m.conflictId, NodeAt(m, i), p, k), j, q, done, p, i)
  {
    if CopyAt(m, Candidate(m.conflictId, NodeAt(m, i), p, k), j, q, done, p, i) {
      var s := Slot(m, NodeAt(m, j), q);
      CandidatesEqual(m.conflictId, NodeAt(m, i), p, k, NodeAt(m, j), q, s);
      Text.LessIrreflexive(p);
      if s == 0 {
        LongerNotBefore(p, q, k);
      } else {
        SuffixesEqual(p, k, q, s);
        CopyOnce(m, j, i, p);
      }
    }
  }

  lemma LongerNotBefore(p: string, q: string, k: nat)
    requires k > 0 && q + CopySuffix(0) == p + CopySuffix(k)
    ensures q != p && !Text.Less(q, p)
  {
    assert q == p + CopySuffix(k) && |CopySuffix(k)| > 0;
    PrefixLess(p, q);
    if Text.Less(q, p) { Text.LessAsymmetric(p, q); }
  }

  /** The plain candidate is taken exactly as `PlainTaken` says. */
  lemma PlainReserved(m: Merge, i: nat, p: string, reserved: set<string>, done: set<string>)
    requires i < |m.evidence.nodes| && NeedsCopy(m, i, p) && DoneBefore(m, done, p) &&
             ReservedIs(m, reserved, done, p, i)
    ensures PreservedBase(m.conflictId, NodeAt(m, i), p) in reserved <==> PlainTaken(m, NodeAt(m, i), p)
  {
    var n, r := NodeAt(m, i), PreservedBase(m.conflictId, NodeAt(m, i), p);
    if Copied(m, r, done, p, i) {
      var j: nat, q: string :| j < |m.evidence.nodes| && CopyAt(m, r, j, q, done, p, i);
      PlainCopied(m, i, p, done, j, q);
    }
    if q: string :| |q| < |p| && NodeNeedsCopy(m, n, q) && Slot(m, n, q) < MAX_SUFFIX &&
                    p == q + CopySuffix(Slot(m, n, q)) {
      var j: nat :| j < |m.evidence.nodes| && NodeAt(m, j) == n && NeedsCopy(m, j, q);
      HeldInUnion(m, j, q);
      PrefixLess(q, p);
      CandidateIsBase(m.conflictId, n, q, Slot(m, n, q));
      assert CopyAt(m, r, j, q, done, p, i);
    }
  }

  lemma PlainCopied(m: Merge, i: nat, p: string, done: set<string>, j: nat, q: string)
    requires i < |m.evidence.nodes| && j < |m.evidence.nodes| && NeedsCopy(m, i, p) && DoneBefore(m, done, p)
    requires CopyAt(m, PreservedBase(m.conflictId, NodeAt(m, i), p), j, q, done, p, i)
    ensures PlainTaken(m, NodeAt(m, i), p)
  {
    var n, s := NodeAt(m, i), Slot(m, NodeAt(m, j), q);
    CandidateIsBase(m.conflictId, NodeAt(m, j), q, s);
    BaseInjective(m.conflictId, n, p, NodeAt(m, j), q + CopySuffix(s));
    if s == 0 {
      assert q + CopySuffix(0) == q;
      Text.LessIrreflexive(p);
      CopyOnce(m, j, i, p);
    } else {
      assert |q| < |p|;
      assert NodeNeedsCopy(m, n, q);
    }
  }

  // ----- The search finds the slot -----

  ghost function Outcome(m: Merge, n: int, p: string, k: nat): PathOutcome {
    if k < MAX_SUFFIX then Kept(Candidate(m.conflictId, n, p, k)) else Refused(Collision)
  }

  lemma {:induction false} NumberedSearch(m: Merge, i: nat, p: string, reserved: set<string>, done: set<string>, k: nat)
    requires Checked(m) && i < |m.evidence.nodes| && NeedsCopy(m, i, p) && DoneBefore(m, done, p) &&
             ReservedIs(m, reserved, done, p, i)
    requires 0 < k <= MAX_SUFFIX && p in Union(m.evidence) && NodeAt(m, i) > 0
    ensures FirstFree(m.conflictId, NodeAt(m, i), p, reserved, k) ==
            Outcome(m, NodeAt(m, i), p, FirstGap(m, NodeAt(m, i), p, k))
    decreases MAX_SUFFIX - k
  {
    if k < MAX_SUFFIX {
      CandidateSafe(m.conflictId, NodeAt(m, i), p, k);
      NumberedReserved(m, i, p, reserved, done, k);
      NumberedSearch(m, i, p, reserved, done, k + 1);
    }
  }

  lemma SearchFindsSlot(m: Merge, i: nat, p: string, reserved: set<string>, done: set<string>)
    requires Checked(m) && i < |m.evidence.nodes| && NeedsCopy(m, i, p) && DoneBefore(m, done, p) &&
             ReservedIs(m, reserved, done, p, i)
    ensures PreservedPath(m.conflictId, NodeAt(m, i), p, reserved) ==
            Outcome(m, NodeAt(m, i), p, Slot(m, NodeAt(m, i), p))
  {
    var n := NodeAt(m, i);
    HeldInUnion(m, i, p);
    assert n in m.evidence.nodes;
    CandidateSafe(m.conflictId, n, p, 0);
    assert Candidate(m.conflictId, n, p, 0) == PreservedBase(m.conflictId, n, p);
    PlainReserved(m, i, p, reserved, done);
    NumberedSearch(m, i, p, reserved, done, 1);
  }

  // ----- The merge succeeds exactly when every copy has a slot -----

  ghost predicate HasSlot(m: Merge, i: nat, p: string)
    requires i < |m.evidence.nodes|
  {
    NeedsCopy(m, i, p) ==> Slot(m, NodeAt(m, i), p) < MAX_SUFFIX
  }

  ghost predicate HasSlots(m: Merge, p: string) {
    forall i :: 0 <= i < |m.evidence.nodes| ==> HasSlot(m, i, p)
  }

  /** One more source means at most its own copy more. */
  lemma CopiedBefore(m: Merge, r: string, done: set<string>, p: string, i: nat)
    requires 0 < i <= |m.evidence.nodes| && Copied(m, r, done, p, i)
    ensures Copied(m, r, done, p, i - 1) || CopyAt(m, r, i - 1, p, done, p, i)
  {
    var j: nat, q: string :| j < |m.evidence.nodes| && CopyAt(m, r, j, q, done, p, i);
    if q in done || j < i - 1 {
      assert CopyAt(m, r, j, q, done, p, i - 1);
    } else {
      assert j == i - 1 && q == p;
    }
  }

  lemma CopiedStill(m: Merge, r: string, done: set<string>, p: string, i: nat)
    requires 0 < i <= |m.evidence.nodes| && Copied(m, r, done, p, i - 1)
    ensures Copied(m, r, done, p, i)
  {
    var j: nat, q: string :| j < |m.evidence.nodes| && CopyAt(m, r, j, q, done, p, i - 1);
    assert CopyAt(m, r, j, q, done, p, i);
  }

  lemma ReservedSame(m: Merge, reserved: set<string>, done: set<string>, p: string, i: nat)
    requires 0 < i <= |m.evidence.nodes| && ReservedIs(m, reserved, done, p, i - 1) && !NeedsCopy(m, i - 1, p)
    ensures ReservedIs(m, reserved, done, p, i)
  {
    forall r ensures r in reserved <==> r in Union(m.evidence) || Copied(m, r, done, p, i) {
      if Copied(m, r, done, p, i) { CopiedBefore(m, r, done, p, i); }
      if Copied(m, r, done, p, i - 1) { CopiedStill(m, r, done, p, i); }
    }
  }

  /** One more copy is reserved; nothing else is. */
  lemma ReservedMore(m: Merge, reserved: set<string>, more: set<string>, done: set<string>, p: string, i: nat)
    requires 0 < i <= |m.evidence.nodes| && ReservedIs(m, reserved, done, p, i - 1)
    requires NeedsCopy(m, i - 1, p) && Slot(m, NodeAt(m, i - 1), p) < MAX_SUFFIX &&
             more == reserved + {Place(m, i - 1, p)}
    ensures ReservedIs(m, more, done, p, i)
  {
    assert CopyAt(m, Place(m, i - 1, p), i - 1, p, done, p, i);
    forall r ensures r in more <==> r in Union(m.evidence) || Copied(m, r, done, p, i) {
      if Copied(m, r, done, p, i) { CopiedBefore(m, r, done, p, i); }
      if Copied(m, r, done, p, i - 1) { CopiedStill(m, r, done, p, i); }
    }
  }

  ghost function Place(m: Merge, i: nat, p: string): string
    requires i < |m.evidence.nodes|
  {
    Candidate(m.conflictId, NodeAt(m, i), p, Slot(m, NodeAt(m, i), p))
  }

  /** What is known of each source's turn at one path: whether it needs a copy, where that goes,
      whether there is room, and the versions kept before it. */
  datatype Turns = Turns(needs: seq<bool>, places: seq<string>, fits: seq<bool>, kept: seq<set<string>>)

  ghost predicate TurnsFor(t: Turns, n: nat) {
    |t.needs| == n && |t.places| == n && |t.fits| == n && |t.kept| == n + 1
  }

  ghost function ReservedAt(t: Turns, start: set<string>, i: nat): set<string>
    requires i <= |t.needs| <= |t.places|
  {
    if i == 0 then start
    else if t.needs[i - 1] then ReservedAt(t, start, i - 1) + {t.places[i - 1]}
    else ReservedAt(t, start, i - 1)
  }

  ghost predicate AllFit(t: Turns, from: nat, to: nat)
    requires to <= |t.fits|
  {
    forall i :: from <= i < to ==> t.fits[i]
  }

  /** Turn `i` of the loop goes as recorded. */
  ghost predicate TurnHolds(m: Merge, p: string, t: Turns, start: set<string>, i: nat)
    requires i < |m.evidence.nodes| && TurnsFor(t, |m.evidence.nodes|)
  {
    && (t.needs[i] <==>
        Holds(m.evidence, NodeAt(m, i), p) && Version(Lookup(m.evidence, NodeAt(m, i), p)) !in t.kept[i])
    && t.kept[i + 1] == (if t.needs[i] then t.kept[i] + {Version(Lookup(m.evidence, NodeAt(m, i), p))} else t.kept[i])
    && (!t.needs[i] ==> t.fits[i])
    && (t.needs[i] && AllFit(t, 0, i) ==>
          PreservedPath(m.conflictId, NodeAt(m, i), p, ReservedAt(t, start, i)) ==
            if t.fits[i] then Kept(t.places[i]) else Refused(Collision))
  }

  lemma TurnTaken(m: Merge, p: string, t: Turns, start: set<string>, i: nat, d: Draft)
    requires i < |m.evidence.nodes| && TurnsFor(t, |m.evidence.nodes|) && TurnHolds(m, p, t, start, i)
    requires AllFit(t, 0, i) && d.reserved == ReservedAt(t, start, i)
    ensures PreserveOne(m, p, i, t.kept[i], d).Ok? <==> t.fits[i]
    ensures t.fits[i] ==> var (next, kept) := PreserveOne(m, p, i, t.kept[i], d).value;
                          kept == t.kept[i + 1] && next.reserved == ReservedAt(t, start, i + 1)
  { }

  lemma {:induction false} PreserveWalk(m: Merge, p: string, t: Turns, start: set<string>, i: nat, d: Draft)
    requires TurnsFor(t, |m.evidence.nodes|) && i <= |m.evidence.nodes| && AllFit(t, 0, i) &&
             d.reserved == ReservedAt(t, start, i)
    requires forall j :: 0 <= j < |m.evidence.nodes| ==> TurnHolds(m, p, t, start, j)
    ensures var r := PreserveFrom(m, p, i, t.kept[i], d);
            && (r.Ok? <==> AllFit(t, 0, |m.evidence.nodes|)) &&
               (r.Ok? ==> r.value.reserved == ReservedAt(t, start, |m.evidence.nodes|))
    decreases |m.evidence.nodes| - i
  {
    if i < |m.evidence.nodes| {
      TurnTaken(m, p, t, start, i, d);
      if t.fits[i] { PreserveWalk(m, p, t, start, i + 1, PreserveOne(m, p, i, t.kept[i], d).value.0); }
    }
  }

  // ----- The turns of this merge -----

  ghost function KeptAt(m: Merge, p: string, i: nat): set<string>
    requires i <= |m.evidence.nodes| && Choose(m, p).Ok? && Holds(m.evidence, Choose(m, p).value, p)
  {
    {Version(Lookup(m.evidence, Choose(m, p).value, p))} + VersionsOf(m.evidence, p, i)
  }

  ghost function TurnsOf(m: Merge, p: string): (t: Turns)
    requires Choose(m, p).Ok? && Holds(m.evidence, Choose(m, p).value, p)
    ensures TurnsFor(t, |m.evidence.nodes|)
  {
    var n := |m.evidence.nodes|;
    Turns(seq(n, i requires 0 <= i < n => NeedsCopy(m, i, p)), seq(n, i requires 0 <= i < n => Place(m, i, p)),
          seq(n, i requires 0 <= i < n => HasSlot(m, i, p)), seq(n + 1, i requires 0 <= i < n + 1 => KeptAt(m, p, i)))
  }

  lemma KeptTurn(m: Merge, p: string, i: nat)
    requires i < |m.evidence.nodes| && PreserveAll(m, p) && Choose(m, p).Ok? && Holds(m.evidence, Choose(m, p).value, p)
    ensures NeedsCopy(m, i, p) <==>
            Holds(m.evidence, NodeAt(m, i), p) && Version(Lookup(m.evidence, NodeAt(m, i), p)) !in KeptAt(m, p, i)
    ensures KeptAt(m, p, i + 1) ==
            if NeedsCopy(m, i, p) then KeptAt(m, p, i) + {Version(Lookup(m.evidence, NodeAt(m, i), p))}
              else KeptAt(m, p, i)
  { }

  /** The record says of source `i` what is true of it. */
  ghost predicate Recorded(m: Merge, p: string, t: Turns, i: nat)
    requires i < |m.evidence.nodes| && TurnsFor(t, |m.evidence.nodes|)
  {
    t.needs[i] == NeedsCopy(m, i, p) && t.places[i] == Place(m, i, p) && t.fits[i] == HasSlot(m, i, p)
  }

  lemma TurnsRecorded(m: Merge, p: string)
    requires Choose(m, p).Ok? && Holds(m.evidence, Choose(m, p).value, p)
    ensures forall i :: 0 <= i < |m.evidence.nodes| ==> Recorded(m, p, TurnsOf(m, p), i)
  { }

  lemma ReservedTurn(m: Merge, start: set<string>, done: set<string>, p: string, t: Turns, i: nat)
    requires 0 < i <= |m.evidence.nodes| && TurnsFor(t, |m.evidence.nodes|) && Recorded(m, p, t, i - 1) && t.fits[i - 1]
    requires ReservedIs(m, ReservedAt(t, start, i - 1), done, p, i - 1)
    ensures ReservedIs(m, ReservedAt(t, start, i), done, p, i)
  {
    if t.needs[i - 1] {
      ReservedMore(m, ReservedAt(t, start, i - 1), ReservedAt(t, start, i), done, p, i);
    } else {
      ReservedSame(m, ReservedAt(t, start, i), done, p, i);
    }
  }

  lemma {:induction false} ReservedThroughout(m: Merge, start: set<string>, done: set<string>, p: string, t: Turns,
      i: nat)
    requires TurnsFor(t, |m.evidence.nodes|) && i <= |m.evidence.nodes| && forall j :: 0 <= j < |m.evidence.nodes| ==>
             Recorded(m, p, t, j)
    requires ReservedIs(m, start, done, p, 0) && AllFit(t, 0, i)
    ensures ReservedIs(m, ReservedAt(t, start, i), done, p, i)
  {
    if i > 0 {
      ReservedThroughout(m, start, done, p, t, i - 1);
      ReservedTurn(m, start, done, p, t, i);
    }
  }

  lemma TurnSearched(m: Merge, p: string, t: Turns, start: set<string>, done: set<string>, i: nat)
    requires Checked(m) && i < |m.evidence.nodes| && DoneBefore(m, done, p) && ReservedIs(m, start, done, p, 0)
    requires TurnsFor(t, |m.evidence.nodes|) && forall j :: 0 <= j < |m.evidence.nodes| ==> Recorded(m, p, t, j)
    requires t.needs[i] && AllFit(t, 0, i)
    ensures PreservedPath(m.conflictId, NodeAt(m, i), p, ReservedAt(t, start, i)) ==
            if t.fits[i] then Kept(t.places[i]) else Refused(Collision)
  {
    assert Recorded(m, p, t, i);
    ReservedThroughout(m, start, done, p, t, i);
    SearchFindsSlot(m, i, p, ReservedAt(t, start, i), done);
  }

  lemma TurnIsRight(m: Merge, p: string, start: set<string>, done: set<string>, i: nat)
    requires Checked(m) && i < |m.evidence.nodes| && PreserveAll(m, p) && Choose(m, p).Ok? &&
             Holds(m.evidence, Choose(m, p).value, p)
    requires DoneBefore(m, done, p) && ReservedIs(m, start, done, p, 0)
    ensures TurnHolds(m, p, TurnsOf(m, p), start, i)
  {
    var t := TurnsOf(m, p);
    KeptTurn(m, p, i);
    TurnsRecorded(m, p);
    assert t.kept[i] == KeptAt(m, p, i) && t.kept[i + 1] == KeptAt(m, p, i + 1) && Recorded(m, p, t, i);
    if t.needs[i] && AllFit(t, 0, i) { TurnSearched(m, p, t, start, done, i); }
  }

  lemma SlotsFit(m: Merge, p: string)
    requires Choose(m, p).Ok? && Holds(m.evidence, Choose(m, p).value, p)
    ensures AllFit(TurnsOf(m, p), 0, |m.evidence.nodes|) <==> HasSlots(m, p)
  {
    var t := TurnsOf(m, p);
    assert forall i :: 0 <= i < |m.evidence.nodes| ==> t.fits[i] == HasSlot(m, i, p);
  }

  lemma PreserveExactly(m: Merge, p: string, d: Draft, done: set<string>)
    requires Checked(m) && PreserveAll(m, p) && Choose(m, p).Ok? && Holds(m.evidence, Choose(m, p).value, p)
    requires DoneBefore(m, done, p) && ReservedIs(m, d.reserved, done, p, 0)
    ensures var r := PreserveFrom(m, p, 0, KeptAt(m, p, 0), d);
            (r.Ok? <==> HasSlots(m, p)) && (r.Ok? ==> ReservedIs(m, r.value.reserved, done, p, |m.evidence.nodes|))
  {
    var t := TurnsOf(m, p);
    forall i: nat | i < |m.evidence.nodes| ensures TurnHolds(m, p, t, d.reserved, i) {
      TurnIsRight(m, p, d.reserved, done, i);
    }
    assert t.kept[0] == KeptAt(m, p, 0);
    PreserveWalk(m, p, t, d.reserved, 0, d);
    SlotsFit(m, p);
    TurnsRecorded(m, p);
    if HasSlots(m, p) { ReservedThroughout(m, d.reserved, done, p, t, |m.evidence.nodes|); }
  }

  lemma NothingToCopy(m: Merge, reserved: set<string>, done: set<string>, p: string)
    requires !PreserveAll(m, p) && ReservedIs(m, reserved, done, p, 0)
    ensures ReservedIs(m, reserved, done, p, |m.evidence.nodes|) && HasSlots(m, p)
  {
    forall r ensures Copied(m, r, done, p, |m.evidence.nodes|) <==> Copied(m, r, done, p, 0) {
      if Copied(m, r, done, p, |m.evidence.nodes|) {
        var j: nat, q: string :| j < |m.evidence.nodes| && CopyAt(m, r, j, q, done, p, |m.evidence.nodes|);
        assert CopyAt(m, r, j, q, done, p, 0);
      }
      if Copied(m, r, done, p, 0) {
        var j: nat, q: string :| j < |m.evidence.nodes| && CopyAt(m, r, j, q, done, p, 0);
        assert CopyAt(m, r, j, q, done, p, |m.evidence.nodes|);
      }
    }
  }

  lemma MergePathExactly(m: Merge, p: string, d: Draft, done: set<string>)
    requires Checked(m) && GoodActions(m.decisions) && p in Union(m.evidence) &&
             PathDecided(m.evidence, m.base, m.decisions, p)
    requires DoneBefore(m, done, p) && ReservedIs(m, d.reserved, done, p, 0)
    ensures MergePath(m, p, d).Ok? <==> HasSlots(m, p)
    ensures MergePath(m, p, d).Ok? ==> ReservedIs(m, MergePath(m, p, d).value.reserved, done, p, |m.evidence.nodes|)
  {
    ChoiceSucceeds(m, p);
    var node := Choose(m, p).value;
    var kept := {Version(Lookup(m.evidence, node, p))};
    if PreserveAll(m, p) {
      assert KeptAt(m, p, 0) == kept;
      PreserveExactly(m, p, AddChosen(m, p, node, d), done);
    } else {
      NothingToCopy(m, d.reserved, done, p);
    }
  }

  /** With `p` finished, its copies count as those of a finished path. */
  lemma ReservedNext(m: Merge, reserved: set<string>, done: set<string>, p: string, next: string)
    requires ReservedIs(m, reserved, done, p, |m.evidence.nodes|)
    ensures ReservedIs(m, reserved, done + {p}, next, 0)
  {
    forall r ensures Copied(m, r, done + {p}, next, 0) <==> Copied(m, r, done, p, |m.evidence.nodes|) {
      if Copied(m, r, done + {p}, next, 0) {
        var j: nat, q: string :| j < |m.evidence.nodes| && CopyAt(m, r, j, q, done + {p}, next, 0);
        assert CopyAt(m, r, j, q, done, p, |m.evidence.nodes|);
      }
      if Copied(m, r, done, p, |m.evidence.nodes|) {
        var j: nat, q: string :| j < |m.evidence.nodes| && CopyAt(m, r, j, q, done, p, |m.evidence.nodes|);
        assert CopyAt(m, r, j, q, done + {p}, next, 0);
      }
    }
  }

  /** What is left of the sorted listing: all paths not before its first. */
  ghost predicate LeftOf(m: Merge, paths: seq<string>, done: set<string>) {
    && Text.Ascending(paths) && (forall q :: q in Union(m.evidence) <==> q in done || q in paths)
    && forall q, p :: q in done && p in paths ==> Text.Less(q, p)
  }

  lemma FirstOfLeft(m: Merge, paths: seq<string>, done: set<string>)
    requires LeftOf(m, paths, done) && paths != []
    ensures paths[0] in Union(m.evidence) && DoneBefore(m, done, paths[0]) && LeftOf(m, paths[1..], done + {paths[0]})
  {
    var first, rest := paths[0], paths[1..];
    assert paths == [first] + rest;
    Text.AscendingTailLacks(paths);
    forall p | p in rest ensures Text.Less(first, p) {
      var i :| 0 <= i < |rest| && rest[i] == p;
      Text.AscendingOrder(paths, 0, i + 1);
    }
    forall q ensures q in done <==> q in Union(m.evidence) && Text.Less(q, first) {
      Text.LessIrreflexive(first);
      if q in rest && Text.Less(q, first) { Text.LessAsymmetric(first, q); }
    }
  }

  ghost predicate AllSlots(m: Merge, paths: seq<string>) {
    forall p :: p in paths ==> HasSlots(m, p)
  }

  lemma AllSlotsStep(m: Merge, paths: seq<string>)
    requires paths != []
    ensures AllSlots(m, paths) <==> HasSlots(m, paths[0]) && AllSlots(m, paths[1..])
  {
    assert paths == [paths[0]] + paths[1..];
  }

  ghost predicate EachDecided(m: Merge) {
    GoodActions(m.decisions) && forall p :: p in Union(m.evidence) ==> PathDecided(m.evidence, m.base, m.decisions, p)
  }

  lemma {:induction false} MergeExactly(m: Merge, paths: seq<string>, d: Draft, done: set<string>, last: string)
    requires Checked(m) && EachDecided(m) && LeftOf(m, paths, done) && ReservedIs(m, d.reserved, done, last, 0)
    ensures MergeFrom(m, paths, d).Ok? <==> AllSlots(m, paths)
  {
    if paths != [] {
      var p, rest := paths[0], paths[1..];
      FirstOfLeft(m, paths, done);
      AllSlotsStep(m, paths);
      ReservedSwitch(m, d.reserved, done, last, p);
      MergePathExactly(m, p, d, done);
      var step := MergePath(m, p, d);
      if step.Ok? {
        ReservedNext(m, step.value.reserved, done, p, p);
        MergeExactly(m, rest, step.value, done + {p}, p);
      }
    }
  }

  lemma ReservedSwitch(m: Merge, reserved: set<string>, done: set<string>, last: string, path: string)
    requires ReservedIs(m, reserved, done, last, 0)
    ensures ReservedIs(m, reserved, done, path, 0)
  {
    forall r ensures Copied(m, r, done, path, 0) <==> Copied(m, r, done, last, 0) {
      if Copied(m, r, done, path, 0) {
        var j: nat, q: string :| j < |m.evidence.nodes| && CopyAt(m, r, j, q, done, path, 0);
        assert CopyAt(m, r, j, q, done, last, 0);
      }
      if Copied(m, r, done, last, 0) {
        var j: nat, q: string :| j < |m.evidence.nodes| && CopyAt(m, r, j, q, done, last, 0);
        assert CopyAt(m, r, j, q, done, path, 0);
      }
    }
  }

  /** Choices the Controller accepts build if and only if every version to be preserved has a
      slot; then every decision is used, and otherwise the search ran out. */
  lemma BuildsIffSlots(m: Merge, compute: set<int>, items: seq<Decision>, paths: seq<string>)
    requires Checked(m) && Text.IsListing(paths, Union(m.evidence))
    requires ValidChoices(m.evidence, compute, m.base, items) && m.decisions == DecisionMap(items)
    ensures Select(m, paths).Ok? <==> AllSlots(m, paths)
    ensures Settled(Select(m, paths))
    ensures Select(m, paths).Ok? ==> Select(m, paths).value.used == |items|
  {
    ValidatorImpliesBuilder(m, compute, items, paths);
    AcceptedMap(m.evidence, compute, m.base, items);
    MergeExactly(m, paths, Draft([], Union(m.evidence), 0), {}, "");
  }

  // ----- When there is nothing in the way -----

  function PreservedRoot(conflictId: string): string {
    PRESERVED_DIRECTORY + "/" + conflictId + "/"
  }

  /** No source already keeps files of this very conflict. */
  ghost predicate NotNested(m: Merge) {
    forall p :: p in Union(m.evidence) ==> !HasPrefix(p, PreservedRoot(m.conflictId))
  }

  lemma BaseUnderRoot(conflictId: string, node: int, path: string)
    ensures HasPrefix(PreservedBase(conflictId, node, path), PreservedRoot(conflictId))
  { }

  lemma {:induction false} PlainSlots(m: Merge, n: int, p: string)
    requires NotNested(m)
    ensures Slot(m, n, p) == 0
    decreases |p|
  {
    BaseUnderRoot(m.conflictId, n, p);
    forall q: string | |q| < |p| ensures p != q + CopySuffix(Slot(m, n, q)) {
      PlainSlots(m, n, q);
      assert |CopySuffix(0)| == 0;
    }
  }

  /** When no source holds files under this conflict's own preserved directory,
      accepted choices always build. */
  lemma ValidatorImpliesSuccess(m: Merge, compute: set<int>, items: seq<Decision>, paths: seq<string>)
    requires Checked(m) && NotNested(m) && Text.IsListing(paths, Union(m.evidence))
    requires ValidChoices(m.evidence, compute, m.base, items) && m.decisions == DecisionMap(items)
    ensures Select(m, paths).Ok? && Select(m, paths).value.used == |items|
  {
    forall p | p in paths ensures HasSlots(m, p) {
      forall i: nat | i < |m.evidence.nodes| ensures HasSlot(m, i, p) { PlainSlots(m, NodeAt(m, i), p); }
    }
    BuildsIffSlots(m, compute, items, paths);
  }
}
