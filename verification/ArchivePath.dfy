/** Relative paths inside a user tree: which names are safe, and where a merge
    keeps the versions that were not chosen. */
module ArchivePath {
  import opened Formats
  import Text

  function SlashIndex(p: string): (k: nat)
    ensures k <= |p| && '/' !in p[..k] && (k < |p| ==> p[k] == '/')
  {
    if |p| == 0 || p[0] == '/' then 0
    else
      var k := 1 + SlashIndex(p[1..]);
      assert p[..k] == [p[0]] + p[1..][..k - 1];
      k
  }

  predicate GoodName(c: string) {
    c != "" && c != "." && c != ".."
  }

  /** Local and equal to its own `filepath.Clean`, other than ".": slash-separated
      names, none of them empty, "." or "..". */
  predicate CleanPath(p: string)
    decreases |p|
  {
    var k := SlashIndex(p);
    GoodName(p[..k]) && (k < |p| ==> CleanPath(p[k + 1..]))
  }

  predicate HasPrefix(p: string, prefix: string) {
    prefix <= p
  }

  const ARCHIVE_METADATA := ".stcontrol-archive.json"
  const REPLICA_IDENTITY := ".stcontrol-replica.json"
  const CONFLICT_METADATA := ".stcontrol-conflict.json"

  predicate PlainCharacters(p: string) {
    '\\' !in p && ':' !in p && '\0' !in p
  }

  /** `safeArchivePath`. */
  predicate SafeArchivePath(p: string) {
    && p != "" && p != ARCHIVE_METADATA && p != REPLICA_IDENTITY && p != CONFLICT_METADATA
    && PlainCharacters(p) && (p == "." || CleanPath(p))
    && !HasPrefix(p, ".stcontrol/")
  }

  lemma SlashIndexAt(a: string, rest: string)
    requires '/' !in a && (rest == "" || rest[0] == '/')
    ensures SlashIndex(a + rest) == |a|
  {
    var p := a + rest;
    var k := SlashIndex(p);
    assert forall i :: 0 <= i < |a| ==> p[i] == a[i] && a[i] in a;
    assert rest != "" ==> p[|a|] == '/' && p[|a|] == rest[0];
    assert forall i :: 0 <= i < k ==> p[..k][i] == p[i] && p[..k][i] in p[..k];
  }

  /** Putting a clean path under a clean directory gives a clean path. */
  lemma {:induction false} CleanJoin(a: string, b: string)
    requires CleanPath(a) && CleanPath(b)
    ensures CleanPath(a + "/" + b)
    decreases |a|
  {
    var k := SlashIndex(a);
    var p := a + "/" + b;
    if k == |a| {
      assert a == a[..k] && p == a + ("/" + b);
      SlashIndexAt(a, "/" + b);
      assert p[..k] == a && p[k + 1..] == b;
    } else {
      var rest := a[k + 1..];
      CleanJoin(rest, b);
      assert p == a[..k] + ("/" + rest + "/" + b);
      SlashIndexAt(a[..k], "/" + rest + "/" + b);
      assert p[..k] == a[..k] && p[k + 1..] == rest + "/" + b;
    }
  }

  /** So does lengthening the last name. */
  lemma {:induction false} CleanSuffix(a: string, suffix: string)
    requires CleanPath(a) && |suffix| >= 2 && '/' !in suffix
    ensures CleanPath(a + suffix)
    decreases |a|
  {
    var k := SlashIndex(a);
    var p := a + suffix;
    if k == |a| {
      assert a == a[..k];
      SlashIndexAt(p, "");
      assert p + "" == p;
      assert p[..|p|] == p;
    } else {
      var rest := a[k + 1..];
      CleanSuffix(rest, suffix);
      assert p == a[..k] + ("/" + rest + suffix);
      SlashIndexAt(a[..k], "/" + rest + suffix);
      assert p[..k] == a[..k] && p[k + 1..] == rest + suffix;
    }
  }

  // ----- Where unchosen versions are kept -----

  const PRESERVED_DIRECTORY := "conflict-preserved"
  const SOURCE_PREFIX := "source-"
  const MAX_SUFFIX: nat := 1000

  function PreservedBase(conflictId: string, node: int, original: string): string {
    PRESERVED_DIRECTORY + "/" + conflictId + "/" + (SOURCE_PREFIX + Text.Decimal(node)) + "/" + original
  }

  function CopySuffix(k: nat): string {
    if k == 0 then "" else ".copy-" + Text.Decimal(k)
  }

  function Candidate(conflictId: string, node: int, original: string, k: nat): string {
    PreservedBase(conflictId, node, original) + CopySuffix(k)
  }

  datatype PathError = InvalidFile | InvalidPath | Collision

  datatype PathOutcome = Kept(path: string) | Refused(error: PathError)

  function FirstFree(conflictId: string, node: int, original: string, reserved: set<string>, k: nat): PathOutcome
    requires k <= MAX_SUFFIX
    decreases MAX_SUFFIX - k
  {
    if k == MAX_SUFFIX then Refused(Collision)
    else
      var candidate := Candidate(conflictId, node, original, k);
      if !SafeArchivePath(candidate) then Refused(InvalidPath)
      else if candidate in reserved then FirstFree(conflictId, node, original, reserved, k + 1)
      else Kept(candidate)
  }

  /** `conflictPreservedPath`. */
  function PreservedPath(conflictId: string, node: int, original: string, reserved: set<string>): PathOutcome {
    if !ValidUuid(conflictId) || node <= 0 || !SafeArchivePath(original) then Refused(InvalidFile)
    else FirstFree(conflictId, node, original, reserved, 0)
  }

  /** The search loop; the caller adds the path found to its reserved set. */
  method FindPreservedPath(conflictId: string, node: int, original: string, reserved: set<string>)
    returns (r: PathOutcome)
    ensures r == PreservedPath(conflictId, node, original, reserved)
  {
    if !ValidUuid(conflictId) || node <= 0 || !SafeArchivePath(original) { return Refused(InvalidFile); }
    var suffix := 0;
    while suffix < MAX_SUFFIX
      invariant suffix <= MAX_SUFFIX
      invariant PreservedPath(conflictId, node, original, reserved) ==
                FirstFree(conflictId, node, original, reserved, suffix)
    {
      var candidate := Candidate(conflictId, node, original, suffix);
      if !SafeArchivePath(candidate) { return Refused(InvalidPath); }
      if candidate !in reserved { return Kept(candidate); }
      suffix := suffix + 1;
    }
    return Refused(Collision);
  }

  lemma ThreeNames(a: string, b: string, c: string)
    requires '/' !in a && '/' !in b && '/' !in c && |a| > 2 && |b| > 2 && |c| > 2
    ensures CleanPath(a + "/" + b + "/" + c)
  {
    NameClean(a);
    NameClean(b);
    NameClean(c);
    CleanJoin(a, b);
    CleanJoin(a + "/" + b, c);
  }

  lemma DirectoryClean(conflictId: string, node: int)
    requires ValidUuid(conflictId) && node > 0
    ensures CleanPath(PRESERVED_DIRECTORY + "/" + conflictId + "/" + (SOURCE_PREFIX + Text.Decimal(node)))
  {
    Text.DecimalLacks(node, '/');
    ThreeNames(PRESERVED_DIRECTORY, conflictId, SOURCE_PREFIX + Text.Decimal(node));
  }

  lemma NameClean(c: string)
    requires '/' !in c && |c| > 2
    ensures CleanPath(c)
  {
    SlashIndexAt(c, "");
    assert c + "" == c && c[..|c|] == c;
  }

  lemma PlainJoin(a: string, b: string)
    ensures PlainCharacters(a + b) <==> PlainCharacters(a) && PlainCharacters(b)
  { }

  lemma DirectoryPlain(conflictId: string, node: int)
    requires ValidUuid(conflictId) && node > 0
    ensures PlainCharacters(PRESERVED_DIRECTORY + "/" + conflictId + "/" + (SOURCE_PREFIX + Text.Decimal(node)))
  {
    DecimalPlain(node);
    PlainJoin(SOURCE_PREFIX, Text.Decimal(node));
    PlainJoin(PRESERVED_DIRECTORY, "/");
    PlainJoin(PRESERVED_DIRECTORY + "/", conflictId);
    PlainJoin(PRESERVED_DIRECTORY + "/" + conflictId, "/");
    PlainJoin(PRESERVED_DIRECTORY + "/" + conflictId + "/", SOURCE_PREFIX + Text.Decimal(node));
  }

  lemma DecimalPlain(n: int)
    ensures PlainCharacters(Text.Decimal(n))
  {
    Text.DecimalLacks(n, '\\');
    Text.DecimalLacks(n, ':');
    Text.DecimalLacks(n, '\0');
  }

  /** Every candidate for a safe original is itself safe, so the search can only
      fail by running out of suffixes. */
  lemma CandidateSafe(conflictId: string, node: int, original: string, k: nat)
    requires ValidUuid(conflictId) && node > 0 && SafeArchivePath(original) && original != "."
    ensures SafeArchivePath(Candidate(conflictId, node, original, k))
  {
    var directory := PRESERVED_DIRECTORY + "/" + conflictId + "/" + (SOURCE_PREFIX + Text.Decimal(node));
    var base := PreservedBase(conflictId, node, original);
    assert base == directory + "/" + original;
    DirectoryClean(conflictId, node);
    CleanJoin(directory, original);
    DirectoryPlain(conflictId, node);
    PlainJoin(directory, "/");
    PlainJoin(directory + "/", original);
    var suffix := CopySuffix(k);
    if k > 0 {
      Text.DecimalLacks(k, '/');
      CleanSuffix(base, suffix);
      DecimalPlain(k);
      PlainJoin(".copy-", Text.Decimal(k));
      PlainJoin(base, suffix);
    } else {
      assert base + suffix == base;
    }
    assert directory[0] == 'c' && (base + suffix)[0] == 'c';
  }
}
