/** What an accepted archive or replica is: the tree the manifest was taken from, or a digest collision. */
module SnapshotIntegrity {
  import opened ArchivePath
  import opened ConflictFiles
  import opened EvidencePages
  import opened Formats
  import opened SnapshotArchive
  import opened SnapshotArchiveTheorems
  import Text
  import TransferTable

  // ----- Hex text and the bytes it stands for -----

  function Nibble(c: char): nat
    requires IsHexDigit(c)
  {
    if '0' <= c <= '9' then c as int - '0' as int
    else if 'a' <= c <= 'f' then 10 + (c as int - 'a' as int)
    else 10 + (c as int - 'A' as int)
  }

  predicate IsHex(s: string) {
    forall i :: 0 <= i < |s| ==> IsHexDigit(s[i])
  }

  function HexBytes(s: string): seq<nat>
    requires IsHex(s)
  {
    seq(|s| / 2, i requires 0 <= i < |s| / 2 => 16 * Nibble(s[2 * i]) + Nibble(s[2 * i + 1]))
  }

  lemma FoldNibble(a: char, b: char)
    requires IsHexDigit(a) && IsHexDigit(b)
    ensures Fold(a) == Fold(b) <==> Nibble(a) == Nibble(b)
    ensures Nibble(a) < 16
  { }

  lemma BytesPair(a: string, b: string, i: nat)
    requires IsHex(a) && IsHex(b) && |a| == |b| && i < |a| / 2
    ensures HexBytes(a)[i] == HexBytes(b)[i] <==>
            Fold(a[2 * i]) == Fold(b[2 * i]) && Fold(a[2 * i + 1]) == Fold(b[2 * i + 1])
  {
    FoldNibble(a[2 * i], b[2 * i]);
    FoldNibble(a[2 * i + 1], b[2 * i + 1]);
    FoldNibble(b[2 * i + 1], a[2 * i + 1]);
  }

  /** Digests are compared as the bytes they stand for. */
  lemma SameDigestIff(a: string, b: string)
    requires ValidDigest(a) && ValidDigest(b)
    ensures SameDigest(a, b) <==> HexBytes(a) == HexBytes(b)
  {
    if SameDigest(a, b) {
      forall i | 0 <= i < 32 ensures HexBytes(a)[i] == HexBytes(b)[i] { BytesPair(a, b, i); }
    }
    if HexBytes(a) == HexBytes(b) {
      forall j | 0 <= j < 64 ensures Fold(a[j]) == Fold(b[j]) {
        BytesPair(a, b, j / 2);
        assert j == 2 * (j / 2) || j == 2 * (j / 2) + 1;
      }
    }
  }

  // ----- Accepted means unchanged -----

  /** Two contents with one digest. */
  ghost predicate Collision(w: World, c: Content, d: Content)
    requires HexDigests(w)
  {
    c != d && HexBytes(w.digest(c)) == HexBytes(w.digest(d))
  }

  /** The files of `found` are those of `tree`, file by file, unless two contents share a digest. */
  ghost predicate SameTree(w: World, found: Files, tree: Files)
    requires HexDigests(w)
  {
    found.Keys == tree.Keys && forall p :: p in tree ==> found[p] == tree[p] || Collision(w, found[p], tree[p])
  }

  /** The manifest taken from `tree`. */
  ghost predicate TakenFrom(w: World, files: seq<Entry>, tree: Files) {
    exists paths :: Text.IsListing(paths, tree.Keys) && AllIn(paths, tree) && files == EntriesOf(w, tree, paths)
  }

  lemma ListedOnce(w: World, files: seq<Entry>, tree: Files, p: string)
    requires TakenFrom(w, files, tree) && ManifestAccepted(files)
    ensures p in EntryMap(files, |files|) <==> p in tree
    ensures p in tree ==> EntryMap(files, |files|)[p] == Entry(p, |tree[p]|, w.digest(tree[p]))
  {
    var paths :| Text.IsListing(paths, tree.Keys) && AllIn(paths, tree) && files == EntriesOf(w, tree, paths);
    EntryMapKeys(files, |files|, p);
    if p in tree {
      assert p in paths;
      var i :| 0 <= i < |paths| && paths[i] == p;
      assert files[i].path == p;
      EntryMapValue(files, i, |files|);
    }
    if p in EntryMap(files, |files|) {
      var i :| 0 <= i < |files| && files[i].path == p;
      assert paths[i] in tree;
    }
  }

  lemma MatchingFile(w: World, found: Content, original: Content, p: string)
    requires HexDigests(w) && FileMatches(w, found, Entry(p, |original|, w.digest(original)), true)
    ensures found == original || Collision(w, found, original)
  {
    SameDigestIff(w.digest(found), w.digest(original));
  }

  lemma ManifestIsTree(w: World, found: Files, files: seq<Entry>, tree: Files)
    requires HexDigests(w) && TakenFrom(w, files, tree) && ManifestAccepted(files)
    requires TreeIsManifest(w, found, EntryMap(files, |files|), true)
    ensures SameTree(w, found, tree)
  {
    forall p ensures p in found <==> p in tree { ListedOnce(w, files, tree, p); }
    forall p | p in tree ensures found[p] == tree[p] || Collision(w, found[p], tree[p]) {
      ListedOnce(w, files, tree, p);
      MatchingFile(w, found[p], tree[p], p);
    }
  }

  /** Whatever was done to an archive on its way: if it is accepted against a manifest taken from a
      tree, what it stages is that tree. */
  lemma ExtractedIsTree(w: World, scope: TransferTable.Scope, archive: seq<TarEntry>, archiveSize: int, tree: Files)
    requires HexDigests(w) && ArchiveAccepted(w, scope, archive, archiveSize)
    requires TakenFrom(w, w.decode(archive[0].content).value.files, tree)
    ensures SameTree(w, ExtractedOf(w, scope, archive).staged, tree)
  {
    var files, entries := w.decode(archive[0].content).value.files, archive[1..];
    StagedHolds(w, entries, EntryMap(files, |files|), |entries|);
    ManifestIsTree(w, Staged(entries, |entries|), files, tree);
  }

  /** And a replica that passes the deep verification is, beside its metadata file, that tree. */
  lemma VerifiedIsTree(w: World, replica: Files, files: seq<Entry>, tree: Files)
    requires HexDigests(w) && TakenFrom(w, files, tree) && ReplicaVerified(w, replica, files, true)
    ensures SameTree(w, replica - {ARCHIVE_METADATA}, tree)
  {
    ManifestIsTree(w, replica - {ARCHIVE_METADATA}, files, tree);
  }

  /** The light verification finds the same paths and sizes, and no more. */
  lemma LightIff(w: World, replica: Files, files: seq<Entry>, tree: Files)
    requires TakenFrom(w, files, tree) && ManifestAccepted(files) && |files| <= MAX_SNAPSHOT_FILES
    ensures ReplicaVerified(w, replica, files, false) <==>
            var found := replica - {ARCHIVE_METADATA};
            found.Keys == tree.Keys && forall p :: p in tree ==> |found[p]| == |tree[p]|
  {
    var found := replica - {ARCHIVE_METADATA};
    forall p ensures p in EntryMap(files, |files|) <==> p in tree { ListedOnce(w, files, tree, p); }
    forall p | p in tree ensures EntryMap(files, |files|)[p].size == |tree[p]| { ListedOnce(w, files, tree, p); }
  }

  // ----- The limits, read off the list -----

  ghost predicate DistinctEntries(files: seq<Entry>) {
    forall i, j :: 0 <= i < j < |files| ==> files[i].path != files[j].path
  }

  /** One entry by itself: a safe path, at most 10 GiB, a SHA-256 digest. */
  ghost predicate GoodEntry(e: Entry) {
    SafeArchivePath(e.path) && 0 <= e.size <= 10 * 0x4000_0000 && ValidDigest(e.sha)
  }

  lemma {:induction false} TotalBelow(files: seq<Entry>, j: nat, k: nat)
    requires j <= k <= |files| && forall i :: 0 <= i < |files| ==> files[i].size >= 0
    ensures 0 <= Total(files, j) <= Total(files, k)
    decreases k
  {
    if j < k { TotalBelow(files, j, k - 1); } else if k > 0 { TotalBelow(files, k - 1, k - 1); }
  }

  lemma OneMore(files: seq<Entry>, k: nat)
    requires 0 < k <= |files| && k <= 100_000 && ManifestPrefix(files, k - 1) && GoodEntry(files[k - 1])
    requires Total(files, k) <= 100 * 0x4000_0000 && files[k - 1].path !in EntryMap(files, k - 1)
    ensures ManifestPrefix(files, k)
  { }

  lemma NewPath(files: seq<Entry>, k: nat)
    requires 0 < k <= |files| && DistinctEntries(files)
    ensures files[k - 1].path !in EntryMap(files, k - 1)
  {
    EntryMapKeys(files, k - 1, files[k - 1].path);
  }

  ghost predicate AllGood(files: seq<Entry>) {
    forall i :: 0 <= i < |files| ==> GoodEntry(files[i])
  }

  lemma {:induction false} GoodPrefix(files: seq<Entry>, k: nat)
    requires k <= |files| <= 100_000 && Sum(files) <= 100 * 0x4000_0000 && DistinctEntries(files) && AllGood(files)
    ensures ManifestPrefix(files, k)
  {
    if k > 0 {
      GoodPrefix(files, k - 1);
      TotalBelow(files, k, |files|);
      NewPath(files, k);
      OneMore(files, k);
    }
  }

  /** The prefix-by-prefix check accepts exactly lists of at most 100000 good entries with different
      paths and at most 100 GiB in all. */
  lemma ManifestAcceptedIff(files: seq<Entry>)
    ensures ManifestAccepted(files) <==>
            |files| <= 100_000 && Sum(files) <= 100 * 0x4000_0000 && DistinctEntries(files) && AllGood(files)
  {
    if ManifestAccepted(files) {
      EntryMapSize(files, |files|);
      forall i | 0 <= i < |files| ensures GoodEntry(files[i]) { EntryMapValue(files, i, |files|); }
      forall i, j | 0 <= i < j < |files| ensures files[i].path != files[j].path {
        EntryNew(files, j);
        EntryMapKeys(files, j, files[j].path);
      }
    } else if |files| <= 100_000 && Sum(files) <= 100 * 0x4000_0000 && DistinctEntries(files) && AllGood(files) {
      GoodPrefix(files, |files|);
    }
  }

  /** A file the Agent may capture: a safe path and at most 10 GiB. */
  ghost predicate Capturable(e: Entry) {
    SafeArchivePath(e.path) && e.size <= 10 * 0x4000_0000
  }

  ghost predicate AllCapturable(files: seq<Entry>) {
    forall i :: 0 <= i < |files| ==> Capturable(files[i])
  }

  lemma {:induction false} CapturablePrefix(files: seq<Entry>, k: nat)
    requires k <= |files| <= 100_000 && Sum(files) <= 100 * 0x4000_0000 && AllCapturable(files)
    requires forall i :: 0 <= i < |files| ==> files[i].size >= 0
    ensures CapturedPrefix(files, k)
  {
    if k > 0 {
      CapturablePrefix(files, k - 1);
      TotalBelow(files, k, |files|);
      assert Capturable(files[k - 1]);
    }
  }

  /** A tree is captured exactly if it has at most 100000 files, each with a safe path and of at most
      10 GiB, and at most 100 GiB in all. */
  lemma CapturedIff(w: World, tree: Files, paths: seq<string>)
    requires AllIn(paths, tree)
    ensures var files := EntriesOf(w, tree, paths);
            CapturedPrefix(files, |paths|) <==>
              |files| <= 100_000 && Sum(files) <= 100 * 0x4000_0000 && AllCapturable(files)
  {
    var files := EntriesOf(w, tree, paths);
    if CapturedPrefix(files, |paths|) {
      forall i | 0 <= i < |files| ensures Capturable(files[i]) { CapturedShorter(files, i + 1, |paths|); }
    } else if |files| <= 100_000 && Sum(files) <= 100 * 0x4000_0000 && AllCapturable(files) {
      CapturablePrefix(files, |paths|);
    }
  }

  /** At most two hundred times expanded beyond a gibibyte, and a gibibyte or a tenth left free. */
  lemma AffordableIff(w: World, total: nat, archiveSize: int)
    ensures Affordable(w, total, archiveSize) <==>
            && archiveSize > 0 && (total <= 0x4000_0000 || total < 201 * archiveSize)
            && w.free - total >= 0x4000_0000 && 10 * (w.free - total) + 9 >= total
  {
    if archiveSize > 0 { RatioIff(total, archiveSize); }
  }

  lemma RatioIff(total: nat, size: nat)
    requires size > 0
    ensures total / size > 200 <==> total >= 201 * size
  {
    var q := total / size;
    assert total == q * size + total % size && 0 <= total % size < size;
    if q >= 201 { assert q * size >= 201 * size; } else { assert (q + 1) * size <= 201 * size; }
  }

  // ----- Whose archive it is -----

  /** An accepted archive begins with a manifest of sensible size that was made for this very transfer,
      and neither expands too far nor fills the disk. */
  lemma AcceptedForTransfer(w: World, scope: TransferTable.Scope, archive: seq<TarEntry>, archiveSize: int)
    requires ArchiveAccepted(w, scope, archive, archiveSize)
    ensures archive[0].name == ".stcontrol/manifest.json" && archive[0].regular
    ensures 1 <= |archive[0].content| <= 0x200_0000
    ensures var m := w.decode(archive[0].content).value;
            && m.version == 1 && m.scope.workflow == scope.workflow && m.scope.snapshot == scope.snapshot
            && m.scope.handle == scope.handle && m.scope.user == scope.user && m.scope.source == scope.source
            && m.scope.target == scope.target && m.scope.epoch == scope.epoch
    ensures var files := w.decode(archive[0].content).value.files;
            && archiveSize > 0 && (Sum(files) <= 0x4000_0000 || Sum(files) < 201 * archiveSize)
            && w.free - Sum(files) >= 0x4000_0000 && 10 * (w.free - Sum(files)) + 9 >= Sum(files)
  {
    var files := w.decode(archive[0].content).value.files;
    ManifestAcceptedIff(files);
    TotalBelow(files, 0, |files|);
    AffordableIff(w, Sum(files), archiveSize);
  }
}
