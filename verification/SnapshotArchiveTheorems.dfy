/** A snapshot taken, packed, unpacked, published and verified again. */
module SnapshotArchiveTheorems {
  import opened Basics
  import opened ArchivePath
  import opened ConflictFiles
  import opened EvidencePages
  import opened SnapshotArchive
  import Formats
  import Text
  import TransferTable

  // ----- Taking the snapshot -----

  function EntryOf(w: World, tree: Files, path: string): Entry
    requires path in tree
  {
    Entry(path, |tree[path]|, w.digest(tree[path]))
  }

  ghost predicate AllIn(paths: seq<string>, tree: Files) {
    forall i :: 0 <= i < |paths| ==> paths[i] in tree
  }

  function EntriesOf(w: World, tree: Files, paths: seq<string>): seq<Entry>
    requires AllIn(paths, tree)
  {
    seq(|paths|, i requires 0 <= i < |paths| => EntryOf(w, tree, paths[i]))
  }

  /** The limits under which a tree can be captured at all. */
  predicate CapturedPrefix(files: seq<Entry>, k: nat)
    requires k <= |files|
  {
    k == 0 ||
    (&& CapturedPrefix(files, k - 1) && SafeArchivePath(files[k - 1].path) && files[k - 1].size <= MAX_FILE_BYTES
     && Total(files, k) <= MAX_SNAPSHOT_BYTES && k <= MAX_SNAPSHOT_FILES)
  }

  lemma {:induction false} CapturedShorter(files: seq<Entry>, j: nat, k: nat)
    requires j <= k <= |files| && CapturedPrefix(files, k)
    ensures CapturedPrefix(files, j)
  {
    if j < k { CapturedShorter(files, j, k - 1); }
  }

  lemma ListingIn(tree: Files, paths: seq<string>)
    requires Text.IsListing(paths, tree.Keys)
    ensures AllIn(paths, tree)
  {
    forall i | 0 <= i < |paths| ensures paths[i] in tree { assert paths[i] in paths; }
  }

  /** The loop of `copySnapshotTree` over the files it copies, in path order. */
  method CaptureFiles(w: World, tree: Files, paths: seq<string>) returns (r: Option<seq<Entry>>)
    requires AllIn(paths, tree)
    ensures r.Some? <==> CapturedPrefix(EntriesOf(w, tree, paths), |paths|)
    ensures r.Some? ==> r.value == EntriesOf(w, tree, paths)
  {
    var files: seq<Entry>, total := [], 0;
    ghost var all := EntriesOf(w, tree, paths);
    for k := 0 to |paths|
      invariant files == all[..k] && total == Total(all, k) && CapturedPrefix(all, k)
    {
      var size := |tree[paths[k]]|;
      if !SafeArchivePath(paths[k]) || size > MAX_FILE_BYTES || total + size > MAX_SNAPSHOT_BYTES ||
        |files| >= MAX_SNAPSHOT_FILES {
        if CapturedPrefix(all, |paths|) { CapturedShorter(all, k + 1, |paths|); }
        return None;
      }
      files := files + [EntryOf(w, tree, paths[k])];
      total := total + size;
    }
    return Some(files);
  }

  /** `copySnapshotTree`: every file but the node's own identity file. */
  method CaptureTree(w: World, tree: Files) returns (r: Option<seq<Entry>>)
    ensures forall paths :: Text.IsListing(paths, (tree - {REPLICA_IDENTITY}).Keys) ==>
              AllIn(paths, tree) && (r.Some? <==> CapturedPrefix(EntriesOf(w, tree, paths), |paths|)) &&
              (r.Some? ==> r.value == EntriesOf(w, tree, paths))
  {
    var copied := tree - {REPLICA_IDENTITY};
    var paths := Text.SortKeys(copied.Keys);
    ListingIn(copied, paths);
    forall other | Text.IsListing(other, copied.Keys) ensures other == paths {
      Text.ListingUnique(other, paths, copied.Keys);
    }
    r := CaptureFiles(w, tree, paths);
  }

  // ----- Packing it -----

  function FileEntry(tree: Files, e: Entry): TarEntry
    requires e.path in tree
  {
    TarEntry(e.path, true, tree[e.path])
  }

  ghost predicate Unchanged(tree: Files, files: seq<Entry>, k: nat)
    requires k <= |files|
  {
    forall i :: 0 <= i < k ==> files[i].path in tree && |tree[files[i].path]| == files[i].size
  }

  ghost function Packed(tree: Files, files: seq<Entry>): seq<TarEntry>
    requires Unchanged(tree, files, |files|)
  {
    seq(|files|, i requires 0 <= i < |files| => FileEntry(tree, files[i]))
  }

  /** `createSnapshotArchive`: the manifest first, then the files in manifest order. */
  method CreateArchive(json: Content, files: seq<Entry>, tree: Files) returns (r: Option<seq<TarEntry>>)
    ensures r.Some? <==> Unchanged(tree, files, |files|)
    ensures r.Some? ==> r.value == [TarEntry(MANIFEST_PATH, true, json)] + Packed(tree, files)
  {
    var archive := [TarEntry(MANIFEST_PATH, true, json)];
    for k := 0 to |files|
      invariant Unchanged(tree, files, k) && |archive| == k + 1 && archive[0] == TarEntry(MANIFEST_PATH, true, json)
      invariant forall i :: 0 <= i < k ==> archive[i + 1] == TarEntry(files[i].path, true, tree[files[i].path])
    {
      if files[k].path !in tree || |tree[files[k].path]| != files[k].size { return None; }
      archive := archive + [FileEntry(tree, files[k])];
    }
    assert archive == [TarEntry(MANIFEST_PATH, true, json)] + Packed(tree, files);
    return Some(archive);
  }

  // ----- The round trip -----

  /** The digest is hex text of 32 bytes. */
  ghost predicate HexDigests(w: World) {
    forall c :: Formats.ValidDigest(w.digest(c))
  }

  lemma {:induction false} EntryMapKeys(files: seq<Entry>, k: nat, p: string)
    requires k <= |files|
    ensures p in EntryMap(files, k) <==> exists i :: 0 <= i < k && files[i].path == p
  {
    if k > 0 { EntryMapKeys(files, k - 1, p); }
  }

  lemma PathsDistinct(w: World, tree: Files, paths: seq<string>, k: nat)
    requires AllIn(paths, tree) && Text.Ascending(paths) && k < |paths|
    ensures paths[k] !in EntryMap(EntriesOf(w, tree, paths), k)
  {
    var files := EntriesOf(w, tree, paths);
    EntryMapKeys(files, k, paths[k]);
    forall i | 0 <= i < k ensures files[i].path != paths[k] {
      Text.AscendingOrder(paths, i, k);
      Text.LessIrreflexive(paths[k]);
    }
  }

  /** A captured list passes the receiver's manifest checks. */
  lemma {:induction false} CapturedAccepted(w: World, tree: Files, paths: seq<string>, k: nat)
    requires HexDigests(w) && AllIn(paths, tree) && Text.Ascending(paths) && k <= |paths|
    requires CapturedPrefix(EntriesOf(w, tree, paths), k)
    ensures ManifestPrefix(EntriesOf(w, tree, paths), k)
  {
    if k > 0 {
      CapturedAccepted(w, tree, paths, k - 1);
      PathsDistinct(w, tree, paths, k - 1);
    }
  }

  lemma SameDigestReflexive(a: string)
    ensures SameDigest(a, a)
  { }

  /** The manifest lists what the tree holds. */
  ghost predicate Describes(w: World, tree: Files, files: seq<Entry>) {
    && Unchanged(tree, files, |files|)
    && forall i :: 0 <= i < |files| ==> files[i].sha == w.digest(tree[files[i].path]) && files[i].path != "."
  }

  lemma EntryOfTree(w: World, tree: Files, e: Entry, expected: map<string, Entry>)
    requires e.path in tree && |tree[e.path]| == e.size && e.sha == w.digest(tree[e.path]) && e.path != "."
    requires e.path in expected && expected[e.path] == e && SafeArchivePath(e.path)
    ensures EntryVerified(w, FileEntry(tree, e), expected)
  {
    SameDigestReflexive(e.sha);
  }

  lemma EntryNew(files: seq<Entry>, i: nat)
    requires ManifestAccepted(files) && i < |files|
    ensures files[i].path !in EntryMap(files, i) && SafeArchivePath(files[i].path)
  {
    ManifestShorter(files, i + 1, |files|);
  }

  lemma PackedEntry(w: World, tree: Files, files: seq<Entry>, i: nat)
    requires ManifestAccepted(files) && Describes(w, tree, files) && i < |files|
    ensures EntryVerified(w, FileEntry(tree, files[i]), EntryMap(files, |files|))
  {
    EntryMapValue(files, i, |files|);
    EntryNew(files, i);
    EntryOfTree(w, tree, files[i], EntryMap(files, |files|));
  }

  /** The files staged so far are those listed so far, with the tree's contents. */
  ghost predicate StagedSoFar(tree: Files, files: seq<Entry>, entries: seq<TarEntry>, k: nat)
    requires k <= |files| && k <= |entries|
  {
    && Staged(entries, k).Keys == EntryMap(files, k).Keys
    && forall p :: p in Staged(entries, k) ==> p in tree && Staged(entries, k)[p] == tree[p]
  }

  lemma StagedMore(tree: Files, files: seq<Entry>, entries: seq<TarEntry>, k: nat)
    requires k < |files| && k < |entries| && StagedSoFar(tree, files, entries, k)
    requires files[k].path in tree && entries[k] == FileEntry(tree, files[k])
    ensures StagedSoFar(tree, files, entries, k + 1)
  { }

  lemma {:induction false} StagedInStep(tree: Files, files: seq<Entry>, entries: seq<TarEntry>, k: nat)
    requires |entries| == |files| && k <= |files|
    requires forall i :: 0 <= i < |files| ==> files[i].path in tree && entries[i] == FileEntry(tree, files[i])
    ensures StagedSoFar(tree, files, entries, k)
  {
    if k > 0 {
      StagedInStep(tree, files, entries, k - 1);
      StagedMore(tree, files, entries, k - 1);
    }
  }

  ghost predicate SoundAt(w: World, entries: seq<TarEntry>, expected: map<string, Entry>, i: nat)
    requires i < |entries|
  {
    EntryVerified(w, entries[i], expected) && entries[i].name !in Staged(entries, i)
  }

  lemma {:induction false} VerifiedTogether(w: World, entries: seq<TarEntry>, expected: map<string, Entry>, k: nat)
    requires (forall i :: 0 <= i < |entries| ==> SoundAt(w, entries, expected, i)) && k <= |entries|
    ensures VerifiedPrefix(w, entries, expected, k)
  {
    if k > 0 {
      VerifiedTogether(w, entries, expected, k - 1);
      assert SoundAt(w, entries, expected, k - 1);
    }
  }

  lemma PackedVerifies(w: World, tree: Files, files: seq<Entry>, entries: seq<TarEntry>)
    requires ManifestAccepted(files) && Describes(w, tree, files) && entries == Packed(tree, files)
    ensures VerifiedPrefix(w, entries, EntryMap(files, |files|), |entries|) &&
            StagedSoFar(tree, files, entries, |entries|)
  {
    forall i | 0 <= i < |entries| ensures SoundAt(w, entries, EntryMap(files, |files|), i) {
      EntryNew(files, i);
      StagedInStep(tree, files, entries, i);
      PackedEntry(w, tree, files, i);
    }
    VerifiedTogether(w, entries, EntryMap(files, |files|), |entries|);
    StagedInStep(tree, files, entries, |entries|);
  }

  lemma CapturedDescribes(w: World, tree: Files, paths: seq<string>)
    requires AllIn(paths, tree) && "." !in tree
    ensures Describes(w, tree, EntriesOf(w, tree, paths))
  {
    var files := EntriesOf(w, tree, paths);
    forall i | 0 <= i < |files| ensures files[i].path in tree && files[i] == EntryOf(w, tree, files[i].path) {
      assert files[i].path == paths[i];
    }
  }

  lemma AcceptedWhole(w: World, scope: TransferTable.Scope, manifest: Manifest, json: Content, entries: seq<TarEntry>,
      archiveSize: int)
    requires ManifestMatches(manifest, scope) && w.decode(json) == Some(manifest) && 0 < |json| <= MAX_MANIFEST_BYTES
    requires ManifestAccepted(manifest.files) && Affordable(w, Sum(manifest.files), archiveSize)
    requires VerifiedPrefix(w, entries, EntryMap(manifest.files, |manifest.files|), |entries|)
    requires Staged(entries, |entries|).Keys == EntryMap(manifest.files, |manifest.files|).Keys
    ensures ArchiveAccepted(w, scope, [TarEntry(MANIFEST_PATH, true, json)] + entries, archiveSize)
  {
    assert ([TarEntry(MANIFEST_PATH, true, json)] + entries)[1..] == entries;
  }

  lemma StagedIsTree(w: World, tree: Files, paths: seq<string>, entries: seq<TarEntry>)
    requires Text.IsListing(paths, tree.Keys) && AllIn(paths, tree) && |entries| == |paths|
    requires StagedSoFar(tree, EntriesOf(w, tree, paths), entries, |paths|)
    ensures Staged(entries, |paths|) == tree
  {
    var files := EntriesOf(w, tree, paths);
    forall p | p in tree ensures p in Staged(entries, |paths|) {
      assert p in paths;
      var i :| 0 <= i < |paths| && paths[i] == p;
      assert files[i].path == p;
      EntryMapKeys(files, |paths|, p);
    }
  }

  /** A captured tree is packed, accepted by the receiver, and staged as it was. */
  lemma RoundTrip(w: World, scope: TransferTable.Scope, manifest: Manifest, json: Content, tree: Files,
      paths: seq<string>, archiveSize: int)
    requires HexDigests(w) && Text.IsListing(paths, tree.Keys) && AllIn(paths, tree) && "." !in tree
    requires manifest.files == EntriesOf(w, tree, paths) && CapturedPrefix(manifest.files, |paths|) &&
             ManifestMatches(manifest, scope)
    requires w.decode(json) == Some(manifest) && 0 < |json| <= MAX_MANIFEST_BYTES
    requires Affordable(w, Sum(manifest.files), archiveSize)
    ensures Unchanged(tree, manifest.files, |paths|)
    ensures var archive := [TarEntry(MANIFEST_PATH, true, json)] + Packed(tree, manifest.files);
            ArchiveAccepted(w, scope, archive, archiveSize) && Staged(archive[1..], |paths|) == tree
  {
    var files := manifest.files;
    CapturedDescribes(w, tree, paths);
    CapturedAccepted(w, tree, paths, |paths|);
    var entries := Packed(tree, files);
    PackedVerifies(w, tree, files, entries);
    StagedIsTree(w, tree, paths, entries);
    AcceptedWhole(w, scope, manifest, json, entries, archiveSize);
    assert ([TarEntry(MANIFEST_PATH, true, json)] + entries)[1..] == entries;
  }

  lemma SameEntries(w: World, tree: Files, copied: Files, paths: seq<string>)
    requires AllIn(paths, tree) && AllIn(paths, copied) && forall p :: p in paths ==> copied[p] == tree[p]
    ensures EntriesOf(w, copied, paths) == EntriesOf(w, tree, paths)
  {
    assert forall i :: 0 <= i < |paths| ==> paths[i] in paths;
  }

  /** What `CaptureTree` captured of a live tree is staged by the receiver as that tree without
      the node's own identity file. */
  lemma CapturedRoundTrip(w: World, scope: TransferTable.Scope, manifest: Manifest, json: Content, tree: Files,
      paths: seq<string>, archiveSize: int)
    requires HexDigests(w) && Text.IsListing(paths, (tree - {REPLICA_IDENTITY}).Keys) && AllIn(paths, tree) &&
             "." !in tree
    requires manifest.files == EntriesOf(w, tree, paths) && CapturedPrefix(manifest.files, |paths|)
    requires ManifestMatches(manifest, scope) && w.decode(json) == Some(manifest) && 0 < |json| <= MAX_MANIFEST_BYTES
    requires Affordable(w, Sum(manifest.files), archiveSize)
    ensures var copied := tree - {REPLICA_IDENTITY};
            && Unchanged(copied, manifest.files, |paths|)
            && var archive := [TarEntry(MANIFEST_PATH, true, json)] + Packed(copied, manifest.files);
               ArchiveAccepted(w, scope, archive, archiveSize) && Staged(archive[1..], |paths|) == copied
  {
    var copied := tree - {REPLICA_IDENTITY};
    ListingIn(copied, paths);
    SameEntries(w, tree, copied, paths);
    RoundTrip(w, scope, manifest, json, copied, paths, archiveSize);
  }

  // ----- Verifying what was published -----

  /** The published archive replica: the staged files and the metadata file beside them. */
  function PublishedReplica(staged: Files, metadata: Content): Files {
    staged[ARCHIVE_METADATA := metadata]
  }

  /** Whatever was extracted passes the deep verification later on, with the receipt's total. */
  lemma PublishedVerifies(w: World, staged: Files, files: seq<Entry>, metadata: Content)
    requires ManifestAccepted(files) && TreeIsManifest(w, staged, EntryMap(files, |files|), true)
    ensures ReplicaVerified(w, PublishedReplica(staged, metadata), files, true)
  {
    forall p | p in staged ensures p != ARCHIVE_METADATA { EntryMapSafe(files, |files|, p); }
    assert PublishedReplica(staged, metadata) - {ARCHIVE_METADATA} == staged;
  }

  /** From end to end: an archive that extracts is, once published, accepted by the deep
      verification, with exactly as many files and bytes as its receipt says. */
  lemma ExtractedVerifies(w: World, scope: TransferTable.Scope, archive: seq<TarEntry>, archiveSize: int,
      metadata: Content)
    requires ArchiveAccepted(w, scope, archive, archiveSize)
    ensures var x := ExtractedOf(w, scope, archive); var tree := PublishedReplica(x.staged, metadata);
            && ReplicaVerified(w, tree, x.manifest.files, true) && Sum(x.manifest.files) == x.receipt.totalBytes
            && |tree - {ARCHIVE_METADATA}| == x.receipt.fileCount
  {
    var x := ExtractedOf(w, scope, archive);
    var files, entries := x.manifest.files, archive[1..];
    var expected := EntryMap(files, |files|);
    StagedHolds(w, entries, expected, |entries|);
    PublishedVerifies(w, x.staged, files, metadata);
    EntryMapSize(files, |files|);
    var tree := PublishedReplica(x.staged, metadata) - {ARCHIVE_METADATA};
    assert |tree| == |tree.Keys| && |expected| == |expected.Keys|;
  }

  /** A replica that passes the deep verification passes the light one. */
  lemma DeepImpliesLight(w: World, tree: Files, files: seq<Entry>)
    requires ReplicaVerified(w, tree, files, true)
    ensures ReplicaVerified(w, tree, files, false)
  { }
}
