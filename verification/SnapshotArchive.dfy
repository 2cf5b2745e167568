/** A snapshot travels as an archive whose first entry is its manifest. */
module SnapshotArchive {
  import opened Basics
  import opened ArchivePath
  import opened ConflictFiles
  import opened EvidencePages
  import Formats
  import Sets
  import TransferTable

  newtype Int64 = x: int | -0x8000_0000_0000_0000 <= x < 0x8000_0000_0000_0000

  type Content = seq<Byte>

  /** The regular files of a directory tree. */
  type Files = map<string, Content>

  datatype Manifest = Manifest(version: int, scope: TransferTable.Scope, files: seq<Entry>)

  datatype TarEntry = TarEntry(name: string, regular: bool, content: Content)

  const MANIFEST_PATH := ".stcontrol/manifest.json"
  const MAX_SNAPSHOT_FILES: nat := 100_000
  const MAX_SNAPSHOT_BYTES: int := 100 * 0x4000_0000
  const MAX_FILE_BYTES: int := 10 * 0x4000_0000
  const MAX_MANIFEST_BYTES: nat := 32 * 0x10_0000
  const GIB: int := 0x4000_0000
  const MAX_RATIO: int := 200

  /** SHA-256 in hex, JSON decoding of the manifest, and the free disk space. */
  datatype World = World(digest: Content -> string, decode: Content -> Option<Manifest>, free: int)

  function Fold(c: char): char {
    if 'A' <= c <= 'F' then (c as int + 32) as char else c
  }

  /** Hex text compared as the bytes it stands for. */
  predicate SameDigest(a: string, b: string) {
    |a| == |b| && forall i :: 0 <= i < |a| ==> Fold(a[i]) == Fold(b[i])
  }

  /** Apart from the destination kind, which the manifest does not carry. */
  predicate ManifestMatches(m: Manifest, s: TransferTable.Scope) {
    m.version == 1 && m.scope.(kind := s.kind) == s
  }

  // ----- The manifest's own checks -----

  predicate ListedEntry(e: Entry) {
    SafeArchivePath(e.path) && 0 <= e.size <= MAX_FILE_BYTES && Formats.ValidDigest(e.sha)
  }

  function EntryMap(files: seq<Entry>, k: nat): map<string, Entry>
    requires k <= |files|
  {
    if k == 0 then map[] else EntryMap(files, k - 1)[files[k - 1].path := files[k - 1]]
  }

  predicate ManifestPrefix(files: seq<Entry>, k: nat)
    requires k <= |files|
  {
    k == 0 ||
    (&& ManifestPrefix(files, k - 1) && ListedEntry(files[k - 1]) && Total(files, k) <= MAX_SNAPSHOT_BYTES &&
      k <= MAX_SNAPSHOT_FILES
     && files[k - 1].path !in EntryMap(files, k - 1))
  }

  predicate ManifestAccepted(files: seq<Entry>) {
    ManifestPrefix(files, |files|)
  }

  lemma {:induction false} ManifestShorter(files: seq<Entry>, j: nat, k: nat)
    requires j <= k <= |files| && ManifestPrefix(files, k)
    ensures ManifestPrefix(files, j)
  {
    if j < k { ManifestShorter(files, j, k - 1); }
  }

  lemma {:induction false} EntryMapSize(files: seq<Entry>, k: nat)
    requires k <= |files| && ManifestPrefix(files, k)
    ensures |EntryMap(files, k)| == k && 0 <= Total(files, k) <= MAX_SNAPSHOT_BYTES
  {
    if k > 0 { EntryMapSize(files, k - 1); }
  }

  lemma {:induction false} EntryMapValue(files: seq<Entry>, i: nat, k: nat)
    requires i < k <= |files| && ManifestPrefix(files, k)
    ensures files[i].path in EntryMap(files, k) && EntryMap(files, k)[files[i].path] == files[i] &&
            ListedEntry(files[i])
  {
    if i < k - 1 { EntryMapValue(files, i, k - 1); }
  }

  lemma {:induction false} EntryMapSafe(files: seq<Entry>, k: nat, p: string)
    requires k <= |files| && ManifestPrefix(files, k) && p in EntryMap(files, k)
    ensures SafeArchivePath(p)
  {
    if p != files[k - 1].path { EntryMapSafe(files, k - 1, p); }
  }

  /** The loop both the extraction and the verification begin with. The sum is kept in 64 bits. */
  method ReadManifest(files: seq<Entry>) returns (ok: bool, expected: map<string, Entry>, total: Int64)
    ensures ok <==> ManifestAccepted(files)
    ensures ok ==> expected == EntryMap(files, |files|) && total as int == Sum(files)
  {
    ok, expected, total := true, map[], 0;
    for k := 0 to |files|
      invariant ok && ManifestPrefix(files, k) && expected == EntryMap(files, k) && total as int == Total(files, k)
    {
      EntryMapSize(files, k);
      var e := files[k];
      if !SafeArchivePath(e.path) || e.size < 0 || e.size > MAX_FILE_BYTES || !Formats.ValidDigest(e.sha) ||
         (total + e.size as Int64) as int > MAX_SNAPSHOT_BYTES || |expected| >= MAX_SNAPSHOT_FILES ||
           e.path in expected {
        if ManifestAccepted(files) { ManifestShorter(files, k + 1, |files|); }
        return false, map[], 0;
      }
      expected := expected[e.path := e];
      total := total + e.size as Int64;
    }
  }

  // ----- Extraction -----

  /** What the archive must hold for a file, and where it can be written. */
  predicate EntryVerified(w: World, t: TarEntry, expected: map<string, Entry>) {
    && t.regular && SafeArchivePath(t.name) && t.name != "." && t.name in expected
    && |t.content| == expected[t.name].size && SameDigest(w.digest(t.content), expected[t.name].sha)
  }

  function Staged(entries: seq<TarEntry>, k: nat): Files
    requires k <= |entries|
  {
    if k == 0 then map[] else Staged(entries, k - 1)[entries[k - 1].name := entries[k - 1].content]
  }

  predicate VerifiedPrefix(w: World, entries: seq<TarEntry>, expected: map<string, Entry>, k: nat)
    requires k <= |entries|
  {
    k == 0 || (VerifiedPrefix(w, entries, expected, k - 1) && EntryVerified(w, entries[k - 1], expected) &&
      entries[k - 1].name !in Staged(entries, k - 1))
  }

  lemma {:induction false} VerifiedShorter(w: World, entries: seq<TarEntry>, expected: map<string, Entry>, j: nat,
      k: nat)
    requires j <= k <= |entries| && VerifiedPrefix(w, entries, expected, k)
    ensures VerifiedPrefix(w, entries, expected, j)
  {
    if j < k { VerifiedShorter(w, entries, expected, j, k - 1); }
  }

  lemma {:induction false} StagedHolds(w: World, entries: seq<TarEntry>, expected: map<string, Entry>, k: nat)
    requires k <= |entries| && VerifiedPrefix(w, entries, expected, k)
    ensures Staged(entries, k).Keys <= expected.Keys && |Staged(entries, k)| == k
    ensures forall p :: p in Staged(entries, k) ==> FileMatches(w, Staged(entries, k)[p], expected[p], true)
  {
    if k > 0 { StagedHolds(w, entries, expected, k - 1); }
  }

  /** A file agrees with its manifest entry; the digest is compared only when `rehash` is set. */
  predicate FileMatches(w: World, content: Content, e: Entry, rehash: bool) {
    |content| == e.size && (rehash ==> SameDigest(w.digest(content), e.sha))
  }

  /** The staged tree is the manifest: the same paths, sizes and digests. */
  ghost predicate TreeIsManifest(w: World, tree: Files, expected: map<string, Entry>, rehash: bool) {
    tree.Keys == expected.Keys && forall p :: p in tree ==> FileMatches(w, tree[p], expected[p], rehash)
  }

  predicate RatioAccepted(total: int, archiveSize: int)
    requires archiveSize > 0
  {
    !(total > GIB && total / archiveSize > MAX_RATIO)
  }

  predicate RoomFor(free: int, total: int) {
    var reserve := if total / 10 < GIB then GIB else total / 10;
    free >= total + reserve
  }

  datatype TransferReceipt = TransferReceipt(snapshot: string, manifestDigest: string, fileCount: int, totalBytes: int)

  datatype Extracted = Extracted(manifest: Manifest, staged: Files, receipt: TransferReceipt)

  /** The checks on the manifest entry and on the manifest before any file is read. */
  predicate HeaderAccepted(w: World, scope: TransferTable.Scope, archive: seq<TarEntry>) {
    && |archive| > 0 && archive[0].name == MANIFEST_PATH && archive[0].regular &&
       0 < |archive[0].content| <= MAX_MANIFEST_BYTES
    && w.decode(archive[0].content).Some? && ManifestMatches(w.decode(archive[0].content).value, scope)
  }

  predicate Affordable(w: World, total: int, archiveSize: int) {
    archiveSize > 0 && RatioAccepted(total, archiveSize) && RoomFor(w.free, total)
  }

  /** What makes an archive acceptable: every entry verified, none repeated, and the
      entries' names exactly the manifest's paths. */
  ghost predicate ArchiveAccepted(w: World, scope: TransferTable.Scope, archive: seq<TarEntry>, archiveSize: int) {
    HeaderAccepted(w, scope, archive) &&
    var files, entries := w.decode(archive[0].content).value.files, archive[1..];
    && ManifestAccepted(files) && Affordable(w, Sum(files), archiveSize)
    && VerifiedPrefix(w, entries, EntryMap(files, |files|), |entries|)
    && Staged(entries, |entries|).Keys == EntryMap(files, |files|).Keys
  }

  /** Having seen as many as are expected means having seen them all. */
  lemma SameCount(seen: set<string>, expected: map<string, Entry>)
    requires seen <= expected.Keys
    ensures |seen| == |expected| <==> seen == expected.Keys
  {
    assert |expected| == |expected.Keys|;
    Sets.SubsetSize(seen, expected.Keys);
  }

  method ReadFiles(w: World, entries: seq<TarEntry>, expected: map<string, Entry>) returns (r: Option<Files>)
    ensures r.Some? <==>
            VerifiedPrefix(w, entries, expected, |entries|) && Staged(entries, |entries|).Keys == expected.Keys
    ensures r.Some? ==> r.value == Staged(entries, |entries|) && TreeIsManifest(w, r.value, expected, true)
  {
    var staged: Files := map[];
    for k := 0 to |entries|
      invariant VerifiedPrefix(w, entries, expected, k) && staged == Staged(entries, k)
    {
      var t := entries[k];
      if t.name in staged || !EntryVerified(w, t, expected) {
        if VerifiedPrefix(w, entries, expected, |entries|) { VerifiedShorter(w, entries, expected, k + 1, |entries|); }
        return None;
      }
      staged := staged[t.name := t.content];
    }
    StagedHolds(w, entries, expected, |entries|);
    SameCount(staged.Keys, expected);
    if |staged| != |expected| { return None; }
    return Some(staged);
  }

  /** What an accepted archive yields. */
  function ExtractedOf(w: World, scope: TransferTable.Scope, archive: seq<TarEntry>): Extracted
    requires HeaderAccepted(w, scope, archive)
  {
    var manifest := w.decode(archive[0].content).value;
    Extracted(manifest, Staged(archive[1..], |archive| - 1),
      TransferReceipt(scope.snapshot, w.digest(archive[0].content), |manifest.files|, Sum(manifest.files)))
  }

  /** `extractVerifyAndPublish` up to publication. An accepted archive is staged exactly as
      its manifest says, with the declared total. */
  method Extract(w: World, scope: TransferTable.Scope, archive: seq<TarEntry>, archiveSize: int)
    returns (r: Option<Extracted>)
    ensures r.Some? <==> ArchiveAccepted(w, scope, archive, archiveSize)
    ensures r.Some? ==> ManifestMatches(r.value.manifest, scope) && ManifestAccepted(r.value.manifest.files)
    ensures r.Some? ==> TreeIsManifest(w, r.value.staged, EntryMap(r.value.manifest.files, |r.value.manifest.files|),
            true)
    ensures r.Some? ==> r.value == ExtractedOf(w, scope, archive)
  {
    if archiveSize <= 0 || !HeaderAccepted(w, scope, archive) { return None; }
    var manifest := w.decode(archive[0].content).value;
    var ok, expected, total := ReadManifest(manifest.files);
    if !ok || !RatioAccepted(total as int, archiveSize) || !RoomFor(w.free, total as int) { return None; }
    var staged := ReadFiles(w, archive[1..], expected);
    if staged.None? { return None; }
    var receipt := TransferReceipt(scope.snapshot, w.digest(archive[0].content), |manifest.files|, total as int);
    return Some(Extracted(manifest, staged.value, receipt));
  }

  // ----- Verification of a published archive -----

  ghost predicate ReplicaVerified(w: World, tree: Files, files: seq<Entry>, rehash: bool) {
    && |files| <= MAX_SNAPSHOT_FILES && ManifestAccepted(files)
    && TreeIsManifest(w, tree - {ARCHIVE_METADATA}, EntryMap(files, |files|), rehash)
  }

  lemma TreeDiffers(w: World, tree: Files, expected: map<string, Entry>, rehash: bool, path: string)
    requires path in tree && (path !in expected || !FileMatches(w, tree[path], expected[path], rehash))
    ensures !TreeIsManifest(w, tree, expected, rehash)
  { }

  /** The walk over the files of a replica, without its metadata file. */
  method WalkTree(w: World, tree: Files, expected: map<string, Entry>, rehash: bool) returns (ok: bool)
    ensures ok <==> TreeIsManifest(w, tree, expected, rehash)
  {
    var seen, remaining := {}, tree.Keys;
    while remaining != {}
      invariant remaining !! seen && remaining + seen == tree.Keys && seen <= expected.Keys
      invariant forall p :: p in seen ==> FileMatches(w, tree[p], expected[p], rehash)
      decreases remaining
    {
      ghost var some := Sets.Pick(remaining);
      var path: string :| path in remaining;
      if path !in expected || !FileMatches(w, tree[path], expected[path], rehash) {
        TreeDiffers(w, tree, expected, rehash, path);
        return false;
      }
      seen := seen + {path};
      remaining := remaining - {path};
    }
    SameCount(seen, expected);
    return |seen| == |expected|;
  }

  /** `verifyArchiveReplicaTree`: deep with `rehash`, light without. */
  method VerifyReplica(w: World, tree: Files, files: seq<Entry>, rehash: bool) returns (r: Option<int>)
    ensures r.Some? <==> ReplicaVerified(w, tree, files, rehash)
    ensures r.Some? ==> r.value == Sum(files)
  {
    if |files| > MAX_SNAPSHOT_FILES { return None; }
    var ok, expected, total := ReadManifest(files);
    if !ok { return None; }
    var same := WalkTree(w, tree - {ARCHIVE_METADATA}, expected, rehash);
    if !same { return None; }
    return Some(total as int);
  }
}
