/** The immutable manifests of the sources of one replica conflict. */
module ConflictFiles {
  import Text

  datatype Entry = Entry(path: string, size: int, sha: string)

  /** `nodes` in the order of the conflict's sources; `files[n]` indexes the manifest of node `n`. */
  datatype Evidence = Evidence(nodes: seq<int>, files: map<int, map<string, Entry>>)

  predicate Holds(e: Evidence, node: int, path: string) {
    node in e.files && path in e.files[node]
  }

  function Lookup(e: Evidence, node: int, path: string): Entry
    requires Holds(e, node, path)
  {
    e.files[node][path]
  }

  /** Every manifest is indexed by the entry's own path, and the sources are exactly the listed nodes. */
  ghost predicate Indexed(e: Evidence) {
    && (forall n :: n in e.files <==> n in e.nodes)
    && forall n, p :: Holds(e, n, p) ==> Lookup(e, n, p).path == p
  }

  function UnionOf(e: Evidence, k: nat): set<string>
    requires k <= |e.nodes|
  {
    if k == 0 then {}
    else UnionOf(e, k - 1) + (if e.nodes[k - 1] in e.files then e.files[e.nodes[k - 1]].Keys else {})
  }

  /** All paths of all sources. */
  function Union(e: Evidence): set<string> {
    UnionOf(e, |e.nodes|)
  }

  lemma {:induction false} UnionPrefix(e: Evidence, k: nat, p: string)
    requires k <= |e.nodes|
    ensures p in UnionOf(e, k) <==> exists i :: 0 <= i < k && Holds(e, e.nodes[i], p)
  {
    if k > 0 { UnionPrefix(e, k - 1, p); }
  }

  lemma UnionHolds(e: Evidence, p: string)
    ensures p in Union(e) <==> exists n :: n in e.nodes && Holds(e, n, p)
  {
    UnionPrefix(e, |e.nodes|, p);
    if i :| 0 <= i < |e.nodes| && Holds(e, e.nodes[i], p) { assert e.nodes[i] in e.nodes; }
  }

  /** The content identity both sides compare. */
  function Version(entry: Entry): string {
    entry.sha + ":" + Text.Decimal(entry.size)
  }

  /** Equal version strings mean equal digest and size. */
  lemma VersionInjective(a: Entry, b: Entry)
    requires Version(a) == Version(b)
    ensures a.sha == b.sha && a.size == b.size
  {
    Text.DecimalLacks(a.size, ':');
    Text.DecimalLacks(b.size, ':');
    Text.LastCutUnique(a.sha, Text.Decimal(a.size), b.sha, Text.Decimal(b.size), ':');
    Text.DecimalInjective(a.size, b.size);
  }

  function VersionsOf(e: Evidence, path: string, k: nat): set<string>
    requires k <= |e.nodes|
  {
    if k == 0 then {}
    else VersionsOf(e, path, k - 1) +
         (if Holds(e, e.nodes[k - 1], path) then {Version(Lookup(e, e.nodes[k - 1], path))} else {})
  }

  /** The distinct contents found at one path. */
  function Versions(e: Evidence, path: string): set<string> {
    VersionsOf(e, path, |e.nodes|)
  }

  lemma {:induction false} VersionsPrefix(e: Evidence, path: string, k: nat, v: string)
    requires k <= |e.nodes|
    ensures v in VersionsOf(e, path, k) <==>
            exists i :: 0 <= i < k && Holds(e, e.nodes[i], path) && Version(Lookup(e, e.nodes[i], path)) == v
  {
    if k > 0 { VersionsPrefix(e, path, k - 1, v); }
  }

  lemma VersionsHold(e: Evidence, path: string, v: string)
    ensures v in Versions(e, path) <==>
            exists n :: n in e.nodes && Holds(e, n, path) && Version(Lookup(e, n, path)) == v
  {
    VersionsPrefix(e, path, |e.nodes|, v);
    if i :| 0 <= i < |e.nodes| && Holds(e, e.nodes[i], path) && Version(Lookup(e, e.nodes[i], path)) == v {
      assert e.nodes[i] in e.nodes;
    }
  }

  function PresentOf(e: Evidence, path: string, k: nat): seq<int>
    requires k <= |e.nodes|
  {
    if k == 0 then []
    else PresentOf(e, path, k - 1) + (if Holds(e, e.nodes[k - 1], path) then [e.nodes[k - 1]] else [])
  }

  /** The sources holding a path, in source order. */
  function Present(e: Evidence, path: string): seq<int> {
    PresentOf(e, path, |e.nodes|)
  }

  lemma {:induction false} PresentHeld(e: Evidence, path: string, k: nat, n: int)
    requires k <= |e.nodes| && n in PresentOf(e, path, k)
    ensures n in e.nodes && Holds(e, n, path)
  {
    if !(Holds(e, e.nodes[k - 1], path) && n == e.nodes[k - 1]) { PresentHeld(e, path, k - 1, n); }
  }

  lemma {:induction false} PresentCount(e: Evidence, path: string, k: nat)
    requires k <= |e.nodes|
    ensures PresentOf(e, path, k) == [] <==> VersionsOf(e, path, k) == {}
    ensures |PresentOf(e, path, k)| <= k
  {
    if k > 0 { PresentCount(e, path, k - 1); }
  }

  ghost predicate HeldBefore(e: Evidence, path: string, k: nat)
    requires k <= |e.nodes|
  {
    forall i :: 0 <= i < k ==> Holds(e, e.nodes[i], path)
  }

  lemma {:induction false} PresentEverywhere(e: Evidence, path: string, k: nat)
    requires k <= |e.nodes|
    ensures |PresentOf(e, path, k)| == k <==> HeldBefore(e, path, k)
  {
    PresentCount(e, path, k);
    if k > 0 {
      PresentEverywhere(e, path, k - 1);
      PresentCount(e, path, k - 1);
      assert HeldBefore(e, path, k) <==> HeldBefore(e, path, k - 1) && Holds(e, e.nodes[k - 1], path);
    }
  }

  /** Gathers all paths; false when a listed source has no manifest. */
  method CollectPaths(e: Evidence) returns (ok: bool, paths: set<string>)
    ensures ok <==> forall n :: n in e.nodes ==> n in e.files
    ensures ok ==> paths == Union(e)
  {
    ok, paths := true, {};
    for k := 0 to |e.nodes|
      invariant ok && forall i :: 0 <= i < k ==> e.nodes[i] in e.files
      invariant paths == UnionOf(e, k)
    {
      var node := e.nodes[k];
      if node !in e.files {
        assert node in e.nodes && node !in e.files;
        return false, {};
      }
      paths := paths + e.files[node].Keys;
    }
  }

  /** Gathers the versions and the holders of one path. */
  method CollectVersions(e: Evidence, path: string) returns (versions: set<string>, present: seq<int>)
    ensures versions == Versions(e, path) && present == Present(e, path)
  {
    versions, present := {}, [];
    for k := 0 to |e.nodes|
      invariant versions == VersionsOf(e, path, k) && present == PresentOf(e, path, k)
    {
      if Holds(e, e.nodes[k], path) {
        present := present + [e.nodes[k]];
        versions := versions + {Version(Lookup(e, e.nodes[k], path))};
      }
    }
  }
}
