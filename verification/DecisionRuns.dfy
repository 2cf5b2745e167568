/** One conflict from the user's request to the merged tree, and an accepted
    request whose decisions never reach the Agent. */
module DecisionRuns {
  import opened ArchivePath
  import opened Basics
  import opened ConflictAgreement
  import opened ConflictChoices
  import opened ConflictFiles
  import opened ConflictMerge
  import opened ConflictOutcome
  import opened ConflictSlots
  import opened DecisionPages
  import opened DecisionText
  import EvidencePages
  import Formats
  import Json
  import Text

  // ----- From the request to the tree -----

  datatype Outcome = Declined | Stopped | Built(selection: Selection)

  /** The request is within its limit and passes validation. */
  ghost predicate AcceptedRequest(m: Merge, compute: set<int>, items: seq<Decision>) {
    |items| <= MAX_DECISIONS && ValidChoices(m.evidence, compute, m.base, items)
  }

  /** The accepted decisions in path order, as they are stored and sent. */
  ghost predicate Stored(items: seq<Decision>, sent: seq<Decision>) {
    DecisionMap(sent) == DecisionMap(items) && Text.Ascending(ChoicePaths(sent))
  }

  lemma StoredCount(items: seq<Decision>, sent: seq<Decision>)
    requires DistinctPaths(items) && Stored(items, sent)
    ensures |sent| == |items| && DistinctPaths(sent)
  {
    AscendingDistinct(sent);
    DecisionMapHolds(sent);
    DecisionMapHolds(items);
  }

  ghost predicate EveryVersionPlaced(m: Merge) {
    forall p :: p in Union(m.evidence) ==> HasSlots(m, p)
  }

  /** The tree is the one merge of the sources under `m`'s decisions. */
  ghost predicate IsMerge(m: Merge, selection: Selection) {
    exists paths :: Text.IsListing(paths, Union(m.evidence)) && Select(m, paths) == Ok(selection)
  }

  /** What reaches the Agent and is built from it, once a request is accepted. */
  method Publish(m: Merge, ghost compute: set<int>, ghost items: seq<Decision>, sent: seq<Decision>, stamps: int -> nat)
    returns (r: Outcome)
    requires Checked(m) && AcceptedRequest(m, compute, items) && Stored(items, sent)
    ensures !r.Declined?
    ensures r.Built? <==> && SourcesAccepted(m.base, m.evidence.nodes) && AllDelivered(sent, stamps, PageCount(|sent|))
                          && EveryVersionPlaced(m.(decisions := DecisionMap(items)))
    ensures r.Built? ==> IsMerge(m.(decisions := DecisionMap(items)), r.selection)
    ensures r.Built? ==> Published(m.(decisions := DecisionMap(items)), r.selection.files)
  {
    var plan := Plan(m.base, PageCount(|sent|), |sent|, m.evidence.nodes);
    StoredCount(items, sent);
    if SourcesAccepted(m.base, m.evidence.nodes) { AcceptedSendable(m, compute, items, sent); }
    var prepared := PreparePlan(plan);
    if !prepared { return Stopped; }
    var directory := new PlanDirectory(plan);
    var decisions := SendAndRead(directory, sent, stamps);
    if decisions.None? { return Stopped; }
    r := Build(m.(decisions := decisions.value), compute, items);
  }

  method Build(m: Merge, ghost compute: set<int>, ghost items: seq<Decision>) returns (r: Outcome)
    requires Checked(m) && ValidChoices(m.evidence, compute, m.base, items) && m.decisions == DecisionMap(items)
    ensures !r.Declined? && (r.Built? <==> EveryVersionPlaced(m))
    ensures r.Built? ==> IsMerge(m, r.selection) && Published(m, r.selection.files)
  {
    ghost var paths := Text.ListingExists(Union(m.evidence));
    BuildsIffSlots(m, compute, items, paths);
    DecisionMapHolds(items);
    var selection := BuildSelection(m);
    assert selection == Select(m, paths);
    if selection.Err? || selection.value.used != |m.decisions| { return Stopped; }
    MergePublishes(m, paths);
    return Built(selection.value);
  }

  /** Validation, plan, pages, reading back and merge together: the tree is built from exactly the
      choices the user made, if and only if they are accepted, the sources are within the plan's
      limits, every page arrives and every version to be preserved has a place. */
  method Resolve(m: Merge, compute: set<int>, items: seq<Decision>, stamps: int -> nat)
    returns (sent: seq<Decision>, r: Outcome)
    requires Checked(m)
    ensures r.Declined? <==> !AcceptedRequest(m, compute, items)
    ensures !r.Declined? ==> Stored(items, sent)
    ensures r.Built? <==> && AcceptedRequest(m, compute, items) && SourcesAccepted(m.base, m.evidence.nodes)
                          && AllDelivered(sent, stamps, PageCount(|sent|))
                          && EveryVersionPlaced(m.(decisions := DecisionMap(items)))
    ensures r.Built? ==> IsMerge(m.(decisions := DecisionMap(items)), r.selection)
    ensures r.Built? ==> Published(m.(decisions := DecisionMap(items)), r.selection.files)
  {
    sent := [];
    if |items| > MAX_DECISIONS { return sent, Declined; }
    var verdict := Validate(m.evidence, compute, m.base, items);
    if verdict.Rejected? { return sent, Declined; }
    sent := verdict.decisions;
    r := Publish(m, compute, items, sent, stamps);
  }

  // ----- Accepted, and never delivered -----

  /** A name whose characters take six bytes each in JSON. */
  ghost predicate LongName(name: string) {
    |name| == 240 && forall i :: 0 <= i < |name| ==> name[i] == '<'
  }

  /** The name `n + 1` times, one inside the other. */
  function Deep(name: string, n: nat): string {
    if n == 0 then name else Deep(name, n - 1) + "/" + name
  }

  function LongPath(name: string, n: nat, i: nat): string {
    Deep(name, n) + "/" + ("chat-" + Text.Decimal(i))
  }

  function LongPaths(name: string, n: nat): set<string> {
    set i | 0 <= i < 100 :: LongPath(name, n, i)
  }

  function Digest(digit: char): string {
    seq(64, _ => digit)
  }

  function Manifest(paths: set<string>, digit: char): map<string, Entry> {
    map p | p in paths :: Entry(p, 1, Digest(digit))
  }

  /** Two sources whose files all differ. */
  function TwoVersions(paths: set<string>): Evidence {
    Evidence([1, 2], map[1 := Manifest(paths, '0'), 2 := Manifest(paths, '1')])
  }

  function LongChoices(name: string, n: nat): seq<Decision> {
    seq(100, i requires 0 <= i < 100 => Decision(LongPath(name, n, i), 1, USE_SOURCE))
  }

  lemma {:induction false} DeepSize(name: string, n: nat)
    requires LongName(name)
    ensures |Deep(name, n)| == 240 + 241 * n && Json.Escaped(Deep(name, n)) == 1440 + 1441 * n
    ensures forall c :: c in Deep(name, n) ==> c == '<' || c == '/'
  {
    Json.EscapedSame(name, '<');
    if n > 0 {
      DeepSize(name, n - 1);
      Json.EscapedJoin(Deep(name, n - 1) + "/", name);
      Json.EscapedJoin(Deep(name, n - 1), "/");
    }
  }

  lemma {:induction false} DeepClean(name: string, n: nat)
    requires LongName(name)
    ensures CleanPath(Deep(name, n)) && Deep(name, n)[0] == '<'
  {
    NameClean(name);
    if n > 0 {
      DeepClean(name, n - 1);
      CleanJoin(Deep(name, n - 1), name);
    }
  }

  lemma LongPathSize(name: string, n: nat, i: nat)
    requires LongName(name) && 5 <= n <= 15 && i < 100
    ensures |LongPath(name, n, i)| <= Formats.MAX_PATH_BYTES && Json.Escaped(LongPath(name, n, i)) >= 8000
  {
    var directory, file := Deep(name, n), "chat-" + Text.Decimal(i);
    DeepSize(name, n);
    Json.EscapedJoin(directory, "/" + file);
    assert directory + ("/" + file) == LongPath(name, n, i);
    Json.IntShort(i, 2);
  }

  lemma LongPathClean(name: string, n: nat, i: nat)
    requires LongName(name)
    ensures CleanPath(LongPath(name, n, i)) && LongPath(name, n, i)[0] == '<'
  {
    Text.DecimalLacks(i, '/');
    NameClean("chat-" + Text.Decimal(i));
    DeepClean(name, n);
    CleanJoin(Deep(name, n), "chat-" + Text.Decimal(i));
  }

  lemma LongPathPlain(name: string, n: nat, i: nat)
    requires LongName(name)
    ensures PlainCharacters(LongPath(name, n, i))
  {
    DeepSize(name, n);
    DecimalPlain(i);
    PlainJoin("chat-", Text.Decimal(i));
    PlainJoin(Deep(name, n), "/");
    PlainJoin(Deep(name, n) + "/", "chat-" + Text.Decimal(i));
  }

  lemma LongPathGood(name: string, n: nat, i: nat)
    requires LongName(name) && 5 <= n <= 15 && i < 100
    ensures var p := LongPath(name, n, i); EvidencePages.EvidencePath(p) && SafeArchivePath(p) && p != "."
  {
    LongPathSize(name, n, i);
    LongPathClean(name, n, i);
    LongPathPlain(name, n, i);
  }

  lemma LongPathsDiffer(name: string, n: nat, i: nat, j: nat)
    requires i != j
    ensures LongPath(name, n, i) != LongPath(name, n, j)
  {
    if LongPath(name, n, i) == LongPath(name, n, j) {
      SameTail(Deep(name, n) + "/", "chat-" + Text.Decimal(i), "chat-" + Text.Decimal(j));
      SameTail("chat-", Text.Decimal(i), Text.Decimal(j));
      Text.DecimalInjective(i, j);
    }
  }

  lemma TwoVersionsIndexed(paths: set<string>)
    ensures Indexed(TwoVersions(paths)) && Union(TwoVersions(paths)) == paths
  {
    var e := TwoVersions(paths);
    assert UnionOf(e, 1) == paths;
    assert UnionOf(e, 2) == paths;
  }

  lemma DigestsDiffer(p: string)
    ensures Version(Entry(p, 1, Digest('0'))) != Version(Entry(p, 1, Digest('1')))
  {
    assert Digest('0')[0] != Digest('1')[0];
    if Version(Entry(p, 1, Digest('0'))) == Version(Entry(p, 1, Digest('1'))) {
      VersionInjective(Entry(p, 1, Digest('0')), Entry(p, 1, Digest('1')));
    }
  }

  lemma TwoVersionsDiffer(paths: set<string>, p: string)
    requires p in paths
    ensures |Versions(TwoVersions(paths), p)| == 2
  {
    var e := TwoVersions(paths);
    var first, second := Version(Entry(p, 1, Digest('0'))), Version(Entry(p, 1, Digest('1')));
    DigestsDiffer(p);
    assert VersionsOf(e, p, 1) == {first};
    assert VersionsOf(e, p, 2) == {first, second};
  }

  lemma ChoicesFormed(name: string, n: nat)
    requires LongName(name) && 5 <= n <= 15
    ensures var items := LongChoices(name, n); (forall d :: d in items ==> WellFormedChoice(d)) && DistinctPaths(items)
  {
    var items := LongChoices(name, n);
    forall i, j | 0 <= i < j < |items| ensures items[i].path != items[j].path { LongPathsDiffer(name, n, i, j); }
    forall i | 0 <= i < |items| ensures WellFormedChoice(items[i]) { LongPathGood(name, n, i); }
  }

  lemma ChoicesDecide(name: string, n: nat)
    requires LongName(name) && 5 <= n <= 15
    ensures AllDecided(TwoVersions(LongPaths(name, n)), 1, DecisionMap(LongChoices(name, n)))
  {
    var items, paths := LongChoices(name, n), LongPaths(name, n);
    var e, decisions := TwoVersions(paths), DecisionMap(items);
    ChoicesFormed(name, n);
    DecisionMapHolds(items);
    TwoVersionsIndexed(paths);
    forall p | p in paths ensures PathDecided(e, 1, decisions, p) {
      var i :| 0 <= i < 100 && p == LongPath(name, n, i);
      assert items[i] in items && items[i].path == p;
      TwoVersionsDiffer(paths, p);
    }
    forall p | p in decisions ensures p in paths {
      var i :| 0 <= i < |items| && items[i] == decisions[p];
      assert p == LongPath(name, n, i);
    }
  }

  lemma LongPathsGood(name: string, n: nat)
    requires LongName(name) && 5 <= n <= 15
    ensures forall p :: p in LongPaths(name, n) ==> EvidencePages.EvidencePath(p) && SafeArchivePath(p) && p != "."
  {
    forall p | p in LongPaths(name, n) ensures EvidencePages.EvidencePath(p) && SafeArchivePath(p) && p != "." {
      var i :| 0 <= i < 100 && p == LongPath(name, n, i);
      LongPathGood(name, n, i);
    }
  }

  lemma LongEntriesAccepted(name: string, n: nat, source: int, p: string)
    requires LongName(name) && 5 <= n <= 15 && Holds(TwoVersions(LongPaths(name, n)), source, p)
    ensures EvidencePages.EntryAccepted(Lookup(TwoVersions(LongPaths(name, n)), source, p))
  {
    LongPathsGood(name, n);
    var e := Lookup(TwoVersions(LongPaths(name, n)), source, p);
    assert e.path == p && e.path != "";
  }

  /** One hundred files of long names, different on two nodes: the Controller accepts the choices,
      and the Agent accepts the plan. */
  lemma LongRequestAccepted(name: string, n: nat, m: Merge, compute: set<int>)
    requires LongName(name) && 5 <= n <= 15 && Formats.ValidUuid(m.conflictId) && 1 in compute
    requires m.base == 1 && m.evidence == TwoVersions(LongPaths(name, n))
    ensures Checked(m) && AcceptedRequest(m, compute, LongChoices(name, n)) && SourcesAccepted(1, m.evidence.nodes)
  {
    TwoVersionsIndexed(LongPaths(name, n));
    ChoicesFormed(name, n);
    ChoicesDecide(name, n);
    LongPathsGood(name, n);
  }

  lemma LongDecisions(name: string, n: nat, sent: seq<Decision>, d: Decision)
    requires LongName(name) && 5 <= n <= 15 && Stored(LongChoices(name, n), sent) && d in sent
    ensures DecisionLength(d) >= 7860
  {
    var items := LongChoices(name, n);
    ChoicesFormed(name, n);
    StoredCount(items, sent);
    DecisionMapHolds(sent);
    DecisionMapHolds(items);
    assert d in items;
    var i :| 0 <= i < |items| && items[i] == d;
    LongPathSize(name, n, i);
  }

  /** No lease of its first page ever arrives. */
  lemma LongRequestUndelivered(name: string, n: nat, sent: seq<Decision>, stamps: int -> nat)
    requires LongName(name) && 5 <= n <= 15 && Stored(LongChoices(name, n), sent)
    ensures !Delivered(sent, stamps, 0)
  {
    ChoicesFormed(name, n);
    StoredCount(LongChoices(name, n), sent);
    forall d | d in sent ensures DecisionLength(d) >= 7860 { LongDecisions(name, n, sent, d); }
    LongNeverArrives(0, PageOf(sent, 0), stamps(0));
  }

  /** An accepted request that stops at its first page, however often it is retried. */
  lemma AcceptedNeverDelivered(conflictId: string, compute: set<int>) returns (m: Merge, items: seq<Decision>)
    requires Formats.ValidUuid(conflictId) && 1 in compute
    ensures m.conflictId == conflictId && Checked(m) && SourcesAccepted(m.base, m.evidence.nodes)
    ensures forall source, p :: Holds(m.evidence, source, p) ==>
            EvidencePages.EntryAccepted(Lookup(m.evidence, source, p))
    ensures AcceptedRequest(m, compute, items)
    ensures forall sent, stamps: int -> nat :: Stored(items, sent) ==> !Delivered(sent, stamps, 0)
  {
    var name: string := seq(240, _ => '<');
    var n := 5;
    m, items := Merge(conflictId, 1, "use_base", TwoVersions(LongPaths(name, n)), map[]), LongChoices(name, n);
    LongRequestAccepted(name, n, m, compute);
    forall source, p | Holds(m.evidence, source, p) ensures EvidencePages.EntryAccepted(Lookup(m.evidence, source, p)) {
      LongEntriesAccepted(name, n, source, p);
    }
    forall sent, stamps: int -> nat | Stored(items, sent) ensures !Delivered(sent, stamps, 0) {
      LongRequestUndelivered(name, n, sent, stamps);
    }
  }
}
