/** Which manifests and which stored pages the Controller takes, said without its loops. */
module EvidenceExactness {
  import opened Basics
  import opened ArchivePath
  import opened ConflictFiles
  import opened EvidencePages
  import opened EvidencePagesTheorems
  import Formats
  import Text

  // ----- Paths -----

  /** The Controller's path rule is the Agent's for archives, other than ".", with a bound on the length,
      and without the Agent's ban on colons, NUL and the name of the replica identity file. */
  lemma PathRules(p: string)
    ensures SafeArchivePath(p) && p != "." && |p| <= Formats.MAX_PATH_BYTES <==>
            EvidencePath(p) && ':' !in p && '\0' !in p && p != REPLICA_IDENTITY
  {
    if p == "." { assert SlashIndex(p) <= 1; }
  }

  // ----- Manifests -----

  ghost predicate AscendingPaths(entries: seq<Entry>) {
    forall i :: 0 < i < |entries| ==> Text.Less(entries[i - 1].path, entries[i].path)
  }

  ghost predicate EachAccepted(entries: seq<Entry>) {
    forall i :: 0 <= i < |entries| ==> EntryAccepted(entries[i])
  }

  lemma {:induction false} TotalUpTo(entries: seq<Entry>, j: nat, k: nat)
    requires j <= k <= |entries| && EachAccepted(entries)
    ensures Total(entries, j) <= Total(entries, k)
    decreases k
  {
    if j < k { TotalUpTo(entries, j, k - 1); }
  }

  lemma {:induction false} PrefixFromAll(entries: seq<Entry>, k: nat)
    requires k <= |entries| && EachAccepted(entries) && AscendingPaths(entries) && Sum(entries) <= MAX_BYTES
    ensures PrefixAccepted(entries, k)
  {
    if k > 0 {
      PrefixFromAll(entries, k - 1);
      TotalUpTo(entries, k, |entries|);
    }
  }

  lemma AllFromPrefix(entries: seq<Entry>)
    requires PrefixAccepted(entries, |entries|)
    ensures EachAccepted(entries) && AscendingPaths(entries) && Sum(entries) <= MAX_BYTES
  {
    forall i | 0 <= i < |entries| ensures EntryAccepted(entries[i]) { PrefixOfAccepted(entries, i + 1, |entries|); }
    forall i | 0 < i < |entries| ensures Text.Less(entries[i - 1].path, entries[i].path) {
      PrefixOfAccepted(entries, i + 1, |entries|);
    }
  }

  /** The running checks accept exactly lists of at most 100000 good entries, strictly ascending by path,
      of at most a tebibyte and no more than was announced in all. */
  lemma EntriesAcceptedIff(entries: seq<Entry>, expected: int)
    ensures EntriesAccepted(entries, expected) <==>
            && |entries| <= 100_000 && EachAccepted(entries) && AscendingPaths(entries)
            && Sum(entries) <= 0x100_0000_0000 && Sum(entries) <= expected
  {
    if PrefixAccepted(entries, |entries|) {
      AllFromPrefix(entries);
    } else if EachAccepted(entries) && AscendingPaths(entries) && Sum(entries) <= 0x100_0000_0000 {
      PrefixFromAll(entries, |entries|);
    }
  }

  // ----- Stored pages -----

  /** An Agent that answers each cursor with the stored page that begins there. */
  ghost predicate RepliesWith(reply: int -> Option<Page>, pages: seq<Page>) {
    forall i :: 0 <= i < |pages| ==> reply(pages[i].cursor) == Some(pages[i])
  }

  ghost predicate NoneEmpty(pages: seq<Page>) {
    forall i :: 0 <= i < |pages| - 1 ==> pages[i].entries != []
  }

  lemma {:induction false} JoinedPrefix(pages: seq<Page>, j: nat, k: nat)
    requires j <= k <= |pages|
    ensures Joined(pages, j) <= Joined(pages, k)
  {
    if j < k { JoinedPrefix(pages, j, k - 1); }
  }

  lemma PageTaken(pages: seq<Page>, id: string, count: int, k: nat)
    requires k < |pages| && Linked(pages, id, k) && NoneEmpty(pages)
    requires |Joined(pages, k + 1)| <= |Joined(pages, |pages|)| == count
    ensures PageAccepted(pages[k], id, |Joined(pages, k)|, count)
  { }

  lemma PartAccepted(all: seq<Entry>, part: seq<Entry>, expected: int)
    requires EntriesAccepted(all, expected) && part <= all
    ensures EntriesAccepted(part, expected)
  {
    PrefixesAccepted(all, |part|, expected);
    assert all[..|part|] == part;
  }

  /** One round of a fetch that goes on. */
  lemma RoundGoesOn(reply: int -> Option<Page>, receipt: Receipt, cursor: int, got: Capture, page: Page)
    requires reply(cursor) == Some(page) && PageAccepted(page, receipt.id, cursor, receipt.count)
    requires EntriesAccepted(got.entries + page.entries, receipt.total)
    ensures var more := Capture(got.entries + page.entries, got.pages + [page]);
            FetchFrom(reply, receipt, cursor, got) ==
              if page.complete then Some(more) else FetchFrom(reply, receipt, page.next, more)
  { }

  lemma RefetchedPage(reply: int -> Option<Page>, pages: seq<Page>, receipt: Receipt,
      digestMatches: seq<Entry> -> bool, k: nat)
    requires Loadable(pages, receipt, digestMatches) && NoneEmpty(pages) && RepliesWith(reply, pages) && k < |pages|
    ensures var got, more := Capture(Joined(pages, k), pages[..k]), Capture(Joined(pages, k + 1), pages[..k + 1]);
            FetchFrom(reply, receipt, |Joined(pages, k)|, got) ==
              if k + 1 == |pages| then Some(more) else FetchFrom(reply, receipt, |Joined(pages, k + 1)|, more)
  {
    assert Linked(pages, receipt.id, k) && reply(pages[k].cursor) == Some(pages[k]);
    JoinedPrefix(pages, k + 1, |pages|);
    PageTaken(pages, receipt.id, receipt.count, k);
    PartAccepted(Joined(pages, |pages|), Joined(pages, k + 1), receipt.total);
    assert pages[..k] + [pages[k]] == pages[..k + 1];
    RoundGoesOn(reply, receipt, |Joined(pages, k)|, Capture(Joined(pages, k), pages[..k]), pages[k]);
  }

  lemma {:induction false} Refetched(reply: int -> Option<Page>, pages: seq<Page>, receipt: Receipt,
      digestMatches: seq<Entry> -> bool, k: nat)
    requires Loadable(pages, receipt, digestMatches) && NoneEmpty(pages) && RepliesWith(reply, pages) && k < |pages|
    ensures FetchFrom(reply, receipt, |Joined(pages, k)|, Capture(Joined(pages, k), pages[..k])) ==
            Some(Capture(Joined(pages, |pages|), pages))
    decreases |pages| - k
  {
    RefetchedPage(reply, pages, receipt, digestMatches, k);
    if k + 1 < |pages| {
      Refetched(reply, pages, receipt, digestMatches, k + 1);
    } else {
      assert pages[..k + 1] == pages;
    }
  }

  /** Stored pages, none of them empty but the last, are loaded if and only if a fetch from an Agent that
      answers with just these pages would end with them. */
  lemma LoadableIffFetched(reply: int -> Option<Page>, pages: seq<Page>, receipt: Receipt,
      digestMatches: seq<Entry> -> bool)
    requires RepliesWith(reply, pages) && NoneEmpty(pages)
    ensures Loadable(pages, receipt, digestMatches) <==>
            Fetch(reply, receipt, digestMatches) == Some(Capture(Joined(pages, |pages|), pages))
  {
    if Loadable(pages, receipt, digestMatches) {
      Refetched(reply, pages, receipt, digestMatches, 0);
      assert pages[..0] == [];
    }
    if Fetch(reply, receipt, digestMatches) == Some(Capture(Joined(pages, |pages|), pages)) {
      StoredPagesReload(reply, receipt, digestMatches);
    }
  }

  /** A capture is exactly what its receipt announced. */
  lemma FetchedAsAnnounced(reply: int -> Option<Page>, receipt: Receipt, digestMatches: seq<Entry> -> bool)
    requires Fetch(reply, receipt, digestMatches).Some?
    ensures var entries := Fetch(reply, receipt, digestMatches).value.entries;
            && |entries| == receipt.count <= 100_000 && Sum(entries) == receipt.total && digestMatches(entries)
            && EachAccepted(entries) && AscendingPaths(entries)
  {
    StoredPagesReload(reply, receipt, digestMatches);
    EntriesAcceptedIff(Fetch(reply, receipt, digestMatches).value.entries, receipt.total);
  }
}
