/** Evidence survives being split, fetched, stored and reloaded. */
module EvidencePagesTheorems {
  import opened Basics
  import opened ConflictFiles
  import opened EvidencePages
  import Formats
  import Json
  import Text

  // ----- Whatever the Agent answers -----

  lemma {:induction false} JoinedShared(pages: seq<Page>, page: Page, k: nat)
    requires k <= |pages|
    ensures Joined(pages + [page], k) == Joined(pages, k)
  {
    if k > 0 { JoinedShared(pages, page, k - 1); }
  }

  /** The pages fetched so far are linked, none of them final, and join to the entries. */
  ghost predicate Fetched(got: Capture, id: string) {
    && got.entries == Joined(got.pages, |got.pages|)
    && forall i :: 0 <= i < |got.pages| ==> LinkedAt(got.pages, id, i) && !got.pages[i].complete
  }

  ghost predicate LinkedAt(pages: seq<Page>, id: string, i: nat)
    requires i < |pages|
  {
    pages[i].id == id && pages[i].cursor == |Joined(pages, i)| && pages[i].next == |Joined(pages, i + 1)|
  }

  lemma LinkMore(got: Capture, id: string, page: Page)
    requires Fetched(got, id) && page.id == id && page.cursor == |got.entries| &&
             page.next == |got.entries| + |page.entries|
    ensures var pages := got.pages + [page];
            && Joined(pages, |pages|) == got.entries + page.entries
            && (forall i :: 0 <= i < |pages| ==> LinkedAt(pages, id, i))
            && forall i :: 0 <= i < |got.pages| ==> !pages[i].complete
  {
    var pages := got.pages + [page];
    forall i | 0 <= i < |pages| ensures LinkedAt(pages, id, i) {
      JoinedShared(got.pages, page, i);
      if i < |got.pages| {
        JoinedShared(got.pages, page, i + 1);
        assert pages[i] == got.pages[i];
        assert LinkedAt(got.pages, id, i);
      } else {
        assert Joined(pages, i + 1) == Joined(pages, i) + page.entries;
      }
    }
    JoinedShared(got.pages, page, |got.pages|);
  }

  /** Every completed fetch stored pages that reload to the same entries. */
  lemma {:induction false} FetchedReloads(reply: int -> Option<Page>, receipt: Receipt, cursor: int, got: Capture)
    requires Fetched(got, receipt.id) && cursor == |got.entries|
    requires FetchFrom(reply, receipt, cursor, got).Some?
    ensures var c := FetchFrom(reply, receipt, cursor, got).value;
            && c.pages != [] && AllLinked(c.pages, receipt.id, |c.pages|) && c.entries == Joined(c.pages, |c.pages|)
            && |c.entries| == receipt.count && EntriesAccepted(c.entries, receipt.total)
    decreases receipt.count - cursor
  {
    var page := reply(cursor).value;
    LinkMore(got, receipt.id, page);
    var more := Capture(got.entries + page.entries, got.pages + [page]);
    if page.complete {
      forall i | 0 <= i < |more.pages| ensures Linked(more.pages, receipt.id, i) {
        assert LinkedAt(more.pages, receipt.id, i);
      }
    } else {
      FetchedReloads(reply, receipt, page.next, more);
    }
  }

  /** For any replies: a fetch that ends well stored pages the loader accepts, and
      the loader gives back exactly the entries fetched. */
  lemma StoredPagesReload(reply: int -> Option<Page>, receipt: Receipt, digestMatches: seq<Entry> -> bool)
    requires Fetch(reply, receipt, digestMatches).Some?
    ensures var c := Fetch(reply, receipt, digestMatches).value;
            Loadable(c.pages, receipt, digestMatches) && Joined(c.pages, |c.pages|) == c.entries
  {
    FetchedReloads(reply, receipt, 0, Capture([], []));
  }

  // ----- The Agent of the source -----

  /** Answers come from the Agent holding `files`. */
  ghost predicate Honest(reply: int -> Option<Page>, files: seq<Entry>, id: string, budget: int, length: Entry -> nat) {
    forall c: nat :: reply(c) == AgentPage(files, id, c, budget, length)
  }

  /** The concatenation of the pages is the Agent's own list. */
  lemma {:induction false} FetchedInFull(reply: int -> Option<Page>, receipt: Receipt, files: seq<Entry>, budget: int,
      length: Entry -> nat, cursor: nat, got: Capture)
    requires Honest(reply, files, receipt.id, budget, length)
    requires cursor <= |files| && got.entries == files[..cursor]
    requires FetchFrom(reply, receipt, cursor, got).Some?
    ensures FetchFrom(reply, receipt, cursor, got).value.entries == files
    decreases receipt.count - cursor
  {
    var page := reply(cursor).value;
    var more := Capture(got.entries + page.entries, got.pages + [page]);
    assert files[..page.cursor] + files[page.cursor..page.next] == files[..page.next];
    if !page.complete { FetchedInFull(reply, receipt, files, budget, length, page.next, more); }
  }

  lemma EvidenceRoundTrip(reply: int -> Option<Page>, receipt: Receipt, digestMatches: seq<Entry> -> bool,
      files: seq<Entry>, budget: int, length: Entry -> nat)
    requires Honest(reply, files, receipt.id, budget, length)
    requires Fetch(reply, receipt, digestMatches).Some?
    ensures var c := Fetch(reply, receipt, digestMatches).value;
            c.entries == files && Loadable(c.pages, receipt, digestMatches) && Joined(c.pages, |c.pages|) == files
  {
    FetchedInFull(reply, receipt, files, budget, length, 0, Capture([], []));
    StoredPagesReload(reply, receipt, digestMatches);
  }

  // ----- When the page requests succeed -----

  lemma {:induction false} FitsBudget(files: seq<Entry>, i: nat, used: int, budget: int, length: Entry -> nat)
    requires i <= |files|
    ensures var end := FitEnd(files, i, used, budget, length);
            && (used <= budget ==> used + Json.ItemsLength(files[i..end], length) <= budget)
            && forall k :: i <= k < end ==> used + length(files[k]) + 1 <= budget
    decreases |files| - i
  {
    var end := FitEnd(files, i, used, budget, length);
    if end > i {
      FitsBudget(files, i + 1, used + length(files[i]) + 1, budget, length);
      assert files[i..end][1..] == files[i + 1..end];
    }
  }

  /** A page holds the longest run of entries that fits: one more would exceed the budget. */
  lemma {:induction false} FitLongest(files: seq<Entry>, i: nat, e: nat, used: int, budget: int, length: Entry -> nat)
    requires i <= e <= |files| && used <= budget
    ensures used + Json.ItemsLength(files[i..e], length) <= budget <==> e <= FitEnd(files, i, used, budget, length)
    decreases |files| - i
  {
    if i < e {
      assert files[i..e][1..] == files[i + 1..e];
      if used + length(files[i]) + 1 <= budget {
        FitLongest(files, i + 1, e, used + length(files[i]) + 1, budget, length);
      }
    }
  }

  /** The 256 bytes set aside cover everything in a page but its entries. */
  lemma OverheadCovers(files: seq<Entry>, id: string, cursor: nat, end: nat, length: Entry -> nat)
    requires Formats.ValidUuid(id) && cursor <= end <= |files| <= MAX_FILES
    ensures PageLength(PageAt(files, id, cursor, end), length) <= PAGE_OVERHEAD +
            Json.ItemsLength(files[cursor..end], length)
  {
    assert Text.TenTo(6) == 10 * Text.TenTo(5) && Text.TenTo(4) == 10 * Text.TenTo(3) &&
           Text.TenTo(2) == 10 * Text.TenTo(1);
    Text.DigitsShort(cursor, 6);
    Text.DigitsShort(end, 6);
  }

  ghost predicate Fits(e: Entry, budget: int, length: Entry -> nat) {
    PAGE_OVERHEAD + length(e) + 1 <= budget
  }

  lemma AgentAnswers(files: seq<Entry>, id: string, cursor: nat, budget: int, length: Entry -> nat)
    requires cursor <= |files| <= MAX_FILES && PAGE_OVERHEAD <= budget && Formats.ValidUuid(id)
    ensures AgentPage(files, id, cursor, budget, length).Some? <==>
            cursor == |files| || Fits(files[cursor], budget, length)
    ensures AgentPage(files, id, cursor, budget, length).Some? ==>
            var page := AgentPage(files, id, cursor, budget, length).value;
            page.next <= |files| && forall k :: cursor <= k < page.next ==> Fits(files[k], budget, length)
  {
    FitsBudget(files, cursor, PAGE_OVERHEAD, budget, length);
    var end := FitEnd(files, cursor, PAGE_OVERHEAD, budget, length);
    OverheadCovers(files, id, cursor, end, length);
  }

  lemma {:induction false} TotalOfPrefix(entries: seq<Entry>, prefix: seq<Entry>, k: nat)
    requires prefix <= entries && k <= |prefix|
    ensures Total(prefix, k) == Total(entries, k)
    ensures PrefixAccepted(prefix, k) == PrefixAccepted(entries, k)
  {
    if k > 0 { TotalOfPrefix(entries, prefix, k - 1); }
  }

  lemma {:induction false} TotalGrows(entries: seq<Entry>, j: nat, k: nat)
    requires j <= k <= |entries| && PrefixAccepted(entries, k)
    ensures Total(entries, j) <= Total(entries, k)
  {
    if j < k { TotalGrows(entries, j, k - 1); }
  }

  /** Every prefix of an acceptable manifest is acceptable, so the check after each page is harmless. */
  lemma PrefixesAccepted(entries: seq<Entry>, k: nat, expected: int)
    requires EntriesAccepted(entries, expected) && k <= |entries|
    ensures EntriesAccepted(entries[..k], expected)
  {
    TotalOfPrefix(entries, entries[..k], k);
    PrefixOfAccepted(entries, k, |entries|);
    TotalGrows(entries, k, |entries|);
  }

  lemma {:induction false} FetchSucceeds(reply: int -> Option<Page>, receipt: Receipt, files: seq<Entry>, budget: int,
      length: Entry -> nat, cursor: nat, got: Capture)
    requires Honest(reply, files, receipt.id, budget, length)
    requires PAGE_OVERHEAD <= budget && Formats.ValidUuid(receipt.id)
    requires receipt.count == |files| && EntriesAccepted(files, receipt.total)
    requires cursor <= |files| && got.entries == files[..cursor]
    ensures FetchFrom(reply, receipt, cursor, got).Some? <==>
            forall k :: cursor <= k < |files| ==> Fits(files[k], budget, length)
    decreases receipt.count - cursor
  {
    AgentAnswers(files, receipt.id, cursor, budget, length);
    var answer := reply(cursor);
    if answer.Some? {
      var page := answer.value;
      assert files[..cursor] + files[cursor..page.next] == files[..page.next];
      PrefixesAccepted(files, page.next, receipt.total);
      if !page.complete {
        FetchSucceeds(reply, receipt, files, budget, length, page.next,
          Capture(got.entries + page.entries, got.pages + [page]));
      }
    }
  }

  /** A manifest the Controller would accept is fetched exactly when each of its
      entries fits a page by itself. */
  lemma FetchedIffEntriesFit(reply: int -> Option<Page>, receipt: Receipt, digestMatches: seq<Entry> -> bool,
      files: seq<Entry>, budget: int, length: Entry -> nat)
    requires Honest(reply, files, receipt.id, budget, length)
    requires PAGE_OVERHEAD <= budget && Formats.ValidUuid(receipt.id)
    requires receipt.count == |files| && receipt.total == Sum(files) && EntriesAccepted(files, receipt.total) &&
             digestMatches(files)
    ensures Fetch(reply, receipt, digestMatches).Some? <==>
            forall k :: 0 <= k < |files| ==> Fits(files[k], budget, length)
  {
    FetchSucceeds(reply, receipt, files, budget, length, 0, Capture([], []));
    if FetchFrom(reply, receipt, 0, Capture([], [])).Some? {
      FetchedInFull(reply, receipt, files, budget, length, 0, Capture([], []));
    }
  }

  // ----- With the text Go writes and the size the Controller asks for -----

  const PAGE_BYTES: nat := 393_216

  /** Keys, braces and commas of one entry. */
  const ENTRY_FRAME: nat := 27

  lemma EntryFrame()
    ensures ENTRY_FRAME == |"{\"path\":,\"size\":,\"sha256\":}"|
  { }

  function EntryLength(e: Entry): nat {
    ENTRY_FRAME + Json.StringLength(e.path) + Json.IntLength(e.size) + Json.StringLength(e.sha)
  }

  lemma SizeText(size: nat)
    requires size <= MAX_BYTES
    ensures Json.IntLength(size) <= 13
  {
    var k: nat := 13;
    assert Text.TenTo(k) == 1000 * Text.TenTo(k - 3) && Text.TenTo(k - 3) == 1000 * Text.TenTo(k - 6);
    assert Text.TenTo(k - 6) == 1000 * Text.TenTo(k - 9) && Text.TenTo(k - 9) == 10_000;
    Json.IntShort(size, k);
  }

  lemma EntryFits(e: Entry)
    requires EntryAccepted(e) && e.size <= MAX_BYTES
    ensures Fits(e, PAGE_BYTES, EntryLength)
  {
    SizeText(e.size);
  }

  lemma AcceptedSizes(files: seq<Entry>, k: nat)
    requires PrefixAccepted(files, |files|) && k < |files|
    ensures EntryAccepted(files[k]) && files[k].size <= MAX_BYTES
  {
    PrefixOfAccepted(files, k + 1, |files|);
    TotalGrows(files, 0, k);
  }

  /** A manifest the Controller would accept is always fetched, and stored so that it reloads. */
  lemma AcceptableFetched(reply: int -> Option<Page>, receipt: Receipt, digestMatches: seq<Entry> -> bool,
      files: seq<Entry>)
    requires Honest(reply, files, receipt.id, PAGE_BYTES, EntryLength) && Formats.ValidUuid(receipt.id)
    requires receipt.count == |files| && receipt.total == Sum(files) && EntriesAccepted(files, receipt.total) &&
             digestMatches(files)
    ensures Fetch(reply, receipt, digestMatches).Some?
    ensures var c := Fetch(reply, receipt, digestMatches).value;
            c.entries == files && Loadable(c.pages, receipt, digestMatches) && Joined(c.pages, |c.pages|) == files
  {
    forall k | 0 <= k < |files| ensures Fits(files[k], PAGE_BYTES, EntryLength) {
      AcceptedSizes(files, k);
      EntryFits(files[k]);
    }
    FetchedIffEntriesFit(reply, receipt, digestMatches, files, PAGE_BYTES, EntryLength);
    EvidenceRoundTrip(reply, receipt, digestMatches, files, PAGE_BYTES, EntryLength);
  }
}
