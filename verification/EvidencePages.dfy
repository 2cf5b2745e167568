/** Manifest evidence travels from Agent to Controller in pages limited by bytes,
    is stored page by page and is put together again when read. */
module EvidencePages {
  import opened Basics
  import opened ConflictFiles
  import opened ArchivePath
  import Formats
  import Json
  import Text

  const MAX_FILES: nat := 100_000
  const MAX_BYTES: nat := 0x100_0000_0000
  const PAGE_OVERHEAD: nat := 256

  datatype Page = Page(id: string, cursor: int, next: int, entries: seq<Entry>, complete: bool)

  // ----- The Agent's page -----

  /** The end of the longest run of entries from `i` on that fits, given `used` bytes. */
  function FitEnd(files: seq<Entry>, i: nat, used: int, budget: int, length: Entry -> nat): (end: nat)
    requires i <= |files|
    ensures i <= end <= |files|
    ensures end < |files| && end == i ==> used + length(files[i]) + 1 > budget
    ensures end > i ==> used + length(files[i]) + 1 <= budget
    decreases |files| - i
  {
    if i == |files| || used + length(files[i]) + 1 > budget then i
    else FitEnd(files, i + 1, used + length(files[i]) + 1, budget, length)
  }

  function PageAt(files: seq<Entry>, id: string, cursor: nat, end: nat): Page
    requires cursor <= end <= |files|
  {
    Page(id, cursor, end, files[cursor..end], end == |files|)
  }

  /** Braces, quotes, keys and commas of a page's JSON text. */
  const PAGE_FRAME: nat := 66

  /** The length of a page's JSON text, for an ID that needs no escapes: no entries are
      written `null`, others in brackets with commas between them. */
  function PageLength(page: Page, length: Entry -> nat): nat {
    PAGE_FRAME + |page.id| + |Text.Decimal(page.cursor)| + |Text.Decimal(page.next)| +
      (if page.complete then 4 else 5) +
    if page.entries == [] then 4 else 1 + Json.ItemsLength(page.entries, length)
  }

  /** `readConflictEvidencePage`; `length` is the size of an entry's JSON text. */
  function AgentPage(files: seq<Entry>, id: string, cursor: nat, budget: int, length: Entry -> nat): Option<Page> {
    if cursor > |files| then None
    else
      var end := FitEnd(files, cursor, PAGE_OVERHEAD, budget, length);
      if end == cursor < |files| then None
      else if PageLength(PageAt(files, id, cursor, end), length) > budget then None
      else Some(PageAt(files, id, cursor, end))
  }

  method ReadPage(files: seq<Entry>, id: string, cursor: nat, budget: int, length: Entry -> nat)
    returns (r: Option<Page>)
    ensures r == AgentPage(files, id, cursor, budget, length)
  {
    if cursor > |files| { return None; }
    var page := Page(id, cursor, cursor, [], false);
    var used := PAGE_OVERHEAD;
    var index := cursor;
    ghost var end := FitEnd(files, cursor, PAGE_OVERHEAD, budget, length);
    while index < |files|
      invariant cursor <= index <= |files| && end == FitEnd(files, index, used, budget, length)
      invariant page == Page(id, cursor, index, files[cursor..index], false)
    {
      if used + length(files[index]) + 1 > budget {
        if page.entries == [] { return None; }
        break;
      }
      page := page.(entries := page.entries + [files[index]], next := index + 1);
      used := used + length(files[index]) + 1;
      index := index + 1;
    }
    page := page.(complete := page.next == |files|);
    if PageLength(page, length) > budget { return None; }
    return Some(page);
  }

  // ----- What the Controller checks of a manifest -----

  function Total(entries: seq<Entry>, k: nat): int
    requires k <= |entries|
  {
    if k == 0 then 0 else Total(entries, k - 1) + entries[k - 1].size
  }

  function Sum(entries: seq<Entry>): int {
    Total(entries, |entries|)
  }

  /** The Controller's path rule. A path equal to its own `path.Clean` that is neither
      absolute, "." nor climbing out is exactly one made of good names. */
  predicate EvidencePath(p: string) {
    && |p| <= Formats.MAX_PATH_BYTES && CleanPath(p) && '\\' !in p && !HasPrefix(p, ".stcontrol/")
    && p != ARCHIVE_METADATA && p != CONFLICT_METADATA
  }

  predicate EntryAccepted(e: Entry) {
    e.path != "" && EvidencePath(e.path) && e.size >= 0 && Formats.ValidDigest(e.sha)
  }

  predicate PrefixAccepted(entries: seq<Entry>, k: nat)
    requires k <= |entries|
  {
    k == 0 ||
    (&& PrefixAccepted(entries, k - 1) && EntryAccepted(entries[k - 1]) && Total(entries, k) <= MAX_BYTES
     && (k > 1 ==> Text.Less(entries[k - 2].path, entries[k - 1].path)))
  }

  lemma {:induction false} PrefixOfAccepted(entries: seq<Entry>, j: nat, k: nat)
    requires j <= k <= |entries| && PrefixAccepted(entries, k)
    ensures PrefixAccepted(entries, j)
  {
    if j < k { PrefixOfAccepted(entries, j, k - 1); }
  }

  /** `validateConflictEvidenceEntries`. */
  predicate EntriesAccepted(entries: seq<Entry>, expected: int) {
    |entries| <= MAX_FILES && PrefixAccepted(entries, |entries|) && Sum(entries) <= expected
  }

  method ValidateEntries(entries: seq<Entry>, expected: int) returns (ok: bool)
    ensures ok <==> EntriesAccepted(entries, expected)
  {
    if |entries| > MAX_FILES { return false; }
    var total, previous := 0, "";
    for k := 0 to |entries|
      invariant PrefixAccepted(entries, k)
      invariant total == Total(entries, k) && previous == if k == 0 then "" else entries[k - 1].path
    {
      var e := entries[k];
      if !EntryAccepted(e) || (k > 0 && !Text.Less(previous, e.path)) || total > MAX_BYTES - e.size {
        if PrefixAccepted(entries, |entries|) { PrefixOfAccepted(entries, k + 1, |entries|); }
        return false;
      }
      previous := e.path;
      total := total + e.size;
    }
    return total <= expected;
  }

  // ----- The Controller's loop -----

  predicate PageAccepted(page: Page, id: string, cursor: int, count: int) {
    && page.id == id && page.cursor == cursor && page.next == cursor + |page.entries| && page.next <= count
    && (!page.complete ==> page.entries != []) && (page.complete ==> page.next == count)
  }

  datatype Capture = Capture(entries: seq<Entry>, pages: seq<Page>)

  datatype Receipt = Receipt(id: string, count: nat, total: int)

  /** The pages fetched from `cursor` on, from any Agent; each round moves the cursor forward. */
  ghost function FetchFrom(reply: int -> Option<Page>, receipt: Receipt, cursor: int, got: Capture): Option<Capture>
    decreases receipt.count - cursor
  {
    match reply(cursor)
    case None => None
    case Some(page) =>
      if !PageAccepted(page, receipt.id, cursor, receipt.count) then None
      else
        var more := Capture(got.entries + page.entries, got.pages + [page]);
        if !EntriesAccepted(more.entries, receipt.total) then None
        else if page.complete then Some(more)
        else FetchFrom(reply, receipt, page.next, more)
  }

  /** The whole capture: the pages, then the totals and the digest of the receipt. */
  ghost function Fetch(reply: int -> Option<Page>, receipt: Receipt,
      digestMatches: seq<Entry> -> bool): Option<Capture> {
    match FetchFrom(reply, receipt, 0, Capture([], []))
    case None => None
    case Some(c) =>
      if digestMatches(c.entries) && |c.entries| == receipt.count && Sum(c.entries) == receipt.total then Some(c)
      else None
  }

  method AddSizes(entries: seq<Entry>) returns (total: int)
    ensures total == Sum(entries)
  {
    total := 0;
    for k := 0 to |entries|
      invariant total == Total(entries, k)
    {
      total := total + entries[k].size;
    }
  }

  method FetchEvidence(reply: int -> Option<Page>, receipt: Receipt, digestMatches: seq<Entry> -> bool)
    returns (r: Option<Capture>)
    ensures r == Fetch(reply, receipt, digestMatches)
  {
    var got, cursor := Capture([], []), 0;
    ghost var goal := FetchFrom(reply, receipt, 0, got);
    var more := true;
    while more
      invariant more ==> goal == FetchFrom(reply, receipt, cursor, got)
      invariant !more ==> goal == Some(got)
      decreases more, receipt.count - cursor
    {
      var answer := reply(cursor);
      if answer.None? { return None; }
      var page := answer.value;
      if !PageAccepted(page, receipt.id, cursor, receipt.count) { return None; }
      var entries := got.entries + page.entries;
      var valid := ValidateEntries(entries, receipt.total);
      if !valid { return None; }
      got := Capture(entries, got.pages + [page]);
      cursor := page.next;
      more := !page.complete;
    }
    var total := AddSizes(got.entries);
    if !digestMatches(got.entries) || |got.entries| != receipt.count || total != receipt.total { return None; }
    return Some(got);
  }

  // ----- Reading the stored pages -----

  function Joined(pages: seq<Page>, k: nat): seq<Entry>
    requires k <= |pages|
  {
    if k == 0 then [] else Joined(pages, k - 1) + pages[k - 1].entries
  }

  predicate Linked(pages: seq<Page>, id: string, i: nat)
    requires i < |pages|
  {
    && pages[i].id == id && pages[i].cursor == |Joined(pages, i)| && pages[i].next == |Joined(pages, i + 1)|
    && (pages[i].complete <==> i == |pages| - 1)
  }

  ghost predicate AllLinked(pages: seq<Page>, id: string, k: nat)
    requires k <= |pages|
  {
    forall i :: 0 <= i < k ==> Linked(pages, id, i)
  }

  ghost predicate Loadable(pages: seq<Page>, receipt: Receipt, digestMatches: seq<Entry> -> bool) {
    var entries := Joined(pages, |pages|);
    && pages != [] && AllLinked(pages, receipt.id, |pages|)
    && |entries| == receipt.count && EntriesAccepted(entries, receipt.total)
    && digestMatches(entries) && Sum(entries) == receipt.total
  }

  /** `loadConflictEvidenceEntries`. */
  method LoadEntries(pages: seq<Page>, receipt: Receipt, digestMatches: seq<Entry> -> bool)
    returns (r: Option<seq<Entry>>)
    ensures r.Some? <==> Loadable(pages, receipt, digestMatches)
    ensures r.Some? ==> r.value == Joined(pages, |pages|)
  {
    if |pages| == 0 { return None; }
    var entries, cursor := [], 0;
    for k := 0 to |pages|
      invariant entries == Joined(pages, k) && cursor == |entries| && AllLinked(pages, receipt.id, k)
    {
      var page := pages[k];
      if page.id != receipt.id || page.cursor != cursor || page.next != cursor + |page.entries| ||
         (k < |pages| - 1 && page.complete) || (k == |pages| - 1 && !page.complete) {
        assert !Linked(pages, receipt.id, k);
        return None;
      }
      entries := entries + page.entries;
      cursor := page.next;
    }
    var valid := ValidateEntries(entries, receipt.total);
    if |entries| != receipt.count || !valid || !digestMatches(entries) { return None; }
    var total := AddSizes(entries);
    if total != receipt.total { return None; }
    return Some(entries);
  }
}
