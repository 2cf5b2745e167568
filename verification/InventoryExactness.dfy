/** The Controller's scan completes exactly on what an honest Agent with some inventory would send. */
module InventoryExactness {
  import opened Basics
  import opened Formats
  import opened InventoryScan
  import Text

  /** All users of a node, and the fingerprint that tells one state of the list from another. */
  datatype Inventory = Inventory(users: seq<User>, revision: string)

  ghost predicate OneSource(users: seq<User>) {
    forall i, j :: 0 <= i < |users| && 0 <= j < |users| ==> users[i].source == users[j].source
  }

  ghost predicate GoodInventory(inv: Inventory) {
    && |inv.users| <= 10_000 && ValidDigest(inv.revision) && OneSource(inv.users)
    && (forall i :: 0 <= i < |inv.users| ==> ValidUser(inv.users[i]))
    && forall i :: 0 < i < |inv.users| ==> Text.Less(inv.users[i - 1].id, inv.users[i].id)
  }

  /** The fifty users from `c` on, with more to come. */
  function FullPage(inv: Inventory, c: nat): Page
    requires c + 50 < |inv.users|
  {
    Page(inv.users[c..c + 50], c, c + 50, |inv.users|, inv.revision, true)
  }

  /** All users from `c` on. */
  function LastPage(inv: Inventory, c: nat): Page
    requires c <= |inv.users|
  {
    Page(inv.users[c..], c, 0, |inv.users|, inv.revision, false)
  }

  ghost function Asked(inv: Inventory, c: nat): Request {
    Request(c, if c == 0 then "" else inv.revision, 50)
  }

  ghost predicate FullAt(reply: Request -> Option<Page>, inv: Inventory, k: nat) {
    50 * k + 50 < |inv.users| && reply(Asked(inv, 50 * k)) == Some(FullPage(inv, 50 * k))
  }

  /** Page number `m` is the last one: it holds the rest, which may be more than was asked for. */
  ghost predicate LastAt(reply: Request -> Option<Page>, inv: Inventory, m: nat) {
    && (m == 0 || 50 * m < |inv.users|) && |inv.users| <= 50 * m + 250
    && reply(Asked(inv, 50 * m)) == Some(LastPage(inv, 50 * m))
  }

  /** Pages `k` to `m` are answered from the inventory, and `m` is the last one. */
  ghost predicate AnsweredFrom(reply: Request -> Option<Page>, inv: Inventory, k: nat, m: nat) {
    k <= m && (forall j: nat :: k <= j < m ==> FullAt(reply, inv, j)) && LastAt(reply, inv, m)
  }

  // ----- One page -----

  /** The accumulator holds the first `n` users. */
  ghost predicate Upto(inv: Inventory, s: ScanState, n: nat) {
    && n <= |inv.users| && s.users == inv.users[..n]
    && if n == 0 then s == EMPTY_SCAN
       else s.revision == inv.revision && s.total == |inv.users| && s.source == Some(inv.users[0].source)
  }

  /** `s` with the first `n` users in it. */
  ghost function Holding(inv: Inventory, s: ScanState, n: nat): ScanState
    requires n <= |inv.users|
  {
    s.(users := inv.users[..n], source := if n == 0 then None else Some(inv.users[0].source))
  }

  lemma UserFollows(inv: Inventory, s: ScanState, n: nat)
    requires GoodInventory(inv) && n < |inv.users| && s == Holding(inv, s, n)
    ensures NextUser(s, inv.users[n]) && AddUser(s, inv.users[n]) == Holding(inv, s, n + 1)
  {
    assert ValidUser(inv.users[n]) && inv.users[n].source == inv.users[0].source;
    assert inv.users[..n + 1] == inv.users[..n] + [inv.users[n]];
  }

  lemma {:induction false} UsersAdded(inv: Inventory, s: ScanState, n: nat, users: seq<User>, k: nat)
    requires GoodInventory(inv) && k <= |users| && n + |users| <= |inv.users|
    requires users == inv.users[n..n + |users|] && s == Holding(inv, s, n)
    ensures AddUsers(s, users, k) == Some(Holding(inv, s, n + k))
  {
    if k > 0 {
      UsersAdded(inv, s, n, users, k - 1);
      assert users[k - 1] == inv.users[n + k - 1];
      UserFollows(inv, Holding(inv, s, n + k - 1), n + k - 1);
    }
  }

  lemma FullAppended(inv: Inventory, s: ScanState, n: nat)
    requires GoodInventory(inv) && Upto(inv, s, n) && n + 50 < |inv.users|
    ensures Append(s, n, 50, FullPage(inv, n)).Some? && Upto(inv, Append(s, n, 50, FullPage(inv, n)).value, n + 50)
  {
    var page := FullPage(inv, n);
    UsersAdded(inv, Opened(s, page), n, page.users, |page.users|);
  }

  lemma LastAppended(inv: Inventory, s: ScanState, n: nat)
    requires GoodInventory(inv) && Upto(inv, s, n) && |inv.users| <= n + 250
    ensures Append(s, n, 50, LastPage(inv, n)).Some? && Append(s, n, 50, LastPage(inv, n)).value.users == inv.users
  {
    var page := LastPage(inv, n);
    UsersAdded(inv, Opened(s, page), n, page.users, |page.users|);
    assert inv.users[..n + |page.users|] == inv.users;
  }

  lemma FullRead(reply: Request -> Option<Page>, inv: Inventory, left: nat, k: nat, s: ScanState) returns (t: ScanState)
    requires GoodInventory(inv) && Upto(inv, s, 50 * k) && FullAt(reply, inv, k) && left > 0
    ensures Upto(inv, t, 50 * (k + 1)) && ScanFrom(reply, left, 50 * k, s) == ScanFrom(reply, left - 1, 50 * (k + 1), t)
  {
    FullAppended(inv, s, 50 * k);
    t := Append(s, 50 * k, 50, FullPage(inv, 50 * k)).value;
  }

  lemma LastRead(reply: Request -> Option<Page>, inv: Inventory, left: nat, k: nat, s: ScanState)
    requires GoodInventory(inv) && Upto(inv, s, 50 * k) && LastAt(reply, inv, k) && left > 0
    ensures ScanFrom(reply, left, 50 * k, s) == Some(inv.users)
  {
    LastAppended(inv, s, 50 * k);
  }

  /** An Agent that answers so is read in full. */
  lemma {:induction false} HonestRead(reply: Request -> Option<Page>, inv: Inventory, left: nat, k: nat, m: nat,
      s: ScanState)
    requires GoodInventory(inv) && Upto(inv, s, 50 * k) && AnsweredFrom(reply, inv, k, m) && m - k < left
    ensures ScanFrom(reply, left, 50 * k, s) == Some(inv.users)
    decreases left
  {
    if k < m {
      assert FullAt(reply, inv, k);
      var t := FullRead(reply, inv, left, k, s);
      HonestRead(reply, inv, left - 1, k + 1, m, t);
    } else {
      LastRead(reply, inv, left, k, s);
    }
  }

  // ----- Whatever was answered -----

  /** What the accumulator knows after `n` users. */
  ghost predicate Sound(s: ScanState, n: nat) {
    && |s.users| == n && Consistent(s) && (n == 0 ==> s == EMPTY_SCAN) && (n > 0 ==> ValidDigest(s.revision))
  }

  /** An accepted page is the one an Agent would send if the result were its inventory. */
  lemma AcceptedPage(s: ScanState, n: nat, page: Page, users: seq<User>)
    requires Sound(s, n) && Append(s, n, 50, page).Some? && (n > 0 ==> s.total == |users|)
    requires Append(s, n, 50, page).value.users <= users && page.total == |users|
    requires !page.hasMore ==> Append(s, n, 50, page).value.users == users
    ensures n > 0 ==> page.revision == s.revision
    ensures var inv := Inventory(users, page.revision);
            if page.hasMore then n + 50 < |users| && page == FullPage(inv, n)
            else n <= |users| <= n + 250 && page == LastPage(inv, n)
  {
    AddedConsistent(Opened(s, page), page.users, |page.users|);
    var t := Append(s, n, 50, page).value;
    assert t.users == s.users + page.users && page.users[..|page.users|] == page.users;
    assert page.users == users[n..n + |page.users|];
    assert !page.hasMore ==> users[n..] == page.users;
  }

  lemma AppendedSound(s: ScanState, n: nat, page: Page)
    requires Sound(s, n) && Append(s, n, 50, page).Some? && page.hasMore
    ensures page.next == n + 50 && Sound(Append(s, n, 50, page).value, n + 50)
    ensures Append(s, n, 50, page).value.total == page.total && Append(s, n, 50, page).value.revision == page.revision
  {
    AddedConsistent(Opened(s, page), page.users, |page.users|);
  }

  /** A completed scan is a good list, of the total announced. */
  lemma ScannedGood(reply: Request -> Option<Page>, left: nat, n: nat, s: ScanState, users: seq<User>)
    requires Sound(s, n) && ScanFrom(reply, left, n, s) == Some(users)
    ensures n > 0 ==> s.total == |users|
    ensures AscendingUsers(users) && (forall u :: u in users ==> ValidUser(u)) && OneSource(users) && |users| <= 10_000
  {
    CompletedScan(reply, left, n, s);
    forall i, j | 0 <= i < |users| && 0 <= j < |users| ensures users[i].source == users[j].source {
      assert users[i] in users && users[j] in users;
    }
  }

  /** One page of a completed scan. */
  lemma ScannedPage(reply: Request -> Option<Page>, left: nat, n: nat, s: ScanState, users: seq<User>)
    returns (more: bool, t: ScanState)
    requires Sound(s, n) && ScanFrom(reply, left, n, s) == Some(users)
    ensures left > 0 && s.users <= t.users
    ensures if more then Sound(t, n + 50) && ScanFrom(reply, left - 1, n + 50, t) == Some(users) else t.users == users
  {
    var page := reply(Request(n, s.revision, 50)).value;
    more, t := page.hasMore, Append(s, n, 50, page).value;
    AddedConsistent(Opened(s, page), page.users, |page.users|);
    if more { AppendedSound(s, n, page); }
  }

  lemma {:induction false} ScannedPrefix(reply: Request -> Option<Page>, left: nat, n: nat, s: ScanState,
      users: seq<User>)
    requires Sound(s, n) && ScanFrom(reply, left, n, s) == Some(users)
    ensures s.users <= users
    decreases left
  {
    var more, t := ScannedPage(reply, left, n, s, users);
    if more { ScannedPrefix(reply, left - 1, n + 50, t, users); }
  }

  lemma ScannedGrows(reply: Request -> Option<Page>, left: nat, n: nat, s: ScanState, users: seq<User>)
    requires Sound(s, n) && ScanFrom(reply, left, n, s) == Some(users)
    ensures s.users <= users && (n > 0 ==> s.total == |users|)
    ensures AscendingUsers(users) && (forall u :: u in users ==> ValidUser(u)) && OneSource(users) && |users| <= 10_000
  {
    ScannedGood(reply, left, n, s, users);
    ScannedPrefix(reply, left, n, s, users);
  }

  lemma LastScanned(reply: Request -> Option<Page>, left: nat, k: nat, s: ScanState, users: seq<User>, page: Page)
    requires Sound(s, 50 * k) && ScanFrom(reply, left, 50 * k, s) == Some(users) && (k > 0 ==> 50 * k < s.total)
    requires reply(Request(50 * k, s.revision, 50)) == Some(page) && !page.hasMore
    ensures ValidDigest(page.revision) && (k > 0 ==> page.revision == s.revision)
    ensures LastAt(reply, Inventory(users, page.revision), k)
  {
    ScannedGrows(reply, left, 50 * k, s, users);
    CompletedScan(reply, left, 50 * k, s);
    AcceptedPage(s, 50 * k, page, users);
  }

  lemma FullScanned(reply: Request -> Option<Page>, left: nat, k: nat, s: ScanState, users: seq<User>, page: Page)
    returns (t: ScanState)
    requires Sound(s, 50 * k) && ScanFrom(reply, left, 50 * k, s) == Some(users)
    requires reply(Request(50 * k, s.revision, 50)) == Some(page) && page.hasMore
    ensures left > 0 && Sound(t, 50 * (k + 1)) && ScanFrom(reply, left - 1, 50 * (k + 1), t) == Some(users)
    ensures t.revision == page.revision && 50 * (k + 1) < t.total && (k > 0 ==> page.revision == s.revision)
    ensures FullAt(reply, Inventory(users, page.revision), k)
  {
    ScannedGrows(reply, left, 50 * k, s, users);
    AppendedSound(s, 50 * k, page);
    t := Append(s, 50 * k, 50, page).value;
    ScannedGrows(reply, left - 1, 50 * k + 50, t, users);
    AcceptedPage(s, 50 * k, page, users);
  }

  /** The next answer is one of the inventory `users`, and the scan goes on if it is not the last. */
  lemma NextScanned(reply: Request -> Option<Page>, left: nat, k: nat, s: ScanState, users: seq<User>)
    returns (page: Page, t: ScanState)
    requires Scans(reply, left, k, s, users)
    ensures left > 0 && (k > 0 ==> page.revision == s.revision)
    ensures if page.hasMore
            then FullAt(reply, Inventory(users, page.revision), k) && t.revision == page.revision &&
                 Scans(reply, left - 1, k + 1, t, users)
            else LastAt(reply, Inventory(users, page.revision), k) && ValidDigest(page.revision)
  {
    page, t := reply(Request(50 * k, s.revision, 50)).value, s;
    if page.hasMore {
      t := FullScanned(reply, left, k, s, users, page);
    } else {
      LastScanned(reply, left, k, s, users, page);
    }
  }

  lemma MoreAnswered(reply: Request -> Option<Page>, inv: Inventory, k: nat, m: nat)
    requires FullAt(reply, inv, k) && AnsweredFrom(reply, inv, k + 1, m)
    ensures AnsweredFrom(reply, inv, k, m)
  { }

  ghost predicate Scans(reply: Request -> Option<Page>, left: nat, k: nat, s: ScanState, users: seq<User>) {
    Sound(s, 50 * k) && ScanFrom(reply, left, 50 * k, s) == Some(users) && (k > 0 ==> 50 * k < s.total)
  }

  /** The answers that led to the result are those of the inventory `users`. */
  lemma {:induction false} ScannedFrom(reply: Request -> Option<Page>, left: nat, k: nat, s: ScanState,
      users: seq<User>) returns (revision: string, m: nat)
    requires Scans(reply, left, k, s, users)
    ensures ValidDigest(revision) && (k > 0 ==> revision == s.revision)
    ensures AnsweredFrom(reply, Inventory(users, revision), k, m)
    decreases left
  {
    var page, t := NextScanned(reply, left, k, s, users);
    revision, m := page.revision, k;
    if page.hasMore {
      revision, m := ScannedFrom(reply, left - 1, k + 1, t, users);
      MoreAnswered(reply, Inventory(users, revision), k, m);
    }
  }

  ghost predicate ReadsAs(reply: Request -> Option<Page>, users: seq<User>, revision: string, m: nat) {
    GoodInventory(Inventory(users, revision)) && AnsweredFrom(reply, Inventory(users, revision), 0, m)
  }

  /** A scan ends with `users` if and only if they are a good inventory and the pages asked for were
      answered from exactly this inventory, at one revision: fifty users each, and the rest, which the
      Controller takes up to 250 users long, in the last one. */
  lemma ScanIff(reply: Request -> Option<Page>, users: seq<User>)
    ensures ScanFrom(reply, MAX_PAGES, 0, EMPTY_SCAN) == Some(users) <==>
            exists revision, m: nat :: ReadsAs(reply, users, revision, m)
  {
    if ScanFrom(reply, MAX_PAGES, 0, EMPTY_SCAN) == Some(users) {
      ScannedGrows(reply, MAX_PAGES, 0, EMPTY_SCAN, users);
      var revision, m := ScannedFrom(reply, MAX_PAGES, 0, EMPTY_SCAN, users);
      assert ReadsAs(reply, users, revision, m);
    }
    if revision, m: nat :| ReadsAs(reply, users, revision, m) {
      HonestRead(reply, Inventory(users, revision), MAX_PAGES, 0, m, EMPTY_SCAN);
    }
  }
}
