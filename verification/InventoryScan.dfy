/** The Controller reads a node's user inventory page by page. */
module InventoryScan {
  import opened Basics
  import opened Formats
  import Text

  const MAX_USERS: nat := 10_000
  const MAX_PAGE_USERS: nat := 250
  const PAGE_USERS: nat := 50

  datatype Source = Adapter | DirectoryFallback

  datatype AccountKind = Password | OAuth | Mixed | Unknown

  datatype Provider = Discord | LinuxDo

  datatype Identity = Identity(provider: Provider, fingerprint: string)

  datatype User = User(id: string, handle: string, size: int, fingerprint: string, source: Source, kind: AccountKind,
      identities: seq<Identity>, admin: bool)

  /** `validScannedInventoryUser`. */
  predicate ValidUser(u: User) {
    && SafeInventoryString(u.id, 256) && SafeInventoryString(u.handle, 128) && u.size >= 0
    && ValidDigest(u.fingerprint) && |u.identities| <= 2
    && (forall i :: 0 <= i < |u.identities| ==> ValidDigest(u.identities[i].fingerprint))
    && (forall i, j :: 0 <= i < j < |u.identities| ==> u.identities[i].provider != u.identities[j].provider)
    && (u.source == DirectoryFallback ==> u.kind == Unknown && u.identities == [] && !u.admin)
    && ((u.kind == OAuth || u.kind == Mixed) <==> u.identities != [])
  }

  datatype Page = Page(users: seq<User>, cursor: int, next: int, total: int, revision: string, hasMore: bool)

  datatype Request = Request(cursor: int, revision: string, limit: int)

  // ----- The Agent's page from the directory listing -----

  predicate ValidPageRequest(req: Request) {
    && 0 <= req.cursor <= MAX_USERS && 0 < req.limit <= MAX_PAGE_USERS
    && ((req.revision == "" && req.cursor == 0) || ValidDigest(req.revision))
  }

  /** What the Agent finds in one user directory. */
  datatype Directory = Directory(size: nat, fingerprint: string)

  /** The stable facts of the data root: its managed directories in order, their contents,
      and the fingerprint of the whole list. */
  datatype Disk = Disk(names: seq<string>, inspect: string -> Option<Directory>, revision: string)

  function UserOf(name: string, d: Directory): User {
    User(name, name, d.size, d.fingerprint, DirectoryFallback, Unknown, [], false)
  }

  ghost predicate Readable(disk: Disk, lo: nat, hi: nat)
    requires lo <= hi <= |disk.names|
  {
    forall i :: lo <= i < hi ==> disk.inspect(disk.names[i]).Some?
  }

  ghost function UsersOf(disk: Disk, lo: nat, hi: nat): seq<User>
    requires lo <= hi <= |disk.names| && Readable(disk, lo, hi)
  {
    seq(hi - lo, i requires 0 <= i < hi - lo => UserOf(disk.names[lo + i], disk.inspect(disk.names[lo + i]).value))
  }

  function PageEnd(disk: Disk, req: Request): int {
    if req.cursor + req.limit > |disk.names| then |disk.names| else req.cursor + req.limit
  }

  ghost predicate PageAvailable(disk: Disk, req: Request) {
    && ValidPageRequest(req) && |disk.names| <= MAX_USERS && req.cursor <= |disk.names|
    && (req.revision == "" || req.revision == disk.revision) && Readable(disk, req.cursor, PageEnd(disk, req))
  }

  ghost function PageOf(disk: Disk, req: Request): Page
    requires PageAvailable(disk, req)
  {
    var end := PageEnd(disk, req);
    Page(UsersOf(disk, req.cursor, end), req.cursor, if end < |disk.names| then end else 0,
      |disk.names|, disk.revision, end < |disk.names|)
  }

  /** `scanExistingUsersFromDiskPage`, after the list of names is read and sorted. */
  method ScanDiskPage(disk: Disk, req: Request) returns (r: Option<Page>)
    ensures r.Some? <==> PageAvailable(disk, req)
    ensures r.Some? ==> r.value == PageOf(disk, req)
  {
    if !ValidPageRequest(req) || |disk.names| > MAX_USERS || req.cursor > |disk.names| { return None; }
    if req.revision != "" && req.revision != disk.revision { return None; }
    var end := req.cursor + req.limit;
    if end > |disk.names| { end := |disk.names|; }
    var out: seq<User> := [];
    for i := req.cursor to end
      invariant Readable(disk, req.cursor, i) && out == UsersOf(disk, req.cursor, i)
    {
      var found := disk.inspect(disk.names[i]);
      if found.None? { return None; }
      out := out + [UserOf(disk.names[i], found.value)];
    }
    var hasMore := end < |disk.names|;
    var next := 0;
    if hasMore { next := end; }
    return Some(Page(out, req.cursor, next, |disk.names|, disk.revision, hasMore));
  }

  // ----- The Controller's accumulator -----

  datatype ScanState = ScanState(revision: string, total: int, source: Option<Source>, users: seq<User>)

  const EMPTY_SCAN := ScanState("", 0, None, [])

  predicate HeaderAccepted(s: ScanState, cursor: int, limit: int, page: Page) {
    && 0 <= cursor && 0 < limit <= MAX_PAGE_USERS && page.cursor == cursor && 0 <= page.total <= MAX_USERS
    && ValidDigest(page.revision) && |page.users| <= MAX_PAGE_USERS && page.cursor + |page.users| <= page.total
    && (s.revision == "" || (s.revision == page.revision && s.total == page.total))
  }

  function Opened(s: ScanState, page: Page): ScanState {
    if s.revision == "" then s.(revision := page.revision, total := page.total, users := []) else s
  }

  predicate NextUser(s: ScanState, u: User) {
    && ValidUser(u) && (s.users != [] ==> Text.Less(s.users[|s.users| - 1].id, u.id))
    && (s.source.None? || s.source.value == u.source)
  }

  function AddUser(s: ScanState, u: User): ScanState {
    s.(source := Some(u.source), users := s.users + [u])
  }

  /** The state after the first `k` users of a page, if each of them may follow. */
  function AddUsers(s: ScanState, users: seq<User>, k: nat): Option<ScanState>
    requires k <= |users|
  {
    if k == 0 then Some(s)
    else
      match AddUsers(s, users, k - 1)
      case None => None
      case Some(t) => if NextUser(t, users[k - 1]) then Some(AddUser(t, users[k - 1])) else None
  }

  predicate TailAccepted(s: ScanState, limit: int, page: Page) {
    var end := page.cursor + |page.users|;
    if page.hasMore then |page.users| == limit && page.next == end && end < page.total
    else page.next == 0 && end == page.total && |s.users| == s.total
  }

  /** The state after an accepted page. */
  function Append(s: ScanState, cursor: int, limit: int, page: Page): Option<ScanState> {
    if !HeaderAccepted(s, cursor, limit, page) then None
    else
      match AddUsers(Opened(s, page), page.users, |page.users|)
      case None => None
      case Some(t) => if TailAccepted(t, limit, page) then Some(t) else None
  }

  class Scan {
    var state: ScanState

    constructor ()
      ensures state == EMPTY_SCAN
    {
      state := EMPTY_SCAN;
    }

    /** `appendPage`. A refused page ends the scan, so nothing is promised of the state then. */
    method AppendPage(cursor: int, limit: int, page: Page) returns (ok: bool, complete: bool)
      modifies this
      ensures ok <==> Append(old(state), cursor, limit, page).Some?
      ensures ok ==> state == Append(old(state), cursor, limit, page).value && (complete <==> !page.hasMore)
    {
      if !HeaderAccepted(state, cursor, limit, page) { return false, false; }
      if state.revision == "" {
        state := state.(revision := page.revision, total := page.total, users := []);
      }
      ghost var start := state;
      var k := 0;
      while k < |page.users|
        invariant k <= |page.users| && AddUsers(start, page.users, k) == Some(state)
      {
        var user := page.users[k];
        if !NextUser(state, user) {
          RefusedStays(start, page.users, k + 1, |page.users|);
          return false, false;
        }
        if state.source.None? {
          state := state.(source := Some(user.source));
        }
        state := state.(users := state.users + [user]);
        k := k + 1;
      }
      if !TailAccepted(state, limit, page) { return false, false; }
      return true, !page.hasMore;
    }
  }

  lemma {:induction false} RefusedStays(s: ScanState, users: seq<User>, j: nat, k: nat)
    requires j <= k <= |users| && AddUsers(s, users, j).None?
    ensures AddUsers(s, users, k).None?
  {
    if j < k { RefusedStays(s, users, j, k - 1); }
  }

  // ----- The Controller's loop -----

  const MAX_PAGES: nat := (MAX_USERS + PAGE_USERS - 1) / PAGE_USERS

  /** The pages read from `cursor` on, within the number of pages left. */
  function ScanFrom(reply: Request -> Option<Page>, left: nat, cursor: int, s: ScanState): Option<seq<User>>
    decreases left
  {
    if left == 0 then None
    else
      match reply(Request(cursor, s.revision, PAGE_USERS))
      case None => None
      case Some(page) =>
        match Append(s, cursor, PAGE_USERS, page)
        case None => None
        case Some(t) => if !page.hasMore then Some(t.users) else ScanFrom(reply, left - 1, page.next, t)
  }

  /** `scanAccountInventory`. */
  method ScanInventory(reply: Request -> Option<Page>) returns (r: Option<seq<User>>)
    ensures r == ScanFrom(reply, MAX_PAGES, 0, EMPTY_SCAN)
  {
    var scan := new Scan();
    var cursor, pageIndex := 0, 0;
    while pageIndex < MAX_PAGES
      invariant pageIndex <= MAX_PAGES && fresh(scan)
      invariant ScanFrom(reply, MAX_PAGES, 0, EMPTY_SCAN) == ScanFrom(reply, MAX_PAGES - pageIndex, cursor, scan.state)
    {
      var answer := reply(Request(cursor, scan.state.revision, PAGE_USERS));
      if answer.None? { return None; }
      var ok, complete := scan.AppendPage(cursor, PAGE_USERS, answer.value);
      if !ok { return None; }
      if complete { return Some(scan.state.users); }
      cursor := answer.value.next;
      pageIndex := pageIndex + 1;
    }
    return None;
  }

  // ----- Whatever the Agent answers -----

  ghost predicate AscendingUsers(users: seq<User>) {
    forall i :: 0 < i < |users| ==> Text.Less(users[i - 1].id, users[i].id)
  }

  /** What holds of the accumulator at all times. */
  ghost predicate Consistent(s: ScanState) {
    && AscendingUsers(s.users) && (forall u :: u in s.users ==> ValidUser(u))
    && (forall u :: u in s.users ==> s.source == Some(u.source))
  }

  lemma {:induction false} AddedConsistent(s: ScanState, users: seq<User>, k: nat)
    requires k <= |users| && Consistent(s) && AddUsers(s, users, k).Some?
    ensures Consistent(AddUsers(s, users, k).value) && AddUsers(s, users, k).value.users == s.users + users[..k]
    ensures AddUsers(s, users, k).value.total == s.total && AddUsers(s, users, k).value.revision == s.revision
  {
    if k > 0 {
      AddedConsistent(s, users, k - 1);
      assert users[..k] == users[..k - 1] + [users[k - 1]];
    }
  }

  /** A completed scan, from any replies at all, is strictly ascending by local ID, holds only valid
      users of one source, and has exactly the total its pages declare. */
  lemma {:induction false} CompletedScan(reply: Request -> Option<Page>, left: nat, cursor: int, s: ScanState)
    requires Consistent(s) && (s.revision == "" ==> s.users == []) && ScanFrom(reply, left, cursor, s).Some?
    ensures var users := ScanFrom(reply, left, cursor, s).value;
            var first := reply(Request(cursor, s.revision, PAGE_USERS)).value;
            && AscendingUsers(users) && (forall u :: u in users ==> ValidUser(u)) && |users| == first.total <= MAX_USERS
            && (forall u, v :: u in users && v in users ==> u.source == v.source)
    ensures s.revision != "" ==> |ScanFrom(reply, left, cursor, s).value| == s.total
    decreases left
  {
    var page := reply(Request(cursor, s.revision, PAGE_USERS)).value;
    var t := Append(s, cursor, PAGE_USERS, page).value;
    AddedConsistent(Opened(s, page), page.users, |page.users|);
    if page.hasMore { CompletedScan(reply, left - 1, page.next, t); }
  }

  // ----- A stable directory listing -----

  ghost predicate StableDisk(disk: Disk) {
    && Text.Ascending(disk.names) && |disk.names| <= MAX_USERS && ValidDigest(disk.revision)
    && (forall i :: 0 <= i < |disk.names| ==> ValidHandle(disk.names[i]))
    && (forall i :: 0 <= i < |disk.names| ==>
       disk.inspect(disk.names[i]).Some? && ValidDigest(disk.inspect(disk.names[i]).value.fingerprint))
  }

  ghost predicate Answers(reply: Request -> Option<Page>, disk: Disk) {
    forall req :: (reply(req).Some? <==> PageAvailable(disk, req)) &&
      (reply(req).Some? ==> reply(req).value == PageOf(disk, req))
  }

  ghost function UserAt(disk: Disk, i: nat): User
    requires i < |disk.names| && disk.inspect(disk.names[i]).Some?
  {
    UserOf(disk.names[i], disk.inspect(disk.names[i]).value)
  }

  /** The accumulator holds the users of the first `n` directories. */
  ghost predicate ReadUpTo(disk: Disk, s: ScanState, n: nat)
    requires StableDisk(disk) && n <= |disk.names|
  {
    && |s.users| == n && (forall i :: 0 <= i < n ==> s.users[i] == UserAt(disk, i))
    && s.source == if n == 0 then None else Some(DirectoryFallback)
  }

  lemma DirectoryUserValid(disk: Disk, i: nat)
    requires StableDisk(disk) && i < |disk.names|
    ensures ValidUser(UserAt(disk, i))
  {
    assert ValidHandle(disk.names[i]);
  }

  lemma DirectoryUserFollows(disk: Disk, s: ScanState, n: nat)
    requires StableDisk(disk) && n < |disk.names| && ReadUpTo(disk, s, n)
    ensures NextUser(s, UserAt(disk, n)) && ReadUpTo(disk, AddUser(s, UserAt(disk, n)), n + 1)
  {
    DirectoryUserValid(disk, n);
    if n > 0 { assert Text.Less(disk.names[n - 1], disk.names[n - 1 + 1]); }
  }

  lemma AddOneMore(s: ScanState, users: seq<User>, k: nat)
    requires k < |users| && AddUsers(s, users, k).Some? && NextUser(AddUsers(s, users, k).value, users[k])
    ensures AddUsers(s, users, k + 1) == Some(AddUser(AddUsers(s, users, k).value, users[k]))
  { }

  /** What adding the first `k` users of a page amounts to. */
  ghost predicate ReadMore(disk: Disk, s: ScanState, n: nat, r: Option<ScanState>)
    requires StableDisk(disk) && n <= |disk.names|
  {
    r.Some? && ReadUpTo(disk, r.value, n) && r.value.total == s.total && r.value.revision == s.revision
  }

  lemma DirectoryUserAdded(disk: Disk, s: ScanState, n: nat, users: seq<User>, k: nat)
    requires StableDisk(disk) && k < |users| && n + k < |disk.names| && users[k] == UserAt(disk, n + k)
    requires ReadMore(disk, s, n + k, AddUsers(s, users, k))
    ensures ReadMore(disk, s, n + k + 1, AddUsers(s, users, k + 1))
  {
    var t := AddUsers(s, users, k).value;
    DirectoryUserFollows(disk, t, n + k);
    AddOneMore(s, users, k);
  }

  lemma {:induction false} DirectoryUsersFollow(disk: Disk, s: ScanState, n: nat, users: seq<User>, k: nat)
    requires StableDisk(disk) && n + |users| <= |disk.names| && ReadUpTo(disk, s, n) && k <= |users|
    requires forall i :: 0 <= i < |users| ==> users[i] == UserAt(disk, n + i)
    ensures ReadMore(disk, s, n + k, AddUsers(s, users, k))
  {
    if k > 0 {
      DirectoryUsersFollow(disk, s, n, users, k - 1);
      DirectoryUserAdded(disk, s, n, users, k - 1);
    }
  }

  lemma PageAccepted(disk: Disk, s: ScanState, n: nat)
    requires StableDisk(disk) && n <= |disk.names| && ReadUpTo(disk, s, n)
    requires if s.revision == "" then n == 0 else s.revision == disk.revision && s.total == |disk.names|
    ensures var req := Request(n, s.revision, PAGE_USERS);
            PageAvailable(disk, req) && Append(s, n, PAGE_USERS, PageOf(disk, req)).Some?
    ensures var req := Request(n, s.revision, PAGE_USERS); var t := Append(s, n, PAGE_USERS, PageOf(disk, req)).value;
            t.revision == disk.revision && t.total == |disk.names| && ReadUpTo(disk, t, PageEnd(disk, req))
  {
    var req := Request(n, s.revision, PAGE_USERS);
    var page := PageOf(disk, req);
    var end := PageEnd(disk, req);
    DirectoryUsersFollow(disk, Opened(s, page), n, page.users, end - n);
  }

  lemma {:induction false} DiskScanned(reply: Request -> Option<Page>, disk: Disk, left: nat, n: nat, s: ScanState)
    requires StableDisk(disk) && Answers(reply, disk) && n <= |disk.names| && ReadUpTo(disk, s, n)
    requires if s.revision == "" then n == 0 else s.revision == disk.revision && s.total == |disk.names|
    requires left > 0 && |disk.names| - n <= left * PAGE_USERS
    ensures ScanFrom(reply, left, n, s) == Some(UsersOf(disk, 0, |disk.names|))
    decreases left
  {
    PageAccepted(disk, s, n);
    var req := Request(n, s.revision, PAGE_USERS);
    var page := PageOf(disk, req);
    var t := Append(s, n, PAGE_USERS, page).value;
    if page.hasMore {
      DiskScanned(reply, disk, left - 1, page.next, t);
    } else {
      assert t.users == UsersOf(disk, 0, |disk.names|);
    }
  }

  /** A stable listing is read in full within the page bound: exactly the sorted directories. */
  lemma DiskScanComplete(reply: Request -> Option<Page>, disk: Disk)
    requires StableDisk(disk) && Answers(reply, disk)
    ensures ScanFrom(reply, MAX_PAGES, 0, EMPTY_SCAN) == Some(UsersOf(disk, 0, |disk.names|))
  {
    DiskScanned(reply, disk, MAX_PAGES, 0, EMPTY_SCAN);
  }
}
