/** Activity-ownership claims: what a claim says, which claims are well formed,
    how claims are ranked, and how one Agent stores them. */
module OwnershipClaim {
  import opened Basics
  import opened Formats
  import opened Quorum
  import Sets
  import Text

  const GRANT := "controller_grant"
  const TAKEOVER := "user_confirmed_takeover"
  const MAX_INT64: int := 0x7fff_ffff_ffff_ffff

  /** `ObservedAt` is left out: it enters neither the claim ID nor the rank. */
  datatype Claim = Claim(
    claimId: string,
    handle: string,
    owner: int,
    generation: int,
    epoch: int,
    sequence: int,
    kind: string,
    parentId: string,
    operationId: string)

  // ----- Identity -----

  function Fields(c: Claim): seq<string> {
    ["stcontrol-activity-owner:v1", c.handle, Text.Decimal(c.owner), Text.Decimal(c.generation),
     Text.Decimal(c.epoch), Text.Decimal(c.sequence), c.kind, c.parentId, c.operationId]
  }

  function Canonical(c: Claim): string {
    Text.Join(Fields(c), '\n')
  }

  function Facts(c: Claim): Claim {
    c.(claimId := "")
  }

  predicate ValidOwnershipHandle(handle: string) {
    SafeInventoryString(handle, 128) && IsLower(handle)
  }

  /** Checks that do not involve the digest. */
  predicate WellFormed(c: Claim) {
    && ValidOwnershipHandle(c.handle)
    && 0 < c.owner <= MAX_INT64 && 0 < c.generation <= MAX_INT64 && 0 < c.epoch <= MAX_INT64
    && 0 <= c.sequence <= MAX_INT64
    && (|| (c.kind == GRANT && c.sequence == 0 && c.parentId == "" && c.operationId == "")
        || (c.kind == TAKEOVER && c.sequence > 0 && ValidDigest(c.parentId) && ValidUuid(c.operationId)))
  }

  predicate ValidClaim(hash: string -> string, c: Claim) {
    WellFormed(c) && c.claimId == hash(Canonical(c))
  }

  lemma KindLacksNewline(kind: string)
    requires kind == GRANT || kind == TAKEOVER
    ensures '\n' !in kind
  { }

  lemma FieldsLackNewline(c: Claim)
    requires WellFormed(c)
    ensures Text.NoneContains(Fields(c), '\n')
  {
    Text.DecimalLacks(c.owner, '\n');
    Text.DecimalLacks(c.generation, '\n');
    Text.DecimalLacks(c.epoch, '\n');
    Text.DecimalLacks(c.sequence, '\n');
    KindLacksNewline(c.kind);
    assert '\n' !in c.handle by { assert forall i :: 0 <= i < |c.handle| ==> !IsControl(c.handle[i]); }
    assert '\n' !in c.parentId && '\n' !in c.operationId by { HexLacksNewline(c.parentId, c.operationId); }
  }

  lemma HexLacksNewline(digest: string, uuid: string)
    ensures ValidDigest(digest) || digest == "" ==> '\n' !in digest
    ensures ValidUuid(uuid) || uuid == "" ==> '\n' !in uuid
  { }

  /** The hashed text determines every field it was built from. */
  lemma CanonicalInjective(a: Claim, b: Claim)
    requires WellFormed(a) && WellFormed(b)
    ensures Canonical(a) == Canonical(b) <==> Facts(a) == Facts(b)
  {
    if Canonical(a) == Canonical(b) {
      FieldsLackNewline(a);
      FieldsLackNewline(b);
      Text.JoinInjective(Fields(a), Fields(b), '\n');
      var f, g := Fields(a), Fields(b);
      assert forall i :: 0 <= i < 9 ==> f[i] == g[i];
      assert f[1] == g[1] && f[6] == g[6] && f[7] == g[7] && f[8] == g[8];
      assert f[2] == g[2] && f[3] == g[3] && f[4] == g[4] && f[5] == g[5];
      Text.DecimalInjective(a.owner, b.owner);
      Text.DecimalInjective(a.generation, b.generation);
      Text.DecimalInjective(a.epoch, b.epoch);
      Text.DecimalInjective(a.sequence, b.sequence);
    }
  }

  /** Without the checks the text is ambiguous: a newline in the parent ID lets
      its tail be read as the head of the operation ID. */
  lemma AmbiguousWithoutChecks(c: Claim, tail: string)
    ensures var a := c.(parentId := c.parentId + "\n" + tail);
            var b := c.(operationId := tail + "\n" + c.operationId);
            Facts(a) != Facts(b) && Canonical(a) == Canonical(b)
  {
    var a := c.(parentId := c.parentId + "\n" + tail);
    var b := c.(operationId := tail + "\n" + c.operationId);
    var f, g, h := Fields(c)[..7], [a.parentId, a.operationId], [b.parentId, b.operationId];
    assert Fields(a) == f + g && Fields(b) == f + h;
    JoinAppend(f, g);
    JoinAppend(f, h);
    assert g[1..] == [a.operationId] && h[1..] == [b.operationId];
    assert Text.Join(g, '\n') == Text.Join(h, '\n');
    assert |a.parentId| != |b.parentId|;
  }

  lemma {:induction false} JoinAppend(f: seq<string>, g: seq<string>)
    requires |f| > 0 && |g| > 0
    ensures Text.Join(f + g, '\n') == Text.Join(f, '\n') + "\n" + Text.Join(g, '\n')
  {
    if |f| == 1 {
      assert (f + g)[1..] == g;
    } else {
      JoinAppend(f[1..], g);
      assert (f + g)[1..] == f[1..] + g;
      assert (f + g)[0] == f[0];
    }
  }

  /** Equal IDs of valid claims mean equal claims, or a SHA-256 collision. */
  lemma IdIdentifiesClaim(hash: string -> string, a: Claim, b: Claim)
    requires ValidClaim(hash, a) && ValidClaim(hash, b) && a.claimId == b.claimId
    ensures a == b || (Canonical(a) != Canonical(b) && hash(Canonical(a)) == hash(Canonical(b)))
  {
    CanonicalInjective(a, b);
    assert Facts(a) == Facts(b) ==> a == b.(claimId := a.claimId);
  }

  /** `makeActivityOwnershipClaim`. */
  function MakeClaim(hash: string -> string, handle: string, owner: int, generation: int, epoch: int, sequence: int,
                     kind: string, parentId: string, operationId: string): (r: Option<Claim>)
    ensures r.Some? <==> WellFormed(Claim("", handle, owner, generation, epoch, sequence, kind, parentId, operationId))
    ensures r.Some? ==>
            ValidClaim(hash, r.value) &&
            Facts(r.value) == Claim("", handle, owner, generation, epoch, sequence, kind, parentId, operationId)
  {
    var draft := Claim("", handle, owner, generation, epoch, sequence, kind, parentId, operationId);
    var c := draft.(claimId := hash(Canonical(draft)));
    assert Canonical(c) == Canonical(draft) by { assert Fields(c) == Fields(draft); }
    if ValidClaim(hash, c) then Some(c) else None
  }

  // ----- Rank -----

  predicate Below(a: Claim, b: Claim) {
    || a.generation < b.generation
    || (a.generation == b.generation && a.epoch < b.epoch)
    || (a.generation == b.generation && a.epoch == b.epoch && a.sequence < b.sequence)
  }

  predicate SameRank(a: Claim, b: Claim) {
    a.generation == b.generation && a.epoch == b.epoch && a.sequence == b.sequence
  }

  predicate AtLeast(a: Claim, b: Claim) {
    Below(b, a) || SameRank(a, b)
  }

  /** Ranks are totally ordered, by generation first, then by epoch, then by takeovers. */
  lemma RankOrder(a: Claim, b: Claim, c: Claim)
    ensures Below(a, b) || Below(b, a) || SameRank(a, b)
    ensures !(Below(a, b) && Below(b, a)) && !(Below(a, b) && SameRank(a, b))
    ensures Below(a, b) && Below(b, c) ==> Below(a, c)
    ensures a.generation < b.generation ==> Below(a, b)
    ensures a.generation == b.generation && a.epoch < b.epoch ==> Below(a, b)
    ensures Below(a, b) ==> a.generation <= b.generation
    ensures Below(a, b) && a.generation == b.generation ==> a.epoch <= b.epoch
  { }

  /** `compareActivityOwnership`: -1, 0 and 1 as usual, 2 for two different
      claims of one rank. */
  method Compare(left: Claim, right: Claim) returns (r: int)
    ensures r == -1 <==> Below(left, right)
    ensures r == 1 <==> Below(right, left)
    ensures r == 0 <==> SameRank(left, right) && left.claimId == right.claimId
    ensures r == 2 <==> SameRank(left, right) && left.claimId != right.claimId
    ensures r in {-1, 0, 1, 2}
  {
    var values: seq<(int, int)> := [(left.generation, right.generation), (left.epoch, right.epoch),
      (left.sequence, right.sequence)];
    for i := 0 to 3
      invariant forall k :: 0 <= k < i ==> values[k].0 == values[k].1
    {
      assert i >= 1 ==> values[0].0 == values[0].1;
      assert i >= 2 ==> values[1].0 == values[1].1;
      if values[i].0 < values[i].1 { return -1; }
      if values[i].0 > values[i].1 { return 1; }
    }
    assert values[0].0 == values[0].1 && values[1].0 == values[1].1 && values[2].0 == values[2].1;
    r := if left.claimId == right.claimId then 0 else 2;
  }

  // ----- One Agent's store -----

  type Store = map<string, Claim>

  datatype Applied = Applied(store: Store, accepted: bool)

  /** The claim is the one already stored. */
  predicate Known(store: Store, c: Claim) {
    c.handle in store && store[c.handle].claimId == c.claimId
  }

  /** Where a parent is required the stored claim must be that very parent; a claim of lower
      or equal rank never follows. */
  predicate MayFollow(store: Store, c: Claim, requireParent: bool) {
    && (c.handle in store ==> Below(store[c.handle], c))
    && (requireParent ==> c.handle in store && store[c.handle].claimId == c.parentId)
  }

  /** What `applyActivityOwnershipClaim` does to the stored claim of one handle.
      An invalid claim is an error and changes nothing. */
  function ApplyClaim(hash: string -> string, store: Store, c: Claim, requireParent: bool): (r: Applied)
    ensures r.accepted <==> ValidClaim(hash, c) && (Known(store, c) || MayFollow(store, c, requireParent))
    ensures r.accepted && !Known(store, c) ==> r.store == store[c.handle := c]
    ensures !r.accepted || Known(store, c) ==> r.store == store
    ensures forall h :: h != c.handle ==> (h in r.store <==> h in store) && (h in store ==> r.store[h] == store[h])
    ensures c.handle in store ==> c.handle in r.store && AtLeast(r.store[c.handle], store[c.handle])
  {
    if !ValidClaim(hash, c) then Applied(store, false)
    else if c.handle in store then
      var current := store[c.handle];
      if current.claimId == c.claimId then Applied(store, true)
      else if requireParent && current.claimId != c.parentId then Applied(store, false)
      else if Below(current, c) then Applied(store[c.handle := c], true)
      else Applied(store, false)
    else if requireParent then Applied(store, false)
    else Applied(store[c.handle := c], true)
  }

  // ----- Resolving a quorum read -----

  /** `m` has the greatest rank among the replies and every reply of that rank is `m`. */
  ghost predicate IsUniqueMaximum(replies: map<int, Claim>, m: Claim) {
    && (exists n :: n in replies && replies[n] == m)
    && (forall n :: n in replies ==> AtLeast(m, replies[n]))
    && (forall n :: n in replies && SameRank(replies[n], m) ==> replies[n].claimId == m.claimId)
  }

  ghost predicate GreatestRank(replies: map<int, Claim>, n: int) {
    n in replies && forall k :: k in replies ==> AtLeast(replies[n], replies[k])
  }

  /** Two replies of the greatest rank name different claims. */
  ghost predicate Disputed(replies: map<int, Claim>) {
    exists i, j :: GreatestRank(replies, i) && GreatestRank(replies, j) && replies[i].claimId != replies[j].claimId
  }

  /** The maximal-claim loop. Go visits the map in any order, so the next node
      is chosen arbitrarily; the outcome does not depend on the choices. */
  method FoldMaximal(replies: map<int, Claim>) returns (found: bool, maximal: Claim, conflict: bool)
    ensures found <==> |replies| > 0
    ensures found ==> exists n :: GreatestRank(replies, n) && replies[n] == maximal
    ensures conflict <==> Disputed(replies)
    ensures found && !conflict <==> IsUniqueMaximum(replies, maximal)
  {
    var remaining: set<int> := replies.Keys;
    found, conflict := false, false;
    maximal := Claim("", "", 0, 0, 0, 0, "", "", "");
    ghost var best := 0;
    while remaining != {}
      invariant remaining <= replies.Keys
      invariant found <==> remaining != replies.Keys
      invariant found ==> best in replies && best !in remaining && replies[best] == maximal
      invariant found ==> forall k :: k in replies && k !in remaining ==> AtLeast(maximal, replies[k])
      invariant conflict ==> found
      invariant conflict <==> (found && exists k :: k in replies && k !in remaining && SameRank(replies[k], maximal) &&
                                                    replies[k].claimId != maximal.claimId)
      decreases remaining
    {
      ghost var some := Sets.Pick(remaining);
      var n: int :| n in remaining;
      remaining := remaining - {n};
      if !found {
        found, maximal, best := true, replies[n], n;
      } else {
        var comparison := Compare(replies[n], maximal);
        if comparison == 1 {
          maximal, conflict, best := replies[n], false, n;
        } else if comparison == 2 {
          conflict := true;
        }
      }
    }
    if found {
      assert GreatestRank(replies, best);
      if conflict {
        var k :| k in replies && SameRank(replies[k], maximal) && replies[k].claimId != maximal.claimId;
        assert GreatestRank(replies, k);
      }
    }
  }

  /** Two folds of the same replies agree on conflict and, without one, on the
      claim ID, whatever order each used. */
  lemma UniqueMaximumId(replies: map<int, Claim>, a: Claim, b: Claim)
    requires IsUniqueMaximum(replies, a) && IsUniqueMaximum(replies, b)
    ensures a.claimId == b.claimId && SameRank(a, b)
  {
    var i :| i in replies && replies[i] == a;
    assert AtLeast(b, replies[i]);
    var j :| j in replies && replies[j] == b;
    assert AtLeast(a, replies[j]);
  }

  datatype Resolution =
    | Unavailable(reason: string)
    | Resolved(decision: string, claimId: string)

  ghost function Matching(node: int, replies: map<int, Claim>, claimId: string): set<int> {
    {node} + set n | n in replies && replies[n].claimId == claimId
  }

  /** The `matchingNodes` loop. */
  method CountMatching(node: int, replies: map<int, Claim>, claimId: string) returns (count: nat)
    ensures count == |Matching(node, replies, claimId)|
  {
    var matching := {node};
    var remaining: set<int> := replies.Keys;
    while remaining != {}
      invariant remaining <= replies.Keys
      invariant matching == {node} + set n | n in replies.Keys - remaining && replies[n].claimId == claimId
      decreases remaining
    {
      ghost var some := Sets.Pick(remaining);
      var n: int :| n in remaining;
      remaining := remaining - {n};
      if replies[n].claimId == claimId { matching := matching + {n}; }
    }
    assert matching == Matching(node, replies, claimId);
    count := |matching|;
  }

  function Decision(node: int, m: Claim, available: map<int, bool>): string {
    if m.owner == node then "automatic"
    else if m.owner in available && available[m.owner] then "owner_available"
    else "takeover_required"
  }

  /** The owner's own node goes on by itself; another node must leave an owner that is reported
      available alone, and may take over from any other owner. */
  ghost predicate Decides(node: int, m: Claim, available: map<int, bool>, r: Resolution)
    requires r.Resolved?
  {
    var reported := m.owner in available && available[m.owner];
    && r.claimId == m.claimId
    && (r.decision == "automatic" <==> m.owner == node)
    && (r.decision == "owner_available" <==> m.owner != node && reported)
    && (r.decision == "takeover_required" <==> m.owner != node && !reported)
  }

  /** What the tail of `queryOwnershipQuorum` may do once the replies are in:
      fold, adopt the maximal claim locally, count the nodes that hold it. */
  ghost predicate QueryOutcome(hash: string -> string, node: int, peers: nat, store: Store, replies: map<int, Claim>,
                               available: map<int, bool>, store': Store, r: Resolution) {
    if forall m :: !IsUniqueMaximum(replies, m) then store' == store && r == Unavailable("ownership_fact_conflict")
    else exists m :: IsUniqueMaximum(replies, m) && Adopts(hash, node, peers, store, replies, available, m, store', r)
  }

  ghost predicate Adopts(hash: string -> string, node: int, peers: nat, store: Store, replies: map<int, Claim>,
                         available: map<int, bool>, m: Claim, store': Store, r: Resolution) {
    var applied := ApplyClaim(hash, store, m, false);
    && store' == applied.store
    && r == if !applied.accepted then Unavailable("ownership_fact_conflict")
            else if |Matching(node, replies, m.claimId)| < Required(peers) then
              Unavailable("ownership_quorum_unavailable")
            else Resolved(Decision(node, m, available), m.claimId)
  }

  /** The ownership part of one Agent. */
  class OwnershipAgent {
    const node: int
    const peers: nat
    const hash: string -> string
    var claims: Store

    constructor (node: int, peers: nat, hash: string -> string)
      ensures this.node == node && this.peers == peers && this.hash == hash && claims == map[]
    {
      this.node, this.peers, this.hash, this.claims := node, peers, hash, map[];
    }

    method Apply(c: Claim, requireParent: bool) returns (accepted: bool)
      modifies this
      ensures Applied(claims, accepted) == ApplyClaim(hash, old(claims), c, requireParent)
    {
      if !ValidClaim(hash, c) { return false; }
      if c.handle in claims {
        var current := claims[c.handle];
        if current.claimId == c.claimId { return true; }
        if requireParent && current.claimId != c.parentId { return false; }
        var comparison := Compare(c, current);
        if comparison <= 0 || comparison == 2 { return false; }
      } else if requireParent {
        return false;
      }
      claims := claims[c.handle := c];
      return true;
    }

    method FinishQuery(replies: map<int, Claim>, available: map<int, bool>) returns (r: Resolution)
      modifies this
      ensures QueryOutcome(hash, node, peers, old(claims), replies, available, claims, r)
      ensures r.Resolved? ==> exists m :: IsUniqueMaximum(replies, m) && Decides(node, m, available, r)
    {
      var found, maximal, conflict := FoldMaximal(replies);
      if !found || conflict {
        NoUniqueMaximum(replies);
        return Unavailable("ownership_fact_conflict");
      }
      var accepted := Apply(maximal, false);
      if !accepted { return Unavailable("ownership_fact_conflict"); }
      var matching := CountMatching(node, replies, maximal.claimId);
      if matching < (peers + 1) / 2 + 1 { return Unavailable("ownership_quorum_unavailable"); }
      r := Resolved(Decision(node, maximal, available), maximal.claimId);
      assert IsUniqueMaximum(replies, maximal) && Decides(node, maximal, available, r);
    }
  }

  lemma NoUniqueMaximum(replies: map<int, Claim>)
    requires |replies| == 0 || Disputed(replies)
    ensures forall m :: !IsUniqueMaximum(replies, m)
  {
    forall m ensures !IsUniqueMaximum(replies, m) {
      if Disputed(replies) {
        var i, j :| GreatestRank(replies, i) && GreatestRank(replies, j) && replies[i].claimId != replies[j].claimId;
        assert AtLeast(replies[i], replies[j]) && AtLeast(replies[j], replies[i]);
        forall k | k in replies && replies[k] == m ensures AtLeast(replies[i], m) { }
      }
    }
  }
}
