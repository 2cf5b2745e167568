/** Choosing where a copy goes: the single repair target, and the ordered
    retirement targets. */
module TargetChoice {
  import opened Basics

  datatype Capacity = Open | Busy | Full

  datatype Role = Compute | Storage

  /** A node as both algorithms see it; `ready` is online, active, compatible, managed and wanted managed. */
  datatype Node = Node(id: int, role: Role, backupTarget: bool, hasTransferUrl: bool, ready: bool, capacity: Capacity)

  /** `nodeAcceptsNewData`. */
  predicate AcceptsNewData(n: Node) {
    n.ready && (n.capacity == Open || n.capacity == Busy)
  }

  // ----- The repair target -----

  predicate RepairEligible(n: Node, source: int, relay: bool) {
    n.id != source && n.role == Storage && n.backupTarget && (n.hasTransferUrl || relay) && AcceptsNewData(n)
  }

  /** The last place of an ID in the hint, or past its end. */
  function PositionOf(hint: seq<int>, id: int, k: nat): nat
    requires k <= |hint|
  {
    if k == 0 then |hint| else if hint[k - 1] == id then k - 1 else PositionOf(hint, id, k - 1)
  }

  function Position(hint: seq<int>, id: int): nat {
    PositionOf(hint, id, |hint|)
  }

  /** Open before busy, then the hint, then the smaller ID. */
  predicate Better(hint: seq<int>, a: Node, b: Node) {
    if a.capacity != b.capacity then a.capacity == Open && b.capacity == Busy
    else if Position(hint, a.id) != Position(hint, b.id) then Position(hint, a.id) < Position(hint, b.id)
    else a.id < b.id
  }

  lemma BetterTransitive(hint: seq<int>, a: Node, b: Node, c: Node)
    requires Better(hint, a, b) && Better(hint, b, c)
    ensures Better(hint, a, c)
  { }

  /** Nodes that accept data and have different IDs are always comparable. */
  lemma BetterTotal(hint: seq<int>, a: Node, b: Node)
    requires AcceptsNewData(a) && AcceptsNewData(b) && a.id != b.id
    ensures Better(hint, a, b) || Better(hint, b, a)
  { }

  ghost predicate EligibleIn(nodes: seq<Option<Node>>, n: Node, source: int, relay: bool) {
    Some(n) in nodes && RepairEligible(n, source, relay)
  }

  /** A best eligible node, or none when no node is eligible. */
  ghost predicate IsChoice(nodes: seq<Option<Node>>, source: int, hint: seq<int>, relay: bool, r: Option<Node>) {
    match r
    case None => forall n :: !EligibleIn(nodes, n, source, relay)
    case Some(best) => EligibleIn(nodes, best, source, relay) && forall n :: EligibleIn(nodes, n, source, relay) ==>
      !Better(hint, n, best)
  }

  lemma EligibleMore(nodes: seq<Option<Node>>, x: Option<Node>, source: int, relay: bool)
    ensures forall n :: EligibleIn(nodes + [x], n, source, relay) <==>
            EligibleIn(nodes, n, source, relay) || (x == Some(n) && RepairEligible(n, source, relay))
  {
    forall n ensures Some(n) in nodes + [x] <==> Some(n) in nodes || x == Some(n) { }
  }

  method HintPositions(hint: seq<int>) returns (position: map<int, nat>)
    ensures forall id :: Position(hint, id) == if id in position then position[id] else |hint|
  {
    position := map[];
    for k := 0 to |hint|
      invariant forall id :: PositionOf(hint, id, k) == if id in position then position[id] else |hint|
    {
      position := position[hint[k] := k];
    }
  }

  /** `chooseStorageRepairTarget`. */
  method ChooseRepairTarget(nodes: seq<Option<Node>>, source: int, hint: seq<int>, relay: bool)
    returns (r: Option<Node>)
    ensures IsChoice(nodes, source, hint, relay, r)
  {
    var position := HintPositions(hint);
    var best: Option<Node>, bestPos := None, 0;
    for k := 0 to |nodes|
      invariant IsChoice(nodes[..k], source, hint, relay, best)
      invariant best.Some? ==> bestPos == Position(hint, best.value.id)
    {
      assert nodes[..k + 1] == nodes[..k] + [nodes[k]];
      EligibleMore(nodes[..k], nodes[k], source, relay);
      if nodes[k].None? || !RepairEligible(nodes[k].value, source, relay) { continue; }
      var node := nodes[k].value;
      var nodePos := if node.id in position then position[node.id] else |hint|;
      if best.None? {
        best, bestPos := Some(node), nodePos;
        continue;
      }
      var better := false;
      if best.value.capacity == Busy && node.capacity == Open {
        better := true;
      } else if best.value.capacity == node.capacity {
        better := if nodePos != bestPos then nodePos < bestPos else node.id < best.value.id;
      }
      assert better <==> Better(hint, node, best.value);
      if better {
        BetterThanAll(nodes[..k], source, hint, relay, best.value, node);
        best, bestPos := Some(node), nodePos;
      }
    }
    assert nodes[..|nodes|] == nodes;
    r := best;
  }

  lemma BetterThanAll(nodes: seq<Option<Node>>, source: int, hint: seq<int>, relay: bool, best: Node, node: Node)
    requires IsChoice(nodes, source, hint, relay, Some(best)) && Better(hint, node, best)
    ensures forall n :: EligibleIn(nodes, n, source, relay) ==> !Better(hint, n, node)
  {
    forall n | EligibleIn(nodes, n, source, relay) ensures !Better(hint, n, node) {
      if Better(hint, n, node) { BetterTransitive(hint, n, node, best); }
    }
  }

  /** IDs identify nodes. */
  ghost predicate IdsIdentify(nodes: seq<Option<Node>>) {
    forall a, b :: Some(a) in nodes && Some(b) in nodes && a.id == b.id ==> a == b
  }

  /** The choice is unique and does not depend on the order the nodes are listed in. */
  lemma ChoiceUnique(nodes: seq<Option<Node>>, others: seq<Option<Node>>, source: int, hint: seq<int>, relay: bool,
      r: Option<Node>, s: Option<Node>)
    requires IdsIdentify(nodes) && forall n :: n in nodes <==> n in others
    requires IsChoice(nodes, source, hint, relay, r) && IsChoice(others, source, hint, relay, s)
    ensures r == s
  {
    if r.Some? && s.Some? {
      assert EligibleIn(others, r.value, source, relay) && EligibleIn(nodes, s.value, source, relay);
      if r.value.id != s.value.id { BetterTotal(hint, r.value, s.value); }
    } else if r.Some? {
      assert EligibleIn(others, r.value, source, relay);
    } else if s.Some? {
      assert EligibleIn(nodes, s.value, source, relay);
    }
  }

  // ----- The retirement targets -----

  predicate RetirementEligible(n: Node, role: Role, relay: bool, excluded: set<int>) {
    n.role == role && (n.hasTransferUrl || relay) && AcceptsNewData(n) && n.id !in excluded &&
      (role == Storage ==> n.backupTarget)
  }

  /** `retirementTargetLess`. */
  predicate TargetLess(a: Node, b: Node) {
    if a.capacity != b.capacity then a.capacity == Open else a.id < b.id
  }

  function Eligible(nodes: seq<Option<Node>>, role: Role, relay: bool, excluded: set<int>, k: nat): seq<Node>
    requires k <= |nodes|
  {
    if k == 0 then []
    else
      Eligible(nodes, role, relay, excluded, k - 1) +
      if nodes[k - 1].Some? && RetirementEligible(nodes[k - 1].value, role, relay, excluded) then [nodes[k - 1].value]
        else []
  }

  lemma {:induction false} EligibleHolds(nodes: seq<Option<Node>>, role: Role, relay: bool, excluded: set<int>, k: nat,
      n: Node)
    requires k <= |nodes|
    ensures n in Eligible(nodes, role, relay, excluded, k) <==>
            (exists i :: 0 <= i < k && nodes[i] == Some(n)) && RetirementEligible(n, role, relay, excluded)
  {
    if k > 0 { EligibleHolds(nodes, role, relay, excluded, k - 1, n); }
  }

  ghost predicate OpenOrBusy(s: seq<Node>) {
    forall i :: 0 <= i < |s| ==> s[i].capacity == Open || s[i].capacity == Busy
  }

  ghost predicate SortedTargets(s: seq<Node>) {
    forall i, j :: 0 <= i < j < |s| ==> !TargetLess(s[j], s[i])
  }

  /** The elements before `left` are in place. */
  ghost predicate Placed(s: seq<Node>, left: nat) {
    forall i, j :: 0 <= i < left && i < j < |s| ==> !TargetLess(s[j], s[i])
  }

  lemma SwapKeepsPlaced(s: seq<Node>, t: seq<Node>, left: nat, right: nat)
    requires left < right < |s| && t == s[left := s[right]][right := s[left]] && Placed(s, left)
    ensures Placed(t, left) && multiset(t) == multiset(s)
  {
    forall i, j | 0 <= i < left && i < j < |t| ensures !TargetLess(t[j], t[i]) {
      assert t[i] == s[i];
      if j == left { assert t[j] == s[right]; } else if j == right { assert t[j] == s[left]; } else {
        assert t[j] == s[j];
      }
    }
  }

  /** Nothing in `s[left + 1..right]` belongs before `s[left]`. */
  ghost predicate LeastUpTo(s: seq<Node>, left: nat, right: nat) {
    left < |s| && forall k :: left < k < right && k < |s| ==> !TargetLess(s[k], s[left])
  }

  lemma SwapLeast(s: seq<Node>, t: seq<Node>, left: nat, right: nat)
    requires left < right < |s| && t == s[left := s[right]][right := s[left]] && OpenOrBusy(s)
    requires LeastUpTo(s, left, right) && TargetLess(s[right], s[left])
    ensures LeastUpTo(t, left, right + 1) && OpenOrBusy(t)
  {
    forall k | left < k <= right ensures !TargetLess(t[k], t[left]) {
      if k == right { assert t[k] == s[left]; } else { assert t[k] == s[k]; }
    }
  }

  lemma PlacedMore(s: seq<Node>, left: nat)
    requires Placed(s, left) && LeastUpTo(s, left, |s|)
    ensures Placed(s, left + 1)
  { }

  /** Brings the least of `a[left..]` to `left`, by the swaps of the inner loop. */
  method PlaceLeast(a: array<Node>, left: nat)
    requires left < a.Length && Placed(a[..], left) && OpenOrBusy(a[..])
    modifies a
    ensures Placed(a[..], left + 1) && multiset(a[..]) == multiset(old(a[..])) && OpenOrBusy(a[..])
  {
    for right := left + 1 to a.Length
      invariant Placed(a[..], left) && multiset(a[..]) == multiset(old(a[..])) && OpenOrBusy(a[..])
      invariant LeastUpTo(a[..], left, right)
    {
      if TargetLess(a[right], a[left]) {
        ghost var before := a[..];
        a[left], a[right] := a[right], a[left];
        assert a[..] == before[left := before[right]][right := before[left]];
        SwapKeepsPlaced(before, a[..], left, right);
        SwapLeast(before, a[..], left, right);
      }
    }
    PlacedMore(a[..], left);
  }

  method SortTargets(a: array<Node>)
    requires OpenOrBusy(a[..])
    modifies a
    ensures SortedTargets(a[..]) && multiset(a[..]) == multiset(old(a[..]))
  {
    for left := 0 to a.Length
      invariant Placed(a[..], left) && multiset(a[..]) == multiset(old(a[..])) && OpenOrBusy(a[..])
    {
      PlaceLeast(a, left);
    }
  }

  /** `orderedRetirementTargets`: a sorted arrangement of exactly the eligible nodes. */
  method OrderedTargets(nodes: seq<Option<Node>>, role: Role, relay: bool, excluded: set<int>)
    returns (targets: seq<Node>)
    ensures SortedTargets(targets) && multiset(targets) == multiset(Eligible(nodes, role, relay, excluded, |nodes|))
  {
    var chosen: seq<Node> := [];
    for k := 0 to |nodes|
      invariant chosen == Eligible(nodes, role, relay, excluded, k) && OpenOrBusy(chosen)
    {
      if nodes[k].Some? && RetirementEligible(nodes[k].value, role, relay, excluded) {
        chosen := chosen + [nodes[k].value];
      }
    }
    var a := new Node[|chosen|](i requires 0 <= i < |chosen| => chosen[i]);
    assert a[..] == chosen;
    SortTargets(a);
    targets := a[..];
  }

  /** Nodes that accept data are never equivalent under both orders unless their IDs agree. */
  lemma LessIsBetter(a: Node, b: Node)
    requires AcceptsNewData(a) && AcceptsNewData(b)
    ensures TargetLess(a, b) <==> Better([], a, b)
  { }

  /** With no hint, the repair target is the first retirement target for role storage with
      only the source excluded. */
  lemma RepairIsFirstRetirement(nodes: seq<Option<Node>>, source: int, relay: bool, r: Option<Node>, targets: seq<Node>)
    requires IdsIdentify(nodes) && IsChoice(nodes, source, [], relay, r)
    requires SortedTargets(targets) && multiset(targets) == multiset(Eligible(nodes, Storage, relay, {source}, |nodes|))
    ensures r == if targets == [] then None else Some(targets[0])
  {
    var all := Eligible(nodes, Storage, relay, {source}, |nodes|);
    forall n ensures n in targets <==> EligibleIn(nodes, n, source, relay) {
      EligibleHolds(nodes, Storage, relay, {source}, |nodes|, n);
      assert n in targets <==> n in multiset(targets);
      assert n in all <==> n in multiset(all);
    }
    var first := if targets == [] then None else Some(targets[0]);
    if targets != [] {
      assert targets[0] in targets;
      forall n | EligibleIn(nodes, n, source, relay) ensures !Better([], n, targets[0]) {
        var j :| 0 <= j < |targets| && targets[j] == n;
        LessIsBetter(n, targets[0]);
        if j > 0 { assert !TargetLess(targets[j], targets[0]); }
      }
    }
    assert IsChoice(nodes, source, [], relay, first);
    ChoiceUnique(nodes, nodes, source, [], relay, r, first);
  }

  // ----- The choice, read off the nodes -----

  /** The last place of `id` in the hint. */
  ghost predicate LastAt(hint: seq<int>, id: int, i: nat) {
    i < |hint| && hint[i] == id && forall j :: i < j < |hint| ==> hint[j] != id
  }

  lemma {:induction false} PositionIsLast(hint: seq<int>, id: int, k: nat)
    requires k <= |hint|
    ensures var i := PositionOf(hint, id, k);
            if id in hint[..k] then i < k && hint[i] == id && forall j :: i < j < k ==> hint[j] != id else i == |hint|
  {
    if k > 0 {
      PositionIsLast(hint, id, k - 1);
      assert hint[..k] == hint[..k - 1] + [hint[k - 1]];
    }
  }

  /** The position of an ID is its last place in the hint, and the hint's length if it is not there. */
  lemma PositionMeans(hint: seq<int>, id: int)
    ensures if id in hint then LastAt(hint, id, Position(hint, id)) else Position(hint, id) == |hint|
  {
    PositionIsLast(hint, id, |hint|);
    assert hint[..|hint|] == hint;
  }

  /** The node chosen can take the copy. No other that can is open if it is not; none of its capacity
      has its last place in the hint before it; if neither is in the hint its ID is the smaller. */
  lemma ChosenMeans(nodes: seq<Option<Node>>, source: int, hint: seq<int>, relay: bool, best: Node, n: Node)
    requires IsChoice(nodes, source, hint, relay, Some(best)) && EligibleIn(nodes, n, source, relay)
    ensures best.id != source && best.role == Storage && best.backupTarget && best.ready && best.capacity != Full
    ensures best.hasTransferUrl || relay
    ensures n.capacity == Open ==> best.capacity == Open
    ensures n.capacity == best.capacity ==> forall i :: LastAt(hint, n.id, i) ==>
              exists j: nat :: j <= i && LastAt(hint, best.id, j)
    ensures n.capacity == best.capacity && n.id !in hint && best.id !in hint ==> best.id <= n.id
  {
    PositionMeans(hint, best.id);
    PositionMeans(hint, n.id);
    assert !Better(hint, n, best);
    if n.capacity == best.capacity {
      forall i: nat | LastAt(hint, n.id, i) ensures exists j: nat :: j <= i && LastAt(hint, best.id, j) {
        assert LastAt(hint, n.id, Position(hint, n.id)) && i == Position(hint, n.id);
        assert Position(hint, best.id) <= i;
      }
    }
  }

  /** And there is a choice if and only if some node can take the copy. */
  lemma ChoiceExistsIff(nodes: seq<Option<Node>>, source: int, hint: seq<int>, relay: bool, r: Option<Node>)
    requires IsChoice(nodes, source, hint, relay, r)
    ensures r.Some? <==> exists n ::
              && Some(n) in nodes && n.id != source && n.role == Storage && n.backupTarget && n.ready
              && n.capacity != Full && (n.hasTransferUrl || relay)
  {
    if r.Some? { assert EligibleIn(nodes, r.value, source, relay); }
    if n :| && Some(n) in nodes && n.id != source && n.role == Storage && n.backupTarget && n.ready
            && n.capacity != Full && (n.hasTransferUrl || relay) {
      assert EligibleIn(nodes, n, source, relay);
    }
  }

  // ----- The retirement targets, read off the nodes -----

  /** The targets are exactly the nodes of the wanted role that are ready, not full, reachable directly or
      by relay and not excluded, and, of storage nodes, those meant as backup targets; a compute node need
      not be one. */
  lemma TargetsAre(nodes: seq<Option<Node>>, role: Role, relay: bool, excluded: set<int>, n: Node)
    ensures n in Eligible(nodes, role, relay, excluded, |nodes|) <==>
            && Some(n) in nodes && n.role == role && n.id !in excluded && n.ready && n.capacity != Full
            && (n.hasTransferUrl || relay) && (n.backupTarget || role == Compute)
  {
    EligibleHolds(nodes, role, relay, excluded, |nodes|, n);
  }

  /** In their order no busy node comes before an open one, and of two alike the smaller ID comes first. */
  lemma SortedMeans(s: seq<Node>, i: nat, j: nat)
    requires SortedTargets(s) && OpenOrBusy(s) && i < j < |s|
    ensures s[j].capacity == Open ==> s[i].capacity == Open
    ensures s[i].capacity == s[j].capacity ==> s[i].id <= s[j].id
  { }
}
