/** Majority arithmetic shared by ownership claims and outage witnesses. */
module Quorum {
  import Sets

  /** Nodes that must hold a claim, counting the asking node, when it has
      `peers` configured peers. */
  function Required(peers: nat): nat {
    (peers + 1) / 2 + 1
  }

  ghost predicate IsMajority(part: set<int>, members: set<int>) {
    part <= members && |part| >= |members| / 2 + 1
  }

  /** Any two majorities of the same members share a node. */
  lemma MajoritiesMeet(a: set<int>, b: set<int>, members: set<int>)
    requires IsMajority(a, members) && IsMajority(b, members)
    ensures exists n :: n in a && n in b
  {
    Sets.SubsetSize(a + b, members);
    assert |a + b| == |a| + |b| - |a * b|;
    var n := Sets.Pick(a * b);
  }
}
