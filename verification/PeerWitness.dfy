/** The outage witnesses: when the configured peers confirm that the Controller
    is down. */
module PeerWitness {
  import Quorum

  /** What one probed peer answered; `valid` covers signature, fingerprint,
      freshness and a positive node ID that is not the asking node's. */
  datatype Witness = Witness(valid: bool, available: bool, node: int)

  function Confirming(answers: seq<Witness>): set<int> {
    set i | 0 <= i < |answers| && answers[i].valid && !answers[i].available :: answers[i].node
  }

  /** Every peer was heard before the deadline, none of the valid answers saw the
      Controller, and enough different nodes saw it down. */
  predicate Confirms(peers: nat, answers: seq<Witness>) {
    && 0 < peers <= |answers|
    && (forall i :: 0 <= i < peers ==> answers[i].valid ==> !answers[i].available)
    && |Confirming(answers[..peers])| >= (peers + 1) / 2
  }

  /** `peerWitnessQuorumConfirmsLoss`: the answers come in any order, and fewer
      than `peers` of them if the deadline passes first. */
  method QuorumConfirmsLoss(peers: nat, answers: seq<Witness>) returns (lost: bool)
    ensures lost == Confirms(peers, answers)
  {
    if peers == 0 { return false; }
    var required := (peers + 1) / 2;
    var confirmed: set<int> := {};
    for i := 0 to peers
      invariant i <= |answers|
      invariant forall k :: 0 <= k < i ==> answers[k].valid ==> !answers[k].available
      invariant confirmed == Confirming(answers[..i])
    {
      if i >= |answers| { return false; }
      ConfirmingSnoc(answers[..i], answers[i]);
      assert answers[..i + 1] == answers[..i] + [answers[i]];
      if !answers[i].valid { continue; }
      if answers[i].available { return false; }
      confirmed := confirmed + {answers[i].node};
    }
    return |confirmed| >= required;
  }

  lemma ConfirmingSnoc(answers: seq<Witness>, a: Witness)
    ensures Confirming(answers + [a]) == Confirming(answers) + if a.valid && !a.available then {a.node} else {}
  {
    var both := answers + [a];
    assert forall i :: 0 <= i < |answers| ==> both[i] == answers[i];
    assert both[|answers|] == a;
  }

  ghost predicate NoneSeesController(peers: nat, answers: seq<Witness>)
    requires peers <= |answers|
  {
    forall i :: 0 <= i < peers && answers[i].valid ==> !answers[i].available
  }

  /** When all peers were heard and none saw the Controller, the loss is confirmed exactly if the
      confirming peers, with the asking node, are a strict majority of all Agents. */
  lemma ConfirmedByMajority(peers: nat, answers: seq<Witness>, self: int, members: set<int>)
    requires |members| == peers + 1 && self in members
    requires forall i :: 0 <= i < |answers| && answers[i].valid ==>
             answers[i].node in members && answers[i].node != self
    ensures Confirms(peers, answers) <==>
            0 < peers <= |answers| && NoneSeesController(peers, answers) &&
              Quorum.IsMajority({self} + Confirming(answers[..peers]), members)
  {
    if !(0 < peers <= |answers|) { return; }
    var c := Confirming(answers[..peers]);
    assert forall i :: 0 <= i < peers ==> answers[..peers][i] == answers[i];
    assert self !in c && c <= members;
    assert |{self} + c| == 1 + |c|;
  }
}
