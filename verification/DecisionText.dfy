/** The text a page of decisions becomes on its way to the Agent, and when the
    Agent receives all of it. */
module DecisionText {
  import opened ConflictMerge
  import Json
  import Text

  /** The largest page file the Agent reads back and the largest response it reads from the Controller. */
  const MAX_TEXT: nat := 0x10_0000

  /** Keys, braces and commas of one decision. */
  const DECISION_FRAME: nat := 37

  /** The same of the command's payload, with the 36 bytes of its operation ID. */
  const REQUEST_FRAME: nat := 82

  /** What the cipher adds to the payload: a nonce of 12 bytes and a tag of 16. */
  const SEAL: nat := 28

  /** Keys, braces, commas and quotes of the leased command and of the envelope inside it, with the
      command's name, its two UUIDs and the payload's digest. */
  const RESPONSE_FRAME: nat := 355

  /** A bound on the fields of a leased command that differ from lease to lease: the attempt, the
      generation and two times. */
  const MAX_STAMP: nat := 128

  lemma RequestFrames()
    ensures DECISION_FRAME == |"{\"path\":,\"source_node_id\":,\"action\":}"|
    ensures REQUEST_FRAME == |"{\"operation_id\":\"\",\"page_index\":,\"decisions\":}"| + 36
  { }

  lemma ResponseFrame()
    ensures RESPONSE_FRAME == |"{\"id\":\"\",\"operation_id\":\"\",\"command_type\":\"\",\"encrypted_payload\":"| +
                              |"apply_conflict_resolution_decisions"| + |"{\"version\":2,\"ciphertext\":\"\"}"| +
                              |",\"payload_sha256\":\"\",\"attempt\":,\"controller_generation\":"| +
                              |",\"lease_until\":\"\",\"expires_at\":\"\"}"| + 36 + 36 + 64
  { }

  function DecisionLength(d: Decision): nat {
    DECISION_FRAME + Json.StringLength(d.path) + Json.IntLength(d.source) + Json.StringLength(d.action)
  }

  /** The JSON array of a page that is not empty. */
  function PageLength(page: seq<Decision>): nat {
    1 + Json.ItemsLength(page, DecisionLength)
  }

  predicate PageFits(page: seq<Decision>) {
    PageLength(page) <= MAX_TEXT
  }

  function Base64Length(n: nat): nat {
    (n + 2) / 3 * 4
  }

  /** The leased command that brings page `k`; `stamp` is the size of the fields that vary. */
  function ResponseLength(k: nat, page: seq<Decision>, stamp: nat): nat {
    RESPONSE_FRAME + Base64Length(REQUEST_FRAME + Json.IntLength(k) + PageLength(page) + SEAL) + stamp
  }

  /** The Agent cuts a response at the limit, and a command that is cut cannot be decoded. (The
      newline that ends the response may be lost.) */
  predicate Arrives(k: nat, page: seq<Decision>, stamp: nat) {
    ResponseLength(k, page, stamp) <= MAX_TEXT
  }

  /** The largest page text that arrives. */
  function PageRoom(k: nat, stamp: nat): int {
    (MAX_TEXT - RESPONSE_FRAME - stamp) / 4 * 3 - SEAL - REQUEST_FRAME - Json.IntLength(k)
  }

  lemma Base64Within(n: nat, room: int)
    ensures Base64Length(n) <= room <==> n <= room / 4 * 3
  { }

  /** A page arrives if and only if its own text is within the room left by the wrapping. */
  lemma ArrivesIff(k: nat, page: seq<Decision>, stamp: nat)
    ensures Arrives(k, page, stamp) <==> PageLength(page) <= PageRoom(k, stamp)
  {
    Base64Within(REQUEST_FRAME + Json.IntLength(k) + PageLength(page) + SEAL, MAX_TEXT - RESPONSE_FRAME - stamp);
  }

  /** What arrives can be read back: the transport's limit is the tighter one. */
  lemma ArrivedFits(k: nat, page: seq<Decision>, stamp: nat)
    requires Arrives(k, page, stamp)
    ensures PageFits(page)
  {
    ArrivesIff(k, page, stamp);
  }

  /** Decisions of at most 7858 bytes of text always arrive. */
  lemma ShortArrives(k: nat, page: seq<Decision>, stamp: nat)
    requires k < 1000 && |page| <= 100 && stamp <= MAX_STAMP && forall d :: d in page ==> DecisionLength(d) <= 7858
    ensures Arrives(k, page, stamp)
  {
    Json.ItemsBounds(page, DecisionLength, 0, 7858);
    assert Text.TenTo(3) == 10 * Text.TenTo(2) && Text.TenTo(1) == 10;
    Json.IntShort(k, 3);
    ArrivesIff(k, page, stamp);
  }

  ghost function Longest(page: seq<Decision>): (n: nat)
    ensures forall d :: d in page ==> DecisionLength(d) <= n
  {
    if page == [] then 0
    else
      var rest := Longest(page[1..]);
      if DecisionLength(page[0]) > rest then DecisionLength(page[0]) else rest
  }

  /** A full page of decisions of 7860 bytes or more never arrives. */
  lemma LongNeverArrives(k: nat, page: seq<Decision>, stamp: nat)
    requires |page| == 100 && forall d :: d in page ==> DecisionLength(d) >= 7860
    ensures !Arrives(k, page, stamp)
  {
    Json.ItemsBounds(page, DecisionLength, 7860, Longest(page));
    ArrivesIff(k, page, stamp);
  }
}
