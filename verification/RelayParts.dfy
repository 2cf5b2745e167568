/** A relay transfer is uploaded in parts of sixteen MiB and read back as one stream. */
module RelayParts {
  import opened Basics

  const PART_BYTES: int := 16 * 0x10_0000

  /** `relayMultipartPartCount`. */
  function PartCount(bytes: int): nat {
    if bytes <= 0 then 0 else (bytes + PART_BYTES - 1) / PART_BYTES
  }

  /** `relayMultipartSize`: the size of a part, and whether there is one. */
  function PartSize(bytes: int, part: int): (int, bool) {
    if part < 0 || part >= PartCount(bytes) then (0, false)
    else
      var remaining := bytes - part * PART_BYTES;
      var size := if remaining > PART_BYTES then PART_BYTES else remaining;
      (size, size > 0)
  }

  function SizesBefore(bytes: int, k: nat): int {
    if k == 0 then 0 else SizesBefore(bytes, k - 1) + PartSize(bytes, k - 1).0
  }

  lemma PartBounds(bytes: int, part: int)
    ensures PartSize(bytes, part).1 <==> 0 <= part < PartCount(bytes)
    ensures PartSize(bytes, part).1 ==> 0 < PartSize(bytes, part).0 <= PART_BYTES
    ensures 0 <= part < PartCount(bytes) - 1 ==> PartSize(bytes, part).0 == PART_BYTES
    ensures bytes > 0 ==> (PartCount(bytes) - 1) * PART_BYTES < bytes <= PartCount(bytes) * PART_BYTES
  { }

  lemma {:induction false} SizesAre(bytes: int, k: nat)
    requires k <= PartCount(bytes)
    ensures SizesBefore(bytes, k) == if k == PartCount(bytes) && bytes > 0 then bytes else k * PART_BYTES
  {
    if k > 0 {
      SizesAre(bytes, k - 1);
      PartBounds(bytes, k - 1);
    }
  }

  /** The parts cover the ciphertext exactly, for any length. */
  lemma PartsSum(bytes: nat)
    ensures SizesBefore(bytes, PartCount(bytes)) == bytes
  {
    SizesAre(bytes, PartCount(bytes));
  }

  // ----- Uploading -----

  function Join(parts: seq<seq<Byte>>, k: nat): seq<Byte>
    requires k <= |parts|
  {
    if k == 0 then [] else Join(parts, k - 1) + parts[k - 1]
  }

  /** Cutting the stream into parts: nothing is lost, added or reordered. */
  method SplitUpload(ciphertext: seq<Byte>) returns (parts: seq<seq<Byte>>)
    ensures |parts| == PartCount(|ciphertext|) && Join(parts, |parts|) == ciphertext
    ensures forall i :: 0 <= i < |parts| ==> PartSize(|ciphertext|, i) == (|parts[i]|, true)
  {
    parts := [];
    var read := 0;
    for part := 0 to PartCount(|ciphertext|)
      invariant |parts| == part && 0 <= read <= |ciphertext| && read == SizesBefore(|ciphertext|, part)
      invariant Join(parts, part) == ciphertext[..read]
      invariant forall i :: 0 <= i < part ==> PartSize(|ciphertext|, i) == (|parts[i]|, true)
    {
      var size := PartSize(|ciphertext|, part).0;
      SizesAre(|ciphertext|, part);
      SizesAre(|ciphertext|, part + 1);
      PartBounds(|ciphertext|, part);
      var chunk := ciphertext[read..read + size];
      JoinMore(parts, chunk);
      assert ciphertext[..read] + chunk == ciphertext[..read + size];
      parts := parts + [chunk];
      read := read + size;
    }
    PartsSum(|ciphertext|);
    assert ciphertext[..|ciphertext|] == ciphertext;
  }

  lemma {:induction false} JoinShared(parts: seq<seq<Byte>>, chunk: seq<Byte>, k: nat)
    requires k <= |parts|
    ensures Join(parts + [chunk], k) == Join(parts, k)
  {
    if k > 0 { JoinShared(parts, chunk, k - 1); }
  }

  lemma JoinMore(parts: seq<seq<Byte>>, chunk: seq<Byte>)
    ensures Join(parts + [chunk], |parts| + 1) == Join(parts, |parts|) + chunk
  {
    JoinShared(parts, chunk, |parts|);
  }

  // ----- Downloading -----

  function JoinFrom(parts: seq<seq<Byte>>, k: nat): seq<Byte>
    requires k <= |parts|
    decreases |parts| - k
  {
    if k == |parts| then [] else parts[k] + JoinFrom(parts, k + 1)
  }

  lemma {:induction false} JoinBoth(parts: seq<seq<Byte>>, k: nat)
    requires k <= |parts|
    ensures Join(parts, k) + JoinFrom(parts, k) == Join(parts, |parts|)
    decreases |parts| - k
  {
    if k < |parts| {
      JoinBoth(parts, k + 1);
      assert Join(parts, k + 1) == Join(parts, k) + parts[k];
    }
  }

  /** The reader's own fields: the next part, what is left of the current one, and whether it is closed. */
  datatype Position = Position(part: nat, current: seq<Byte>, closed: bool)

  datatype Result = Data(bytes: seq<Byte>) | EndOfFile | DownloadFailed | ClosedPipe

  function Remaining(parts: seq<seq<Byte>>, p: Position): seq<Byte>
    requires p.part <= |parts|
  {
    p.current + JoinFrom(parts, p.part)
  }

  /** Downloads parts until there is something to read; `serves` tells which downloads succeed now. */
  function Fill(parts: seq<seq<Byte>>, p: Position, serves: nat -> bool): (Position, bool)
    requires p.part <= |parts|
    decreases |parts| - p.part
  {
    if p.current != [] || p.part == |parts| then (p, true)
    else if !serves(p.part) then (p, false)
    else Fill(parts, Position(p.part + 1, parts[p.part], p.closed), serves)
  }

  function Min(a: nat, b: nat): nat {
    if a < b then a else b
  }

  /** One `Read` into a buffer of `size` bytes. */
  function ReadOnce(parts: seq<seq<Byte>>, p: Position, size: nat, serves: nat -> bool): (Position, Result)
    requires p.part <= |parts|
  {
    if p.closed then (p, ClosedPipe)
    else
      var (q, ok) := Fill(parts, p, serves);
      if !ok then (q, DownloadFailed)
      else if q.current == [] then (q, EndOfFile)
      else
        var n := Min(size, |q.current|);
        (q.(current := q.current[n..]), Data(q.current[..n]))
  }

  function CloseOnce(p: Position): Position {
    p.(closed := true, current := [])
  }

  class DownloadReader {
    const parts: seq<seq<Byte>>
    var part: nat
    var current: seq<Byte>
    var closed: bool

    constructor (parts: seq<seq<Byte>>)
      ensures this.parts == parts && At() == Position(0, [], false) && part <= |parts|
    {
      this.parts, part, current, closed := parts, 0, [], false;
    }

    ghost function At(): Position
      reads this
    {
      Position(part, current, closed)
    }

    method Read(size: nat, serves: nat -> bool) returns (r: Result)
      requires part <= |parts|
      modifies this
      ensures part <= |parts| && (At(), r) == ReadOnce(parts, old(At()), size, serves)
    {
      if closed { return ClosedPipe; }
      while current == []
        invariant part <= |parts| && !closed && Fill(parts, old(At()), serves) == Fill(parts, At(), serves)
        decreases |parts| - part
      {
        if part >= |parts| { return EndOfFile; }
        if !serves(part) { return DownloadFailed; }
        current := parts[part];
        part := part + 1;
      }
      var n := Min(size, |current|);
      r := Data(current[..n]);
      current := current[n..];
    }

    method Close()
      requires part <= |parts|
      modifies this
      ensures part <= |parts| && At() == CloseOnce(old(At()))
    {
      closed, current := true, [];
    }
  }

  lemma {:induction false} FillKeeps(parts: seq<seq<Byte>>, p: Position, serves: nat -> bool)
    requires p.part <= |parts|
    ensures var (q, ok) := Fill(parts, p, serves);
            && q.part <= |parts| && Remaining(parts, q) == Remaining(parts, p) && q.closed == p.closed
            && (ok && q.current == [] ==> Remaining(parts, p) == [])
    decreases |parts| - p.part
  {
    if p.current == [] && p.part < |parts| && serves(p.part) {
      FillKeeps(parts, Position(p.part + 1, parts[p.part], p.closed), serves);
    }
  }

  function BytesOf(r: Result): seq<Byte> {
    if r.Data? then r.bytes else []
  }

  /** One read delivers the next bytes and leaves exactly the rest; the end is
      reported only when nothing is left, and a buffer that is not empty gets at least one byte. */
  lemma ReadDelivers(parts: seq<seq<Byte>>, p: Position, size: nat, serves: nat -> bool)
    requires p.part <= |parts|
    ensures var (q, r) := ReadOnce(parts, p, size, serves);
            && q.part <= |parts| && q.closed == p.closed && BytesOf(r) + Remaining(parts, q) == Remaining(parts, p)
            && |BytesOf(r)| <= size && (r.EndOfFile? ==> Remaining(parts, p) == []) &&
               (r.Data? && size > 0 ==> r.bytes != [])
  {
    FillKeeps(parts, p, serves);
    var (q, ok) := Fill(parts, p, serves);
    var n := Min(size, |q.current|);
    assert q.current[..n] + q.current[n..] == q.current;
    assert q.current[..n] + (q.current[n..] + JoinFrom(parts, q.part)) == q.current + JoinFrom(parts, q.part);
  }

  // ----- Any sequence of calls -----

  datatype Call = ReadCall(size: nat, serves: nat -> bool) | CloseCall

  function After(parts: seq<seq<Byte>>, p: Position, calls: seq<Call>, k: nat): Position
    requires p.part <= |parts| && k <= |calls|
    ensures After(parts, p, calls, k).part <= |parts|
  {
    if k == 0 then p
    else
      var q := After(parts, p, calls, k - 1);
      match calls[k - 1]
      case ReadCall(size, serves) => ReadDelivers(parts, q, size, serves); ReadOnce(parts, q, size, serves).0
      case CloseCall => CloseOnce(q)
  }

  /** What call number `k` returns. */
  function Returned(parts: seq<seq<Byte>>, p: Position, calls: seq<Call>, k: nat): Result
    requires p.part <= |parts| && k < |calls| && calls[k].ReadCall?
  {
    ReadOnce(parts, After(parts, p, calls, k), calls[k].size, calls[k].serves).1
  }

  function Output(parts: seq<seq<Byte>>, p: Position, calls: seq<Call>, k: nat): seq<Byte>
    requires p.part <= |parts| && k <= |calls|
  {
    if k == 0 then []
    else Output(parts, p, calls, k - 1) + if calls[k - 1].ReadCall? then BytesOf(Returned(parts, p, calls, k - 1))
      else []
  }

  ghost predicate Accounts(whole: seq<Byte>, out: seq<Byte>, rest: seq<Byte>, closed: bool) {
    out <= whole && (!closed ==> out + rest == whole)
  }

  lemma AccountsMore(whole: seq<Byte>, out: seq<Byte>, bytes: seq<Byte>, rest: seq<Byte>, closed: bool)
    requires Accounts(whole, out, bytes + rest, closed) && (closed ==> bytes == [])
    ensures Accounts(whole, out + bytes, rest, closed)
  {
    assert out + (bytes + rest) == out + bytes + rest;
    assert out + [] == out;
  }

  lemma AccountsRead(parts: seq<seq<Byte>>, whole: seq<Byte>, out: seq<Byte>, p: Position, size: nat,
      serves: nat -> bool)
    requires p.part <= |parts| && Accounts(whole, out, Remaining(parts, p), p.closed)
    ensures var (q, r) := ReadOnce(parts, p, size, serves);
            q.part <= |parts| && Accounts(whole, out + BytesOf(r), Remaining(parts, q), q.closed)
  {
    ReadDelivers(parts, p, size, serves);
    var (q, r) := ReadOnce(parts, p, size, serves);
    AccountsMore(whole, out, BytesOf(r), Remaining(parts, q), p.closed);
  }

  lemma {:induction false} OutputAccounts(parts: seq<seq<Byte>>, calls: seq<Call>, k: nat)
    requires k <= |calls|
    ensures var p := Position(0, [], false); var q := After(parts, p, calls, k);
            Accounts(Join(parts, |parts|), Output(parts, p, calls, k), Remaining(parts, q), q.closed)
  {
    var p := Position(0, [], false);
    if k == 0 {
      JoinBoth(parts, 0);
    } else {
      OutputAccounts(parts, calls, k - 1);
      var q := After(parts, p, calls, k - 1);
      if calls[k - 1].ReadCall? {
        AccountsRead(parts, Join(parts, |parts|), Output(parts, p, calls, k - 1), q, calls[k - 1].size,
          calls[k - 1].serves);
      } else {
        assert Output(parts, p, calls, k) == Output(parts, p, calls, k - 1);
      }
    }
  }

  /** Whatever calls are made, the bytes returned are a prefix of the joined parts, and the end of
      file is returned only after all of them. */
  lemma ReadsArePrefix(parts: seq<seq<Byte>>, calls: seq<Call>, k: nat)
    requires k <= |calls|
    ensures var p := Position(0, [], false);
            && Output(parts, p, calls, k) <= Join(parts, |parts|)
            && (k < |calls| && calls[k].ReadCall? && Returned(parts, p, calls, k).EndOfFile? ==>
               Output(parts, p, calls, k) == Join(parts, |parts|))
  {
    OutputAccounts(parts, calls, k);
    if k < |calls| && calls[k].ReadCall? {
      ReadDelivers(parts, After(parts, Position(0, [], false), calls, k), calls[k].size, calls[k].serves);
    }
  }

  // ----- What a read answers, and that reading comes to an end -----

  ghost predicate NoneEmpty(parts: seq<seq<Byte>>) {
    forall i :: 0 <= i < |parts| ==> parts[i] != []
  }

  /** No part uploaded is empty. */
  lemma UploadedNotEmpty(parts: seq<seq<Byte>>, bytes: nat)
    requires |parts| == PartCount(bytes)
    requires forall i :: 0 <= i < |parts| ==> PartSize(bytes, i) == (|parts[i]|, true)
    ensures NoneEmpty(parts)
  {
    forall i | 0 <= i < |parts| ensures parts[i] != [] { PartBounds(bytes, i); }
  }

  lemma NothingLeftIff(parts: seq<seq<Byte>>, p: Position)
    requires p.part <= |parts| && NoneEmpty(parts)
    ensures Remaining(parts, p) == [] <==> p.current == [] && p.part == |parts|
  { }

  /** A read fails exactly if the reader was closed, or has nothing left over and the download of the
      next part fails; it reports the end exactly if nothing is left; it delivers bytes otherwise. */
  lemma ReadOutcome(parts: seq<seq<Byte>>, p: Position, size: nat, serves: nat -> bool)
    requires p.part <= |parts| && NoneEmpty(parts)
    ensures var r := ReadOnce(parts, p, size, serves).1;
            && (r.ClosedPipe? <==> p.closed)
            && (r.EndOfFile? <==> !p.closed && Remaining(parts, p) == [])
            && (r.DownloadFailed? <==> !p.closed && p.current == [] && p.part < |parts| && !serves(p.part))
  {
    NothingLeftIff(parts, p);
    FillKeeps(parts, p, serves);
    if p.current == [] && p.part < |parts| && serves(p.part) {
      assert parts[p.part] != [];
    }
  }

  /** A reader that is never closed, whose downloads succeed and whose buffers are not empty. */
  ghost predicate Eager(calls: seq<Call>) {
    forall i :: 0 <= i < |calls| ==> calls[i].ReadCall? && calls[i].size > 0 && EverServed(calls[i].serves)
  }

  ghost predicate EverServed(serves: nat -> bool) {
    forall n: nat :: serves(n)
  }

  lemma OpenAfterRead(parts: seq<seq<Byte>>, q: Position, call: Call)
    requires q.part <= |parts| && call.ReadCall? && !q.closed
    ensures !ReadOnce(parts, q, call.size, call.serves).0.closed
  {
    ReadDelivers(parts, q, call.size, call.serves);
  }

  lemma AfterRead(parts: seq<seq<Byte>>, p: Position, calls: seq<Call>, k: nat)
    requires p.part <= |parts| && 0 < k <= |calls| && calls[k - 1].ReadCall?
    ensures After(parts, p, calls, k) ==
            ReadOnce(parts, After(parts, p, calls, k - 1), calls[k - 1].size, calls[k - 1].serves).0
  { }

  lemma {:induction false} StaysOpen(parts: seq<seq<Byte>>, calls: seq<Call>, k: nat)
    requires k <= |calls| && Eager(calls)
    ensures !After(parts, Position(0, [], false), calls, k).closed
  {
    if k > 0 {
      var p := Position(0, [], false);
      assert calls[k - 1].ReadCall?;
      StaysOpen(parts, calls, k - 1);
      OpenAfterRead(parts, After(parts, p, calls, k - 1), calls[k - 1]);
      AfterRead(parts, p, calls, k);
    }
  }

  lemma OneByteAtLeast(parts: seq<seq<Byte>>, calls: seq<Call>, k: nat)
    requires k < |calls| && Eager(calls) && NoneEmpty(parts)
    ensures var p := Position(0, [], false); var q := After(parts, p, calls, k);
            BytesOf(Returned(parts, p, calls, k)) == [] ==> Remaining(parts, q) == []
  {
    var q := After(parts, Position(0, [], false), calls, k);
    assert calls[k].ReadCall? && EverServed(calls[k].serves);
    StaysOpen(parts, calls, k);
    ReadOutcome(parts, q, calls[k].size, calls[k].serves);
    ReadDelivers(parts, q, calls[k].size, calls[k].serves);
  }

  lemma {:induction false} OutputGrows(parts: seq<seq<Byte>>, calls: seq<Call>, k: nat)
    requires k <= |calls| && Eager(calls) && NoneEmpty(parts)
    ensures var out := Output(parts, Position(0, [], false), calls, k);
            |out| >= k || out == Join(parts, |parts|)
  {
    if k > 0 {
      var p := Position(0, [], false);
      OutputGrows(parts, calls, k - 1);
      OneByteAtLeast(parts, calls, k - 1);
      StaysOpen(parts, calls, k - 1);
      OutputAccounts(parts, calls, k - 1);
      ReadsArePrefix(parts, calls, k);
      assert calls[k - 1].ReadCall?;
    }
  }

  /** So after at most as many reads as there are bytes, all of them have been delivered, and the next
      read reports the end. */
  lemma ReadsComplete(parts: seq<seq<Byte>>, calls: seq<Call>, k: nat)
    requires k < |calls| && Eager(calls) && NoneEmpty(parts) && k >= |Join(parts, |parts|)|
    ensures var p := Position(0, [], false);
            Output(parts, p, calls, k) == Join(parts, |parts|) && calls[k].ReadCall? &&
              Returned(parts, p, calls, k) == EndOfFile
  {
    var p := Position(0, [], false);
    OutputGrows(parts, calls, k);
    ReadsArePrefix(parts, calls, k);
    OutputAccounts(parts, calls, k);
    StaysOpen(parts, calls, k);
    assert calls[k].ReadCall?;
    ReadOutcome(parts, After(parts, p, calls, k), calls[k].size, calls[k].serves);
  }

  /** Uploaded in parts and read back by such a caller, the ciphertext comes out whole, and then the end. */
  method UploadAndRead(ciphertext: seq<Byte>) returns (parts: seq<seq<Byte>>)
    ensures forall calls: seq<Call> :: Eager(calls) && |ciphertext| < |calls| ==>
              var p := Position(0, [], false);
              && Output(parts, p, calls, |ciphertext|) == ciphertext && calls[|ciphertext|].ReadCall?
              && Returned(parts, p, calls, |ciphertext|) == EndOfFile
  {
    parts := SplitUpload(ciphertext);
    UploadedNotEmpty(parts, |ciphertext|);
    forall calls: seq<Call> | Eager(calls) && |ciphertext| < |calls|
      ensures var p := Position(0, [], false);
              && Output(parts, p, calls, |ciphertext|) == ciphertext && calls[|ciphertext|].ReadCall?
              && Returned(parts, p, calls, |ciphertext|) == EndOfFile
    {
      ReadsComplete(parts, calls, |ciphertext|);
    }
  }
}
