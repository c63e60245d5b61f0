// Length-prefixed frames over a byte pipe whose every operation may move any
// part of what it was given, nothing, or fail.
module Frames {
  import opened Commons

  type Byte = b: int | 0 <= b < 256
  type Bytes = seq<Byte>

  const MAX_FRAME := 65536

  // ---- The format ----

  // Four bytes, most significant first.
  function Header(n: nat): (h: Bytes)
    requires n < 0x1_0000_0000
    ensures |h| == 4
  {
    var high := n / 0x100;
    var higher := high / 0x100;
    [higher / 0x100, higher % 0x100, high % 0x100, n % 0x100]
  }

  function Length(h: Bytes): nat
    requires |h| == 4
  {
    var b0: int, b1: int, b2: int, b3: int := h[0], h[1], h[2], h[3];
    ((b0 * 0x100 + b1) * 0x100 + b2) * 0x100 + b3
  }

  lemma LengthOfHeader(n: nat)
    requires n < 0x1_0000_0000
    ensures Length(Header(n)) == n
  {
  }

  predicate Payload(data: Bytes) {
    0 < |data| <= MAX_FRAME
  }

  predicate Payloads(payloads: seq<Bytes>) {
    forall data <- payloads :: Payload(data)
  }

  function Frame(data: Bytes): (f: Bytes)
    requires Payload(data)
    ensures |f| == |data| + 4
  {
    Header(|data|) + data
  }

  function Encode(payloads: seq<Bytes>): Bytes
    requires Payloads(payloads)
  {
    if payloads == [] then [] else Frame(payloads[0]) + Encode(payloads[1..])
  }

  lemma {:induction false} EncodeAppend(payloads: seq<Bytes>, data: Bytes)
    requires Payloads(payloads) && Payload(data)
    ensures Encode(payloads + [data]) == Encode(payloads) + Frame(data)
  {
    if payloads == [] {
      assert [data][1..] == [];
      assert payloads + [data] == [data];
      assert Encode([data]) == Frame(data) + Encode([]);
    } else {
      EncodeAppend(payloads[1..], data);
      assert (payloads + [data])[1..] == payloads[1..] + [data];
    }
  }

  // A frame announces its own length, so two frames that start one stream agree.
  lemma FramesAgree(a: Bytes, b: Bytes, restA: Bytes, restB: Bytes)
    requires Payload(a) && Payload(b) && Frame(a) + restA == Frame(b) + restB
    ensures a == b && restA == restB
  {
    LengthOfHeader(|a|);
    LengthOfHeader(|b|);
    assert Header(|a|) == (Frame(a) + restA)[..4];
    assert Header(|b|) == (Frame(b) + restB)[..4];
    var n := |a| + 4;
    assert a == (Frame(a) + restA)[4..n];
    assert b == (Frame(b) + restB)[4..n];
    assert restA == (Frame(a) + restA)[n..];
    assert restB == (Frame(b) + restB)[n..];
  }

  // What a writer may leave of its last frame: less than all of it.
  predicate Partial(torn: Bytes, data: Bytes) {
    Payload(data) && |torn| < |Frame(data)| && torn == Frame(data)[..|torn|]
  }

  lemma TornHoldsNoFrame(torn: Bytes, data: Bytes, p: Bytes, rest: Bytes)
    requires Partial(torn, data) && Payload(p)
    ensures torn != Frame(p) + rest
  {
    if torn == Frame(p) + rest {
      assert Frame(data) == torn + Frame(data)[|torn|..];
      assert Frame(data) == Frame(p) + (rest + Frame(data)[|torn|..]);
      FramesAgree(data, p, [], rest + Frame(data)[|torn|..]);
      assert false;
    }
  }

  lemma FirstFrameIsFirstPayload(sent: seq<Bytes>, torn: Bytes, data: Bytes, p: Bytes, rest: Bytes)
    requires Payloads(sent) && Payload(p) && (torn == [] || Partial(torn, data))
    requires Encode(sent) + torn == Frame(p) + rest
    ensures [p] <= sent
  {
    if sent == [] {
      assert Encode(sent) + torn == torn;
      if torn != [] { TornHoldsNoFrame(torn, data, p, rest); }
    } else {
      assert Encode(sent) + torn == Frame(sent[0]) + (Encode(sent[1..]) + torn);
      FramesAgree(sent[0], p, Encode(sent[1..]) + torn, rest);
    }
  }

  // Reading whole frames off a written stream yields, in order, what was written.
  lemma {:induction false} NextFrameIsNextPayload(sent: seq<Bytes>, torn: Bytes, data: Bytes,
                                                  received: seq<Bytes>, p: Bytes, rest: Bytes)
    requires Payloads(sent) && received <= sent && Payload(p) && (torn == [] || Partial(torn, data))
    requires Payloads(received)
    requires Encode(sent) + torn == Encode(received) + (Frame(p) + rest)
    ensures received + [p] <= sent
  {
    hide Header, Partial;
    if received == [] {
      assert Encode(received) + (Frame(p) + rest) == Frame(p) + rest;
      FirstFrameIsFirstPayload(sent, torn, data, p, rest);
    } else {
      var head := Frame(sent[0]);
      assert received[0] == sent[0] && received[1..] <= sent[1..];
      assert Encode(sent) + torn == head + (Encode(sent[1..]) + torn);
      assert Encode(received) + (Frame(p) + rest) == head + (Encode(received[1..]) + (Frame(p) + rest));
      FramesAgree(sent[0], sent[0], Encode(sent[1..]) + torn, Encode(received[1..]) + (Frame(p) + rest));
      NextFrameIsNextPayload(sent[1..], torn, data, received[1..], p, rest);
    }
  }

  // ---- The pipe ----

  // What one operating-system transfer does: an uncertain or failed operation
  // closes the pipe, and so does running out of time between two of them.
  datatype Transfer = Moved(count: int) | Broken

  function Min(a: int, b: int): int { if a <= b then a else b }

  predicate AllMove(plan: seq<Transfer>) {
    forall t <- plan :: t.Moved? && t.count >= 1
  }

  lemma FrontMoves(plan: seq<Transfer>)
    requires plan != []
    ensures AllMove(plan) ==> plan[0].Moved? && plan[0].count >= 1 && AllMove(plan[1..])
  {
    assert plan[0] in plan;
    assert forall t <- plan[1..] :: t in plan;
  }

  // ---- What a read does, as functions ----

  // The bytes one exact read takes off a stream, and what is left of its plan.
  datatype Pulled = Pulled(ok: bool, taken: nat, closed: bool, left: seq<Transfer>)

  // An empty pipe keeps an operation waiting until it times out; a transfer of
  // nothing ends the read without closing the pipe.
  function Pull(stream: Bytes, size: nat, plan: seq<Transfer>, closed: bool): (p: Pulled)
    ensures p.taken <= size && p.taken <= |stream| && (p.ok ==> p.taken == size && p.closed == closed)
    decreases size
  {
    if size == 0 then Pulled(true, 0, closed, plan)
    else if closed then Pulled(false, 0, true, plan)
    else if plan == [] || plan[0].Broken? || stream == [] then Pulled(false, 0, true, plan)
    else
      var count := Min(plan[0].count, Min(|stream|, size));
      if count < 1 then Pulled(false, 0, false, plan[1..])
      else
        var rest := Pull(stream[count..], size - count, plan[1..], false);
        rest.(taken := count + rest.taken)
  }

  lemma PullNothing(stream: Bytes, plan: seq<Transfer>, closed: bool)
    ensures Pull(stream, 0, plan, closed) == Pulled(true, 0, closed, plan)
  {
  }

  // One transfer of an exact read.
  lemma PullOnce(stream: Bytes, size: nat, plan: seq<Transfer>, closed: bool)
    requires size > 0
    ensures closed ==> Pull(stream, size, plan, closed) == Pulled(false, 0, true, plan)
    ensures !closed && (plan == [] || plan[0].Broken? || stream == []) ==>
      Pull(stream, size, plan, closed) == Pulled(false, 0, true, plan)
    ensures !closed && plan != [] && plan[0].Moved? && stream != [] ==>
      var count := Min(plan[0].count, Min(|stream|, size));
      Pull(stream, size, plan, closed) ==
        if count < 1 then Pulled(false, 0, false, plan[1..])
        else
          var rest := Pull(stream[count..], size - count, plan[1..], closed);
          rest.(taken := count + rest.taken)
  {
  }

  // One frame read: what is returned, how much was taken, whether the end is closed.
  datatype Taking = Taking(result: Option<Bytes>, taken: nat, closed: bool)

  function Take(stream: Bytes, plan: seq<Transfer>, closed: bool): (t: Taking)
    ensures t.taken <= |stream|
  {
    var header := Pull(stream, 4, plan, closed);
    if !header.ok then Taking(None, header.taken, header.closed)
    else
      var length, rest := Length(stream[..4]), stream[4..];
      if length == 0 || length > MAX_FRAME then Taking(None, 4, true)
      else
        var body := Pull(rest, length, header.left, closed);
        Taking(if body.ok then Some(rest[..length]) else None, 4 + body.taken, body.closed)
  }

  // After a read that was cut off inside a frame by a transfer of nothing, the
  // next one returns a payload that nobody sent: here the inside of another.
  lemma MisreadAfterEmptyTransfer()
    ensures var stream := Frame([0, 0, 0, 1, 7]);
      var first := Take(stream, [Moved(4), Moved(0)], false);
      && first == Taking(None, 4, false)
      && Take(stream[first.taken..], [Moved(4), Moved(1)], first.closed).result == Some([7])
  {
    hide Length, Pull, Header;
    var stream: Bytes := Frame([0, 0, 0, 1, 7]);
    var inner: Bytes := [0, 0, 0, 1, 7];
    assert stream[..4] == Header(5) && stream[4..] == inner;
    LengthOfHeader(5);
    PullWhole(stream, 4, [Moved(4), Moved(0)]);
    var empty: seq<Transfer> := [Moved(0)];
    PullOnce(inner, 5, empty, false);
    assert [Moved(4), Moved(0)][1..] == empty;
    assert Take(stream, [Moved(4), Moved(0)], false) == Taking(None, 4, false);
    LengthOfHeader(1);
    assert inner[..4] == Header(1) by { HeaderOfOne(); }
    PullWhole(inner, 4, [Moved(4), Moved(1)]);
    var last: Bytes := [7];
    assert inner[4..] == last && last[..1] == last && [Moved(4), Moved(1)][1..] == [Moved(1)];
    PullWhole(last, 1, [Moved(1)]);
    assert Take(inner, [Moved(4), Moved(1)], false).result == Some(last);
  }

  lemma HeaderOfOne()
    ensures Header(1) == [0, 0, 0, 1]
  {
  }

  // One transfer that moves all that was asked for.
  lemma PullWhole(stream: Bytes, size: nat, plan: seq<Transfer>)
    requires size > 0 && plan != [] && plan[0] == Moved(size) && |stream| >= size
    ensures Pull(stream, size, plan, false) == Pulled(true, size, false, plan[1..])
  {
    hide Pull;
    PullOnce(stream, size, plan, false);
    PullNothing(stream[size..], plan[1..], false);
  }

  // Everything written is what was received and what is still on the stream.
  ghost predicate InStep(sent: seq<Bytes>, torn: Bytes, received: seq<Bytes>, stream: Bytes) {
    && Payloads(sent) && Payloads(received) && received <= sent
    && Encode(sent) + torn == Encode(received) + stream
  }

  lemma SendOne(sent: seq<Bytes>, received: seq<Bytes>, stream: Bytes, data: Bytes)
    requires InStep(sent, [], received, stream) && Payload(data)
    ensures InStep(sent + [data], [], received, stream + Frame(data))
  {
    EncodeAppend(sent, data);
    assert Encode(sent) + [] == Encode(sent);
    assert Encode(sent + [data]) + [] == Encode(received) + (stream + Frame(data));
  }

  lemma SendPart(sent: seq<Bytes>, received: seq<Bytes>, stream: Bytes, torn: Bytes)
    requires InStep(sent, [], received, stream)
    ensures InStep(sent, torn, received, stream + torn)
  {
    assert Encode(sent) + [] == Encode(sent);
    assert Encode(sent) + torn == Encode(received) + (stream + torn);
  }

  lemma ReceiveOne(sent: seq<Bytes>, torn: Bytes, tornOf: Bytes, received: seq<Bytes>, stream: Bytes,
                   p: Bytes, rest: Bytes)
    requires InStep(sent, torn, received, stream) && (torn == [] || Partial(torn, tornOf))
    requires Payload(p) && stream == Frame(p) + rest
    ensures InStep(sent, torn, received + [p], rest)
  {
    NextFrameIsNextPayload(sent, torn, tornOf, received, p, rest);
    EncodeAppend(received, p);
    assert Encode(received) + stream == Encode(received + [p]) + rest;
  }

  // One direction of the connection, a writer's end and a reader's end.
  class Channel {
    var stream: Bytes
    var writerClosed: bool
    var readerClosed: bool
    ghost var sent: seq<Bytes>
    ghost var received: seq<Bytes>
    // Part of a frame whose write failed, and of which payload.
    ghost var torn: Bytes
    ghost var tornOf: Bytes
    // A read that returned nothing has taken bytes.
    ghost var lost: bool

    ghost predicate Valid()
      reads this
    {
      && Payloads(sent) && Payloads(received) && received <= sent
      && (torn == [] || (Partial(torn, tornOf) && writerClosed))
      && (lost || InStep(sent, torn, received, stream))
    }

    constructor ()
      ensures Valid() && stream == [] && sent == [] && received == [] && torn == [] && !lost
      ensures !writerClosed && !readerClosed
    {
      stream, writerClosed, readerClosed := [], false, false;
      sent, received, torn, tornOf, lost := [], [], [], [], false;
    }

    // A successful call puts exactly one whole frame on the stream.
    method WriteFrame(data: Bytes, plan: seq<Transfer>) returns (ok: bool)
      requires Valid()
      modifies this`stream, this`writerClosed, this`sent, this`torn, this`tornOf
      ensures Valid()
      ensures ok ==> Payload(data) && sent == old(sent) + [data] && stream == old(stream) + Frame(data)
      ensures !ok ==> sent == old(sent)
      ensures !Payload(data) || old(writerClosed) ==> !ok && stream == old(stream) && writerClosed == old(writerClosed)
      ensures !ok && Payload(data) && !old(writerClosed) ==> writerClosed && stream == old(stream) + torn
      ensures Payload(data) && !old(writerClosed) && AllMove(plan) && |plan| >= |Frame(data)| ==> ok
    {
      if !Payload(data) || writerClosed { return false; }
      var frame := Frame(data);
      var offset, turn := 0, 0;
      while offset < |frame|
        invariant 0 <= offset <= |frame| && 0 <= turn <= |plan|
        invariant stream == old(stream) + frame[..offset]
        invariant sent == old(sent) && torn == [] && !writerClosed
        invariant AllMove(plan) ==> offset >= turn || offset == |frame|
        decreases |frame| - offset
      {
        if turn == |plan| || plan[turn].Broken? || plan[turn].count < 1 {
          assert turn < |plan| ==> plan[turn] in plan;
          writerClosed := true;
          torn, tornOf := frame[..offset], data;
          if !lost { SendPart(sent, received, old(stream), torn); }
          return false;
        }
        var count := Min(plan[turn].count, |frame| - offset);
        stream := stream + frame[offset..offset + count];
        assert frame[..offset + count] == frame[..offset] + frame[offset..offset + count];
        offset, turn := offset + count, turn + 1;
      }
      assert frame[..offset] == frame;
      if !lost { SendOne(sent, received, old(stream), data); }
      sent := sent + [data];
      ok := true;
    }

    // Takes exactly `size` bytes, or gives up having taken fewer.
    method Exact(size: nat, plan: seq<Transfer>) returns (ok: bool, chunks: Bytes, left: seq<Transfer>)
      modifies this`stream, this`readerClosed
      ensures var p := Pull(old(stream), size, plan, old(readerClosed));
        && ok == p.ok && left == p.left && readerClosed == p.closed
        && chunks == old(stream)[..p.taken] && stream == old(stream)[p.taken..]
    {
      hide Pull;
      ghost var before := stream;
      chunks, left := [], plan;
      while |chunks| < size
        invariant |chunks| <= size && |chunks| <= |before| && readerClosed == old(readerClosed)
        invariant chunks == before[..|chunks|] && stream == before[|chunks|..] && (readerClosed ==> chunks == [])
        invariant var rest := Pull(stream, size - |chunks|, left, readerClosed);
          Pull(before, size, plan, old(readerClosed)) == rest.(taken := |chunks| + rest.taken)
        decreases size - |chunks|
      {
        PullOnce(stream, size - |chunks|, left, readerClosed);
        if readerClosed { return false, chunks, left; }
        if left == [] || left[0].Broken? || stream == [] {
          readerClosed := true;
          return false, chunks, left;
        }
        var count := Min(left[0].count, Min(|stream|, size - |chunks|));
        if count < 1 { return false, chunks, left[1..]; }
        assert before[|chunks|..][..count] == before[|chunks|..|chunks| + count];
        chunks, stream, left := chunks + stream[..count], stream[count..], left[1..];
      }
      PullNothing(stream, left, readerClosed);
      ok := true;
    }

    // A returned payload is one whole frame off the front of the stream and,
    // unless an earlier read that returned nothing had taken bytes, the next
    // payload that was sent.
    method ReadFrame(plan: seq<Transfer>) returns (r: Option<Bytes>)
      requires Valid()
      modifies this`stream, this`readerClosed, this`received, this`lost
      ensures Valid() && received <= sent
      ensures var t := Take(old(stream), plan, old(readerClosed));
        && r == t.result && readerClosed == t.closed && stream == old(stream)[t.taken..]
        && lost == (old(lost) || (t.result.None? && t.taken > 0))
      ensures r.Some? ==> Payload(r.value) && old(stream) == Frame(r.value) + stream
      ensures r.Some? && !lost ==> received == old(received) + [r.value]
      ensures r.None? ==> received == old(received)
      ensures |old(stream)| >= 4 && (Length(old(stream)[..4]) == 0 || Length(old(stream)[..4]) > MAX_FRAME) ==> r.None?
    {
      hide InStep, Partial, Pull, Header, Length, Encode, Payloads;
      ghost var before := stream;
      var ok, header, left := Exact(4, plan);
      if !ok {
        lost := lost || header != [];
        return None;
      }
      assert before[..4] == header;
      var length := Length(header);
      if length == 0 || length > MAX_FRAME {
        readerClosed, lost := true, true;
        return None;
      }
      var data;
      ok, data, left := Exact(length, left);
      if !ok {
        lost := true;
        return None;
      }
      HeaderOfLength(header);
      assert before == Frame(data) + stream;
      if !lost {
        ReceiveOne(sent, torn, tornOf, received, before, data, stream);
        received := received + [data];
      }
      r := Some(data);
    }
  }

  // A whole frame is read whenever every operation moves something.
  lemma WholeFrameIsRead(p: Bytes, rest: Bytes, plan: seq<Transfer>)
    requires Payload(p) && AllMove(plan) && |plan| >= |Frame(p)|
    ensures Take(Frame(p) + rest, plan, false) == Taking(Some(p), |Frame(p)|, false)
  {
    hide Header, Length, Pull, AllMove;
    var stream := Frame(p) + rest;
    PullMoves(stream, 4, plan);
    LengthOfHeader(|p|);
    assert stream[..4] == Header(|p|) && stream[4..] == p + rest;
    PullMoves(stream[4..], |p|, Pull(stream, 4, plan, false).left);
    assert stream[4..][..|p|] == p;
  }

  lemma {:induction false} PullMoves(stream: Bytes, size: nat, plan: seq<Transfer>)
    requires AllMove(plan) && |plan| >= size && |stream| >= size
    ensures var p := Pull(stream, size, plan, false);
      p.ok && p.taken == size && !p.closed && AllMove(p.left) && |p.left| >= |plan| - size
    decreases size
  {
    if size > 0 {
      FrontMoves(plan);
      var count := Min(plan[0].count, Min(|stream|, size));
      PullMoves(stream[count..], size - count, plan[1..]);
    }
  }

  lemma HeaderOfLength(h: Bytes)
    requires |h| == 4
    ensures Length(h) < 0x1_0000_0000 && Header(Length(h)) == h
  {
    var b0: int, b1: int, b2: int, b3: int := h[0], h[1], h[2], h[3];
    var higher := b0 * 0x100 + b1;
    var high := higher * 0x100 + b2;
    ByteOff(high, b3);
    ByteOff(higher, b2);
    ByteOff(b0, b1);
  }

  lemma ByteOff(n: nat, b: Byte)
    ensures (n * 0x100 + b) / 0x100 == n && (n * 0x100 + b) % 0x100 == b
  {
  }
}
