// One direction of a pipe, transfer by transfer: writer and reader move whatever
// part of a frame an operation gives them, in any interleaving.
module FrameSteps {
  import opened Commons
  import opened Frames

  // `written` of the frame being written are on the stream or beyond; `taken` is
  // what the reader has of the frame it is in.
  datatype Pipe = Pipe(
    writing: Option<Bytes>, written: nat, writerClosed: bool,
    stream: Bytes,
    taken: Bytes, readerClosed: bool,
    sent: seq<Bytes>, received: seq<Bytes>)

  datatype Step =
    | Begin(data: Bytes)
    | Put(count: nat)
    | Take(count: nat)
    | CloseWriter
    | CloseReader

  const EMPTY := Pipe(None, 0, false, [], [], false, [], [])

  // How many more bytes the reader asks for: the header, then what it announces.
  function Wanted(taken: Bytes): int {
    if |taken| < 4 then 4 - |taken| else 4 + Length(taken[..4]) - |taken|
  }

  predicate GoodLength(header: Bytes)
    requires |header| >= 4
  {
    0 < Length(header[..4]) <= MAX_FRAME
  }

  predicate May(w: Pipe, s: Step) {
    match s
    case Begin(data) => w.writing.None? && !w.writerClosed && Payload(data)
    case Put(count) =>
      && w.writing.Some? && !w.writerClosed && Payload(w.writing.value)
      && 1 <= count <= |Frame(w.writing.value)| - w.written
    case Take(count) => !w.readerClosed && 1 <= count <= Wanted(w.taken) && count <= |w.stream|
    case CloseWriter => true
    case CloseReader => true
  }

  function AfterPut(w: Pipe, count: nat): Pipe
    requires May(w, Put(count))
  {
    var data := w.writing.value;
    var moved := w.(stream := w.stream + Frame(data)[w.written..w.written + count], written := w.written + count);
    if moved.written == |Frame(data)| then moved.(writing := None, written := 0, sent := w.sent + [data]) else moved
  }

  // A header out of bounds closes the reader; a complete frame is handed over.
  function AfterTake(w: Pipe, count: nat): Pipe
    requires May(w, Take(count))
  {
    var taken := w.taken + w.stream[..count];
    var moved := w.(stream := w.stream[count..], taken := taken);
    if |taken| < 4 then moved
    else if !GoodLength(taken) then moved.(readerClosed := true)
    else if Wanted(taken) == 0 then moved.(taken := [], received := w.received + [taken[4..]])
    else moved
  }

  function After(w: Pipe, s: Step): Pipe
    requires May(w, s)
  {
    match s
    case Begin(data) => w.(writing := Some(data), written := 0)
    case Put(count) => AfterPut(w, count)
    case Take(count) => AfterTake(w, count)
    case CloseWriter => w.(writerClosed := true)
    case CloseReader => w.(readerClosed := true)
  }

  predicate Moves(w: Pipe, s: Step, w': Pipe) {
    May(w, s) && w' == After(w, s)
  }

  ghost predicate IsRun(pipes: seq<Pipe>, steps: seq<Step>) {
    && |pipes| == |steps| + 1 && pipes[0] == EMPTY
    && forall i, j :: 0 <= i < |steps| && j == i + 1 ==> Moves(pipes[i], steps[i], pipes[j])
  }

  // ---- The invariant ----

  // What the writer has put out of the frame it is in.
  function Part(w: Pipe): Bytes
    requires w.writing.Some? ==> Payload(w.writing.value) && w.written <= |Frame(w.writing.value)|
  {
    if w.writing.Some? then Frame(w.writing.value)[..w.written] else []
  }

  predicate WithinFrame(taken: Bytes) {
    |taken| < 4 || (GoodLength(taken) && Wanted(taken) > 0)
  }

  // What was written and not yet handed over is what the reader has taken and
  // what is on the stream.
  ghost predicate Inv(w: Pipe) {
    && Payloads(w.sent) && w.received <= w.sent && WithinFrame(w.taken)
    && (w.writing.Some? ==> Payload(w.writing.value) && w.written < |Frame(w.writing.value)|)
    && Encode(w.sent[|w.received|..]) + Part(w) == w.taken + w.stream
  }

  lemma PutKeepsInv(w: Pipe, count: nat)
    requires Inv(w) && May(w, Put(count))
    ensures Inv(AfterPut(w, count))
  {
    hide WithinFrame, Header, Encode;
    var data, rest := w.writing.value, w.sent[|w.received|..];
    var frame := Frame(data);
    var chunk := frame[w.written..w.written + count];
    assert forall p <- rest :: p in w.sent;
    assert Encode(rest) + frame[..w.written] == w.taken + w.stream;
    Longer(Encode(rest), frame, w.written, w.written + count, w.taken, w.stream);
    if w.written + count == |frame| {
      assert frame[..|frame|] == frame;
      assert (w.sent + [data])[|w.received|..] == rest + [data];
      EncodeAppend(rest, data);
      assert Encode(rest + [data]) + [] == Encode(rest + [data]);
    }
  }

  lemma Longer(before: Bytes, frame: Bytes, m: nat, n: nat, taken: Bytes, stream: Bytes)
    requires m <= n <= |frame| && before + frame[..m] == taken + stream
    ensures before + frame[..n] == taken + (stream + frame[m..n])
  {
    assert frame[..n] == frame[..m] + frame[m..n];
    assert before + frame[..n] == (before + frame[..m]) + frame[m..n];
  }

  // The first four bytes out are always a header in bounds.
  lemma HeaderIsGood(rest: seq<Bytes>, part: Bytes, data: Bytes, taken: Bytes, stream: Bytes)
    requires Payloads(rest) && (part == [] || Partial(part, data))
    requires Encode(rest) + part == taken + stream && |taken| >= 4
    ensures GoodLength(taken)
  {
    hide Header;
    var whole := Encode(rest) + part;
    assert taken[..4] == whole[..4];
    if rest == [] {
      assert whole == part;
      assert part[..4] == Frame(data)[..4] == Header(|data|);
      LengthOfHeader(|data|);
    } else {
      assert rest[0] in rest;
      assert whole[..4] == Frame(rest[0])[..4] == Header(|rest[0]|);
      LengthOfHeader(|rest[0]|);
    }
  }

  lemma CompleteFrame(taken: Bytes)
    requires |taken| >= 4 && GoodLength(taken) && Wanted(taken) == 0
    ensures Payload(taken[4..]) && taken == Frame(taken[4..])
  {
    hide Header;
    HeaderOfLength(taken[..4]);
  }

  lemma HandOver(rest: seq<Bytes>, part: Bytes, data: Bytes, p: Bytes, stream: Bytes)
    requires Payloads(rest) && (part == [] || Partial(part, data)) && Payload(p)
    requires Encode(rest) + part == Frame(p) + stream
    ensures rest != [] && rest[0] == p && Encode(rest[1..]) + part == stream
  {
    hide Header, Partial;
    FirstFrameIsFirstPayload(rest, part, data, p, stream);
    assert Encode(rest) + part == Frame(p) + (Encode(rest[1..]) + part);
    FramesAgree(p, p, Encode(rest[1..]) + part, stream);
  }

  lemma TakeKeepsInv(w: Pipe, count: nat)
    requires Inv(w) && May(w, Take(count))
    ensures Inv(AfterTake(w, count))
    ensures AfterTake(w, count).readerClosed == w.readerClosed
  {
    hide Header, Encode;
    var rest, taken, stream := w.sent[|w.received|..], w.taken + w.stream[..count], w.stream[count..];
    var data := if w.writing.Some? then w.writing.value else [];
    assert forall p <- rest :: p in w.sent;
    assert taken + stream == w.taken + w.stream;
    if |taken| >= 4 {
      HeaderIsGood(rest, Part(w), data, taken, stream);
      if |w.taken| >= 4 { assert taken[..4] == w.taken[..4]; }
      if Wanted(taken) == 0 {
        CompleteFrame(taken);
        HandOver(rest, Part(w), data, taken[4..], stream);
        assert w.sent[|w.received| + 1..] == rest[1..];
        assert w.received + [taken[4..]] <= w.sent;
        assert [] + stream == stream;
      }
    }
  }

  lemma {:induction false} RunInv(pipes: seq<Pipe>, steps: seq<Step>, i: nat)
    requires IsRun(pipes, steps) && i < |pipes|
    ensures Inv(pipes[i])
  {
    hide Inv, AfterPut, AfterTake;
    if i == 0 {
      EmptyInv();
    } else {
      var h := i - 1;
      RunInv(pipes, steps, h);
      assert Moves(pipes[h], steps[h], pipes[i]);
      match steps[h]
      case Put(count) => PutKeepsInv(pipes[h], count);
      case Take(count) => TakeKeepsInv(pipes[h], count);
      case _ => OtherKeepsInv(pipes[h], steps[h]);
    }
  }

  lemma EmptyInv()
    ensures Inv(EMPTY)
  {
  }

  lemma OtherKeepsInv(w: Pipe, s: Step)
    requires Inv(w) && May(w, s) && !s.Put? && !s.Take?
    ensures Inv(After(w, s))
  {
    if s.Begin? { assert Frame(s.data)[..0] == []; }
  }

  // ---- What every run keeps ----

  // At every moment, whatever part of a frame either side is in, the payloads
  // handed over are the first ones written, in order.
  lemma ReceivedIsPrefix(pipes: seq<Pipe>, steps: seq<Step>, i: nat)
    requires IsRun(pipes, steps) && i < |pipes|
    ensures pipes[i].received <= pipes[i].sent
  {
    RunInv(pipes, steps, i);
  }

  // The reader's bound on the length never closes a pipe that this writer fills.
  lemma BoundNeverCloses(pipes: seq<Pipe>, steps: seq<Step>, i: nat, j: nat)
    requires IsRun(pipes, steps) && i < |steps| && j == i + 1 && steps[i].Take?
    ensures !pipes[j].readerClosed
  {
    RunInv(pipes, steps, i);
    assert Moves(pipes[i], steps[i], pipes[j]);
    TakeKeepsInv(pipes[i], steps[i].count);
  }

  // Between two frames with an empty stream, nothing is missing: every payload
  // written has been handed over, whole.
  lemma DrainedIsComplete(pipes: seq<Pipe>, steps: seq<Step>, i: nat)
    requires IsRun(pipes, steps) && i < |pipes| && pipes[i].writing.None? && pipes[i].stream == []
    ensures pipes[i].received == pipes[i].sent && pipes[i].taken == []
  {
    hide Header;
    RunInv(pipes, steps, i);
    var w := pipes[i];
    var rest := w.sent[|w.received|..];
    assert Encode(rest) == Encode(rest) + Part(w) == w.taken + w.stream == w.taken;
    if rest != [] {
      assert rest[0] == w.sent[|w.received|] && rest[0] in w.sent;
      assert w.taken[..4] == Header(|rest[0]|);
      LengthOfHeader(|rest[0]|);
    }
  }
}
