/** The echo server of websocket.go: frame validation, response framing and the
    read-dispatch-reply loop. */
module WsServer {
  import opened Bytes
  import opened Decimal
  import opened WsFrame
  import Utf8

  const STATUS_NORMAL_CLOSURE: nat := 1000
  const STATUS_PROTOCOL_ERROR: nat := 1002
  const STATUS_UNSUPPORTED_PAYLOAD: nat := 1007
  const STATUS_TOO_LARGE: nat := 1009
  const STATUS_SERVER_ERROR: nat := 1011

  datatype Message = Message(binary: bool, payload: seq<byte>)

  datatype Limits = Limits(fragment: nat, message: nat)

  /** Why the server closes, or nothing for a normal closure. */
  datatype Reason =
    | NoReason
    | ReadFailed(error: ReadError)
    | ReservedBits
    | DataTooLong(size: nat, limit: nat)
    | ControlTooLong(size: nat)
    | ControlFragmented(opcode: byte)
    | CloseTooShort
    | CodeOutOfRange(code: nat)
    | CodeReserved(code: nat)
    | CloseTextInvalid
    | ExpectedContinuation
    | UnexpectedContinuation
    | InvalidText
    | MessageTooLong(size: nat, limit: nat)
    | UnknownOpcode(opcode: byte)
    | HandlerError(text: string)

  function Text(r: Reason): string {
    match r
    case NoReason => ""
    case ReadFailed(EndOfInput) => "EOF"
    case ReadFailed(UnexpectedEnd) => "unexpected EOF"
    case ReadFailed(Unmasked) => "received unmasked client frame"
    case ReservedBits => "frame has unsupported RSV bits set"
    case DataTooLong(n, limit) => "frame payload size " + Itoa(n) + " exceeds maximum of " + Itoa(limit) + " bytes"
    case ControlTooLong(n) => "frame payload size " + Itoa(n) + " exceeds 125 bytes"
    case ControlFragmented(op) => "control frame " + Itoa(op) + " must not be fragmented"
    case CloseTooShort => "close frame payload must be at least 2 bytes"
    case CodeOutOfRange(code) => "close frame status code " + Itoa(code) + " out of range"
    case CodeReserved(code) => "close frame status code " + Itoa(code) + " is reserved"
    case CloseTextInvalid => "close frame payload must be vaid UTF-8"
    case ExpectedContinuation => "expected continuation frame"
    case UnexpectedContinuation => "unexpected continuation frame"
    case InvalidText => "invalid UTF-8"
    case MessageTooLong(n, limit) => "message size " + Itoa(n) + " exceeds maximum of " + Itoa(limit) + " bytes"
    case UnknownOpcode(op) => "unsupported opcode: " + Itoa(op)
    case HandlerError(text) => text
  }

  /** The bytes of an ASCII string. */
  function TextBytes(s: string): (b: seq<byte>)
    ensures |b| == |s|
  {
    seq(|s|, i requires 0 <= i < |s| => s[i] as int % 256)
  }

  function CloseFrame(code: nat, r: Reason): Frame {
    Frame(true, false, false, false, OP_CLOSE, BigEndian(code, 2) + TextBytes(Text(r)))
  }

  // ----- validation -----

  predicate IsData(f: Frame) { f.opcode == OP_CONTINUATION || f.opcode == OP_TEXT || f.opcode == OP_BINARY }

  predicate IsControl(f: Frame) { f.opcode == OP_CLOSE || f.opcode == OP_PING || f.opcode == OP_PONG }

  predicate ReservedCode(code: nat) { code in {1004, 1005, 1006, 1015, 1016, 1100, 2000, 2999} }

  /** validateFrame: the first rule of RFC 6455 that `f` breaks, NoReason when it breaks none. */
  function Validate(f: Frame, maxFragment: nat): Reason {
    if f.rsv1 || f.rsv2 || f.rsv3 then ReservedBits
    else if IsData(f) && |f.payload| > maxFragment then DataTooLong(|f.payload|, maxFragment)
    else if IsControl(f) && |f.payload| > 125 then ControlTooLong(|f.payload|)
    else if IsControl(f) && !f.fin then ControlFragmented(f.opcode)
    else if f.opcode == OP_CLOSE then ValidateClose(f.payload)
    else NoReason
  }

  function ValidateClose(payload: seq<byte>): Reason {
    if |payload| == 0 then NoReason
    else if |payload| == 1 then CloseTooShort
    else
      var code := FromBigEndian(payload[..2]);
      if code < 1000 || code >= 5000 then CodeOutOfRange(code)
      else if ReservedCode(code) then CodeReserved(code)
      else if !Utf8.Valid(payload[2..]) then CloseTextInvalid
      else NoReason
  }

  // ----- splitting a response into frames -----

  function DataOpcode(msg: Message): byte { if msg.binary then OP_BINARY else OP_TEXT }

  function DataFrame(fin: bool, opcode: byte, payload: seq<byte>): Frame {
    Frame(fin, false, false, false, opcode, payload)
  }

  /** The documented split: pieces of at most `size` bytes, continuations after the first. */
  function Split(opcode: byte, payload: seq<byte>, size: nat): (fs: seq<Frame>)
    requires size >= 1 || payload == []
    ensures fs != []
    decreases |payload|
  {
    if |payload| <= size then [DataFrame(true, opcode, payload)]
    else [DataFrame(false, opcode, payload[..size])] + Split(OP_CONTINUATION, payload[size..], size)
  }

  function Payloads(fs: seq<Frame>): seq<byte> {
    if fs == [] then [] else fs[0].payload + Payloads(fs[1..])
  }

  /** The split loses nothing, respects the size, and marks first, middle and
      last frames as RFC 6455 section 5.4 asks. */
  lemma {:induction false} SplitIsFragmentation(opcode: byte, payload: seq<byte>, size: nat)
    requires size >= 1 || payload == []
    ensures var fs := Split(opcode, payload, size);
      && Payloads(fs) == payload
      && fs[0].opcode == opcode
      && (forall i :: 0 < i < |fs| ==> fs[i].opcode == OP_CONTINUATION)
      && (forall i :: 0 <= i < |fs| ==> fs[i].fin == (i == |fs| - 1))
      && (forall i :: 0 <= i < |fs| ==> Validate(fs[i], size) == NoReason || !IsData(fs[i]))
      && (forall i :: 0 <= i < |fs| ==> |fs[i].payload| <= size)
      && (forall i :: 0 <= i < |fs| - 1 ==> |fs[i].payload| == size)
    decreases |payload|
  {
    hide ValidateClose;
    var fs := Split(opcode, payload, size);
    if |payload| > size {
      SplitIsFragmentation(OP_CONTINUATION, payload[size..], size);
      assert fs[1..] == Split(OP_CONTINUATION, payload[size..], size);
      assert payload == payload[..size] + payload[size..];
    } else {
      assert fs[1..] == [];
    }
  }

  function Repeat(f: Frame, n: nat): (fs: seq<Frame>)
    ensures |fs| == n
  {
    seq(n, i => f)
  }

  /** frameResponse as written: `offset` stays 0, so only the first pass can
      reach the end of the payload. The loop is cut off after `rounds` passes;
      `done` tells whether it left by itself. */
  method FrameResponse(msg: Message, size: nat, rounds: nat) returns (done: bool, frames: seq<Frame>)
    ensures done <==> rounds > 0 && |msg.payload| <= size
    ensures done ==> frames == [DataFrame(true, DataOpcode(msg), msg.payload)]
    ensures !done ==> frames == Repeat(DataFrame(false, DataOpcode(msg), Prefix(msg.payload, size)), rounds)
  {
    var fin := false;
    var opcode := if msg.binary then OP_BINARY else OP_TEXT;
    frames := [];
    var offset := 0;
    var dataLen := |msg.payload|;
    done := false;
    var k := 0;
    while k < rounds
      invariant k <= rounds && offset == 0 && !fin && !done
      invariant opcode == DataOpcode(msg)
      invariant k > 0 ==> dataLen > size
      invariant frames == Repeat(DataFrame(false, opcode, Prefix(msg.payload, size)), k)
    {
      if offset > 0 {
        opcode := OP_CONTINUATION;
      }
      var end := offset + size;
      if end >= dataLen {
        fin := true;
        end := dataLen;
      }
      frames := frames + [DataFrame(fin, opcode, msg.payload[offset..end])];
      if fin {
        assert k == 0 && msg.payload[offset..end] == msg.payload;
        done := true;
        return;
      }
      k := k + 1;
    }
  }

  /** frameResponse as documented: the same loop with `offset := end` before
      the next pass. */
  method SplitResponse(msg: Message, size: nat) returns (frames: seq<Frame>)
    requires size >= 1 || msg.payload == []
    ensures frames == Split(DataOpcode(msg), msg.payload, size)
  {
    var fin := false;
    var opcode := DataOpcode(msg);
    frames := [];
    var offset := 0;
    var dataLen := |msg.payload|;
    assert msg.payload[0..] == msg.payload;
    ghost var split := SplitFrom(msg, 0, size);
    assert split == Split(DataOpcode(msg), msg.payload, size);
    hide Split, SplitFrom;
    while !fin
      invariant 0 <= offset <= dataLen && (dataLen > 0 ==> size >= 1)
      invariant if fin then frames == split else frames + SplitFrom(msg, offset, size) == split
      invariant offset == 0 ==> opcode == DataOpcode(msg)
      invariant !fin && offset > 0 ==> offset < dataLen
      decreases !fin, dataLen - offset
    {
      if offset > 0 {
        opcode := OP_CONTINUATION;
      }
      var end := offset + size;
      if end >= dataLen {
        fin := true;
        end := dataLen;
      }
      SplitFromStep(msg, offset, size);
      assert fin ==> msg.payload[offset..end] == msg.payload[offset..];
      ConcatAssociative(frames, [DataFrame(fin, opcode, msg.payload[offset..end])], if fin then [] else SplitFrom(msg, end, size));
      frames := frames + [DataFrame(fin, opcode, msg.payload[offset..end])];
      offset := end;
    }
  }

  /** The frames still to be produced once `offset` bytes have been sent. */
  function SplitFrom(msg: Message, offset: nat, size: nat): seq<Frame>
    requires offset <= |msg.payload| && (size >= 1 || msg.payload == [])
  {
    Split(if offset > 0 then OP_CONTINUATION else DataOpcode(msg), msg.payload[offset..], size)
  }

  /** The same, with the next pass of the loop made explicit. */
  function SplitFromOnce(msg: Message, offset: nat, size: nat): seq<Frame>
    requires offset <= |msg.payload| && (size >= 1 || msg.payload == [])
  {
    var opcode := if offset > 0 then OP_CONTINUATION else DataOpcode(msg);
    if offset + size >= |msg.payload| then [DataFrame(true, opcode, msg.payload[offset..])]
    else [DataFrame(false, opcode, msg.payload[offset..offset + size])] + SplitFrom(msg, offset + size, size)
  }

  lemma SplitFromStep(msg: Message, offset: nat, size: nat)
    requires offset <= |msg.payload| && (size >= 1 || msg.payload == [])
    ensures SplitFrom(msg, offset, size) == SplitFromOnce(msg, offset, size)
  {
    if offset + size < |msg.payload| {
      assert msg.payload[offset..][..size] == msg.payload[offset..offset + size];
      assert msg.payload[offset..][size..] == msg.payload[offset + size..];
    }
  }

  // ----- one pass of the loop -----

  datatype Answer = Reply(msg: Message) | Silence | Failure(text: string)
  type Handler = Message -> Answer

  const ECHO_HANDLER: Handler := (msg: Message) => Reply(msg)

  /** Which frameResponse the loop calls: the code's, or the documented one. */
  datatype Framing = AsWritten | Advancing

  datatype Ending =
    | Cancelled                        // the request context ended
    | Closed(code: nat, reason: Reason)
    | Stuck                            // frameResponse never returns

  datatype Pass = Pass(current: Option<Message>, sent: seq<Frame>, ending: Option<Ending>)

  function Close(current: Option<Message>, code: nat, r: Reason): Pass {
    Pass(current, [CloseFrame(code, r)], Some(Closed(code, r)))
  }

  /** What the loop does with one frame it has read. */
  function Step(limits: Limits, handler: Handler, framing: Framing, current: Option<Message>, f: Frame): Pass {
    var problem := Validate(f, limits.fragment);
    if problem != NoReason then Close(current, STATUS_PROTOCOL_ERROR, problem)
    else if f.opcode == OP_BINARY || f.opcode == OP_TEXT then
      if current.Some? then Close(current, STATUS_PROTOCOL_ERROR, ExpectedContinuation)
      else if f.opcode == OP_TEXT && !Utf8.Valid(f.payload) then Close(current, STATUS_UNSUPPORTED_PAYLOAD, InvalidText)
      else Deliver(limits, handler, framing, Message(f.opcode == OP_BINARY, f.payload), f.fin)
    else if f.opcode == OP_CONTINUATION then
      if current.None? then Close(current, STATUS_PROTOCOL_ERROR, UnexpectedContinuation)
      else if !current.value.binary && !Utf8.Valid(f.payload) then Close(current, STATUS_UNSUPPORTED_PAYLOAD, InvalidText)
      else
        var msg := Message(current.value.binary, current.value.payload + f.payload);
        if |msg.payload| > limits.message then
          Close(Some(msg), STATUS_TOO_LARGE, MessageTooLong(|msg.payload|, limits.message))
        else Deliver(limits, handler, framing, msg, f.fin)
    else if f.opcode == OP_CLOSE then Close(current, STATUS_NORMAL_CLOSURE, NoReason)
    else if f.opcode == OP_PING then Pass(current, [f.(opcode := OP_PONG)], None)
    else if f.opcode == OP_PONG then Pass(current, [], None)
    else Close(current, STATUS_PROTOCOL_ERROR, UnknownOpcode(f.opcode))
  }

  function Deliver(limits: Limits, handler: Handler, framing: Framing, msg: Message, fin: bool): Pass {
    if !fin then Pass(Some(msg), [], None)
    else match handler(msg)
      case Failure(text) => Close(Some(msg), STATUS_SERVER_ERROR, HandlerError(text))
      case Silence => Pass(Some(msg), [], None)
      case Reply(r) =>
        match Frames(framing, r, limits.fragment)
        case Some(fs) => Pass(None, fs, None)
        case None => Pass(Some(msg), [], Some(Stuck))
  }

  /** The frames of a response, or None when the framing loop runs forever. */
  function Frames(framing: Framing, msg: Message, size: nat): Option<seq<Frame>> {
    if |msg.payload| <= size then Some([DataFrame(true, DataOpcode(msg), msg.payload)])
    else if framing.AsWritten? || size == 0 then None
    else Some(Split(DataOpcode(msg), msg.payload, size))
  }

  // ----- the whole loop -----

  datatype Run = Run(sent: seq<Frame>, ending: Ending)

  /** The loop on an input, with the context alive for the first `polls` checks. */
  function Serve(limits: Limits, handler: Handler, framing: Framing,
                 current: Option<Message>, input: seq<byte>, polls: nat): Run
    decreases |input|, 0
  {
    if polls == 0 then Run([], Cancelled)
    else match Decode(input)
      case Failed(e) => Run([CloseFrame(STATUS_SERVER_ERROR, ReadFailed(e))], Closed(STATUS_SERVER_ERROR, ReadFailed(e)))
      case Got(f, rest) =>
        var p := Step(limits, handler, framing, current, f);
        var r := Continue(limits, handler, framing, p, rest, polls - 1);
        Run(p.sent + r.sent, r.ending)
  }

  /** What follows a pass of the loop. */
  function Continue(limits: Limits, handler: Handler, framing: Framing, p: Pass, input: seq<byte>, polls: nat): Run
    decreases |input|, 1
  {
    if p.ending.Some? then Run([], p.ending.value)
    else Serve(limits, handler, framing, p.current, input, polls)
  }
}
