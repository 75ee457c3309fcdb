/** The connection and the methods that read from it and write to it. */
module WsConn {
  import opened Bytes
  import opened WsFrame
  import opened WsServer
  import Utf8

  /** Both directions of a hijacked connection. `input` is what the peer has
      sent and the server has not read; `output` is what has reached the peer,
      which stops growing after `capacity` bytes, when writing fails. `wire`
      is everything the server has tried to write. */
  class Conn {
    var input: seq<byte>
    var output: seq<byte>
    const capacity: nat
    ghost var wire: seq<byte>

    ghost predicate Valid()
      reads this
    {
      output == Prefix(wire, capacity)
    }

    constructor (input: seq<byte>, capacity: nat)
      ensures Valid() && this.input == input && this.capacity == capacity
      ensures wire == output == []
    {
      this.input, this.capacity := input, capacity;
      output, wire := [], [];
    }

    /** io.ReadFull: `n` bytes, or the error for a stream that ends too early. */
    method ReadFull(n: nat) returns (data: seq<byte>, error: Option<ReadError>)
      modifies this`input
      ensures if n <= |old(input)| then error == None && data == old(input)[..n] && input == old(input)[n..]
              else error == Some(ShortRead(old(input))) && data == []
    {
      if n <= |input| {
        data, error, input := input[..n], None, input[n..];
      } else {
        data, error := [], Some(ShortRead(input));
      }
    }

    method Write(data: seq<byte>) returns (ok: bool)
      requires Valid() && |wire| <= capacity
      modifies this`output, this`wire
      ensures Valid() && wire == old(wire) + data
      ensures ok == (|wire| <= capacity)
    {
      PrefixConcat(wire, data, capacity);
      ok := |data| <= capacity - |output|;
      output := output + Prefix(data, capacity - |output|);
      wire := wire + data;
    }

    /** nextFrame, unmasking the payload in place. */
    method NextFrame() returns (r: Option<Frame>, error: ReadError)
      modifies this`input
      ensures match Decode(old(input))
        case Got(f, rest) => r == Some(f) && input == rest
        case Failed(e) => r == None && error == e
    {
      hide Mask, FromBigEndian, DeclaredLength;
      error := EndOfInput;
      var bb, e := ReadFull(2);
      if e.Some? {
        return None, e.value;
      }
      var b0, b1 := bb[0], bb[1];
      BitwiseFields(b0, []);
      var fin := b0 as bv8 & 0x80 != 0;
      var rsv1 := b0 as bv8 & 0x40 != 0;
      var rsv2 := b0 as bv8 & 0x20 != 0;
      var rsv3 := b0 as bv8 & 0x10 != 0;
      var opcode := (b0 as bv8 & 0x0F) as byte;
      BitwiseFields(b1, []);
      if b1 as bv8 & 0x80 == 0 {
        return None, Unmasked;
      }
      var length;
      length, e := ReadLength(b1 - 128);
      if e.Some? {
        return None, e.value;
      }
      var payload;
      payload, e := ReadPayload(length);
      if e.Some? {
        return None, e.value;
      }
      r := Some(Frame(fin, rsv1, rsv2, rsv3, opcode, payload));
    }

    method ReadLength(code: nat) returns (length: nat, error: Option<ReadError>)
      requires code < 128
      modifies this`input
      ensures var width := ExtendedWidth(code);
        if |old(input)| < width then error == Some(ShortRead(old(input)))
        else error == None && length == DeclaredLength(code, old(input)[..width]) && input == old(input)[width..]
    {
      length, error := code, None;
      if code >= 126 {
        var extended;
        extended, error := ReadFull(if code == 126 then 2 else 8);
        if error.None? {
          length := FromBigEndian(extended);
        }
      }
    }

    /** Reads the key and the payload and unmasks the payload in place. */
    method ReadPayload(length: nat) returns (payload: seq<byte>, error: Option<ReadError>)
      modifies this`input
      ensures forall head: byte :: DecodePayload(head, length, old(input)) ==
                                   PayloadReading(head, payload, error, input)
    {
      payload := [];
      var key, masked;
      key, error := ReadFull(4);
      if error.Some? {
        return;
      }
      masked, error := ReadFull(length);
      if error.Some? {
        return;
      }
      var buffer := new byte[|masked|](i requires 0 <= i < |masked| => masked[i]);
      assert buffer[..] == masked;
      Unmask(buffer, key);
      payload := buffer[..];
    }

    /** writeFrame: the bytes that fit reach the peer, the rest is an error. */
    method WriteFrame(f: Frame) returns (ok: bool)
      requires Valid() && |wire| <= capacity && f.opcode < 16
      modifies this`output, this`wire
      ensures Valid() && wire == old(wire) + Encode(f)
      ensures ok == (|wire| <= capacity)
    {
      var head := HeadBits(f);
      ok := Write([head]);
      if ok {
        var length := LengthBytes(|f.payload|);
        ok := Write(length);
      }
      if ok {
        ok := Write(f.payload);
      }
      assert Encode(f) == [HeadByte(f)] + (LengthIn(|f.payload|, FormOf(|f.payload|)) + f.payload);
      wire := old(wire) + Encode(f);
    }

    /** writeCloseFrame. */
    method WriteCloseFrame(code: nat, reason: Reason) returns (ok: bool)
      requires Valid() && |wire| <= capacity
      modifies this`output, this`wire
      ensures Valid() && wire == old(wire) + Encode(CloseFrame(code, reason))
      ensures ok == (|wire| <= capacity)
    {
      ok := WriteFrame(CloseFrame(code, reason));
    }
  }

  function PayloadReading(head: byte, payload: seq<byte>, error: Option<ReadError>, rest: seq<byte>): Reading {
    if error.Some? then Failed(error.value) else Got(FrameOf(head, payload), rest)
  }

  /** The first byte of a frame, OR-ed together bit by bit. */
  method HeadBits(f: Frame) returns (head: byte)
    requires f.opcode < 16
    ensures head == HeadByte(f)
  {
    var b1 := BvFlag(f.fin, 0x80) | BvFlag(f.rsv1, 0x40) | BvFlag(f.rsv2, 0x20) | BvFlag(f.rsv3, 0x10) | (f.opcode as bv8);
    BitwiseHead(f);
    BvOfInt(HeadByte(f));
    head := b1 as byte;
  }

  method LengthBytes(n: nat) returns (length: seq<byte>)
    ensures length == LengthIn(n, FormOf(n))
  {
    if n <= 125 {
      length := [n];
    } else if n <= 65535 {
      length := [126] + BigEndian(n, 2);
    } else {
      length := [127] + BigEndian(n, 8);
    }
  }

  /** The unmasking loop of nextFrame. */
  method Unmask(payload: array<byte>, key: seq<byte>)
    requires |key| == 4
    modifies payload
    ensures payload[..] == Mask(old(payload[..]), key)
  {
    for i := 0 to payload.Length
      invariant forall k :: 0 <= k < i ==> payload[k] == Xor(old(payload[k]), key[k % 4])
      invariant forall k :: i <= k < payload.Length ==> payload[k] == old(payload[k])
    {
      payload[i] := Xor(payload[i], key[i % 4]);
    }
  }

  datatype Outcome = Served(ending: Ending) | WriteFailed

  method Finish(conn: Conn, code: nat, reason: Reason) returns (r: Outcome)
    requires conn.Valid() && |conn.wire| <= conn.capacity
    modifies conn`output, conn`wire
    ensures conn.Valid() && conn.wire == old(conn.wire) + Encode(CloseFrame(code, reason))
    ensures r == if |conn.wire| <= conn.capacity then Served(Closed(code, reason)) else WriteFailed
  {
    var ok := conn.WriteCloseFrame(code, reason);
    r := if ok then Served(Closed(code, reason)) else WriteFailed;
  }

  /** The part of the loop that follows reading a frame. */
  method HandleFrame(conn: Conn, limits: Limits, handler: Handler, current: Option<Message>, frame: Frame)
    returns (currentMsg: Option<Message>, stop: Option<Outcome>)
    requires conn.Valid() && |conn.wire| <= conn.capacity
    modifies conn`output, conn`wire
    ensures var p := Step(limits, handler, AsWritten, current, frame);
      && conn.Valid() && conn.wire == old(conn.wire) + EncodeAll(p.sent)
      && stop == (if |conn.wire| > conn.capacity then Some(WriteFailed)
                  else if p.ending.Some? then Some(Served(p.ending.value)) else None)
      && (stop.None? ==> currentMsg == p.current)
  {
    hide EncodeAll, Encode, Validate, CloseFrame;
    EncodeNone();
    currentMsg := current;
    stop := None;
    var close: Option<(nat, Reason)> := None;
    var problem := Validate(frame, limits.fragment);
    if problem != NoReason {
      close := Some((STATUS_PROTOCOL_ERROR, problem));
    } else if frame.opcode == OP_BINARY || frame.opcode == OP_TEXT {
      if currentMsg.Some? {
        close := Some((STATUS_PROTOCOL_ERROR, ExpectedContinuation));
      } else if frame.opcode == OP_TEXT && !Utf8.Valid(frame.payload) {
        close := Some((STATUS_UNSUPPORTED_PAYLOAD, InvalidText));
      } else {
        currentMsg := Some(Message(frame.opcode == OP_BINARY, frame.payload));
      }
    } else if frame.opcode == OP_CONTINUATION {
      if currentMsg.None? {
        close := Some((STATUS_PROTOCOL_ERROR, UnexpectedContinuation));
      } else if !currentMsg.value.binary && !Utf8.Valid(frame.payload) {
        close := Some((STATUS_UNSUPPORTED_PAYLOAD, InvalidText));
      } else {
        var payload := currentMsg.value.payload + frame.payload;
        currentMsg := Some(Message(currentMsg.value.binary, payload));
        if |payload| > limits.message {
          close := Some((STATUS_TOO_LARGE, MessageTooLong(|payload|, limits.message)));
        }
      }
    } else if frame.opcode == OP_CLOSE {
      close := Some((STATUS_NORMAL_CLOSURE, NoReason));
    } else if frame.opcode == OP_PING {
      EncodeOne(frame.(opcode := OP_PONG));
      var ok := conn.WriteFrame(frame.(opcode := OP_PONG));
      return currentMsg, if ok then None else Some(WriteFailed);
    } else if frame.opcode == OP_PONG {
      return;
    } else {
      close := Some((STATUS_PROTOCOL_ERROR, UnknownOpcode(frame.opcode)));
    }
    if close.None? && frame.fin {
      var answer := handler(currentMsg.value);
      match answer {
        case Failure(text) =>
          close := Some((STATUS_SERVER_ERROR, HandlerError(text)));
        case Silence =>
          return;
        case Reply(response) =>
          var done, frames := FrameResponse(response, limits.fragment, 1);
          if !done {
            return currentMsg, Some(Served(Stuck));
          }
          EncodeOne(frames[0]);
          var ok := conn.WriteFrame(frames[0]);
          return None, if ok then None else Some(WriteFailed);
      }
    }
    if close.Some? {
      EncodeOne(CloseFrame(close.value.0, close.value.1));
      var r := Finish(conn, close.value.0, close.value.1);
      stop := Some(r);
    }
  }

  /** What the peer receives of a run, and what the loop returns. */
  ghost predicate Delivered(before: seq<byte>, conn: Conn, run: Run, r: Outcome)
    reads conn
  {
    var wire := before + EncodeAll(run.sent);
    && conn.output == Prefix(wire, conn.capacity)
    && r == if |wire| <= conn.capacity then Served(run.ending) else WriteFailed
  }

  /** serveLoop. A frameResponse that never returns is reported as Stuck, and
      the context stays alive for `polls` checks. */
  method ServeLoop(conn: Conn, limits: Limits, handler: Handler, polls: nat) returns (r: Outcome)
    requires conn.Valid() && |conn.wire| <= conn.capacity
    modifies conn
    ensures Delivered(old(conn.wire), conn, Serve(limits, handler, AsWritten, None, old(conn.input), polls), r)
  {
    hide Step, Decode, EncodeAll, CloseFrame, Encode;
    var currentMsg: Option<Message> := None;
    var left := polls;
    ghost var before := conn.wire;
    ghost var run := Serve(limits, handler, AsWritten, None, conn.input, polls);
    ghost var sent: seq<Frame> := [];
    EncodeNone();
    while left > 0
      invariant conn.Valid() && |conn.wire| <= conn.capacity
      invariant conn.wire == before + EncodeAll(sent)
      invariant var rest := Serve(limits, handler, AsWritten, currentMsg, conn.input, left);
                run == Run(sent + rest.sent, rest.ending)
    {
      left := left - 1;
      ghost var input, current := conn.input, currentMsg;
      var frame, error := conn.NextFrame();
      if frame.None? {
        r := Finish(conn, STATUS_SERVER_ERROR, ReadFailed(error));
        ghost var close := CloseFrame(STATUS_SERVER_ERROR, ReadFailed(error));
        EncodeOne(close);
        WireAfter(before, sent, [close], [], conn.wire);
        return;
      }
      var stop;
      currentMsg, stop := HandleFrame(conn, limits, handler, currentMsg, frame.value);
      ghost var p := Step(limits, handler, AsWritten, current, frame.value);
      ghost var rest := Continue(limits, handler, AsWritten, p, conn.input, left);
      assert Serve(limits, handler, AsWritten, current, input, left + 1) == Run(p.sent + rest.sent, rest.ending);
      WireAfter(before, sent, p.sent, rest.sent, conn.wire);
      if stop.Some? {
        PrefixConcat(conn.wire, EncodeAll(rest.sent), conn.capacity);
        return stop.value;
      }
      sent := sent + p.sent;
    }
    assert sent + [] == sent;
    r := Served(Cancelled);
  }

  /** The wire after one more pass, and what it is a part of. */
  lemma {:induction false} WireAfter(before: seq<byte>, sent: seq<Frame>, more: seq<Frame>, rest: seq<Frame>,
                                     wire: seq<byte>)
    requires wire == (before + EncodeAll(sent)) + EncodeAll(more)
    ensures sent + (more + rest) == (sent + more) + rest
    ensures wire == before + EncodeAll(sent + more)
    ensures before + EncodeAll(sent + (more + rest)) == wire + EncodeAll(rest)
  {
    ConcatAssociative(sent, more, rest);
    EncodeAllConcat(sent, more);
    EncodeAllConcat(sent + more, rest);
    ConcatAssociative(before, EncodeAll(sent), EncodeAll(more));
    ConcatAssociative(before, EncodeAll(sent + more), EncodeAll(rest));
  }

  lemma EncodeNone()
    ensures EncodeAll([]) == []
  {
  }

  lemma EncodeOne(f: Frame)
    ensures EncodeAll([f]) == Encode(f) && [f] + [] == [f]
  {
    assert [f][1..] == [];
  }
}
