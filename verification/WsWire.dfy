/** The client's side of the wire: what it reads of the bytes it is sent. */
module WsWire {
  import opened Bytes
  import opened WsFrame
  import opened WsServer
  import opened WsTrace
  import opened WsResults
  import opened WsLimits
  import opened WsConn

  /** The first frame of unmasked bytes, and what follows it (section 5.2 of RFC 6455). */
  function ReadServerFrame(s: seq<byte>): Option<(Frame, seq<byte>)> {
    if |s| < 2 || s[1] >= 128 then None
    else
      var width, tail := ExtendedWidth(s[1]), s[2..];
      if |tail| < width then None
      else
        var length, tail := DeclaredLength(s[1], tail[..width]), tail[width..];
        if |tail| < length then None else Some((FrameOf(s[0], tail[..length]), tail[length..]))
  }

  function ReadServerFrames(s: seq<byte>): seq<Frame>
    decreases |s|
  {
    match ReadServerFrame(s)
    case None => []
    case Some((f, rest)) => if |rest| < |s| then [f] + ReadServerFrames(rest) else []
  }

  /** A client reads the frame the server wrote, up to its end. */
  lemma {:induction false} ServerFrameIsRead(f: Frame, rest: seq<byte>)
    requires f.opcode < 16 && |f.payload| < 0x8000_0000_0000_0000
    ensures ReadServerFrame(Encode(f) + rest) == Some((f, rest))
  {
    var length := LengthIn(|f.payload|, FormOf(|f.payload|));
    var s, extended := Encode(f) + rest, length[1..];
    LengthRoundTrip(|f.payload|, FormOf(|f.payload|));
    HeadRoundTrip(f);
    hide LengthIn, HeadByte, FrameOf, DeclaredLength, ExtendedWidth;
    assert s == [HeadByte(f), length[0]] + (extended + (f.payload + rest));
    assert s[2..] == extended + (f.payload + rest);
    assert s[2..][..|extended|] == extended && s[2..][|extended|..] == f.payload + rest;
    assert (f.payload + rest)[..|f.payload|] == f.payload && (f.payload + rest)[|f.payload|..] == rest;
  }

  /** ... and all frames it wrote, in order. */
  lemma {:induction false} ServerFramesAreRead(fs: seq<Frame>)
    requires Writable(fs)
    ensures ReadServerFrames(EncodeAll(fs)) == fs
  {
    hide ReadServerFrame;
    if fs == [] {
      assert ReadServerFrame([]) == None by { NothingToRead(); }
    } else {
      var rest := EncodeAll(fs[1..]);
      assert EncodeAll(fs) == Encode(fs[0]) + rest && |Encode(fs[0])| > 0;
      hide Encode, EncodeAll;
      ServerFrameIsRead(fs[0], rest);
      ServerFramesAreRead(fs[1..]);
      assert fs == [fs[0]] + fs[1..];
    }
  }

  lemma NothingToRead()
    ensures ReadServerFrame([]) == None
  {
  }

  // ----- everything the loop sends can be read -----

  predicate Sizes(limits: Limits, fs: seq<Frame>) {
    && limits.fragment <= limits.message < 0x8000_0000_0000_0000
    && forall i :: 0 <= i < |fs| ==> |fs[i].payload| < 0x8000_0000_0000_0000
  }

  lemma {:induction false} SentOpcode(limits: Limits, framing: Framing, r: Reception, polls: nat, k: nat)
    requires k < |Conversation(limits, framing, r, polls).sent|
    ensures IsData(Conversation(limits, framing, r, polls).sent[k]) || IsControl(Conversation(limits, framing, r, polls).sent[k])
  {
    hide Conversation, Responses;
    var run := Conversation(limits, framing, r, polls);
    var n := Answered(limits, framing, r, polls);
    SentByConversation(limits, framing, r, polls);
    if k < |Responses(limits, r.frames, n)| {
      ResponsesOpcodes(limits, r.frames, n, k);
    }
  }

  lemma {:induction false} SentIsWritable(limits: Limits, framing: Framing, r: Reception, polls: nat)
    requires Sizes(limits, r.frames)
    ensures Writable(Conversation(limits, framing, r, polls).sent)
  {
    hide Conversation;
    var sent := Conversation(limits, framing, r, polls).sent;
    forall k | 0 <= k < |sent|
      ensures sent[k].opcode < 16 && |sent[k].payload| < 0x8000_0000_0000_0000
    {
      EverythingSentIsLegal(limits, framing, r, polls, k);
      SentOpcode(limits, framing, r, polls, k);
      hide ValidateClose;
    }
  }

  /** A client that reads and reassembles the bytes of a conversation gets the
      messages it has completed. */
  lemma {:induction false} BytesMirrorMessages(limits: Limits, framing: Framing, input: seq<byte>, polls: nat)
    requires Sizes(limits, DecodeAll(input).frames)
    ensures var r := DecodeAll(input); var none := Receiver([], None);
      var wire := EncodeAll(Serve(limits, ECHO_HANDLER, framing, None, input, polls).sent);
      ReceiveAll(none, ReadServerFrames(wire)).messages ==
      ReceiveAll(none, r.frames[..Answered(limits, framing, r, polls)]).messages
  {
    hide Serve, DecodeAll, Conversation, ReceiveAll, EncodeAll, ReadServerFrames, Writable;
    var r := DecodeAll(input);
    ServeIsConversation(limits, framing, input, polls);
    SentIsWritable(limits, framing, r, polls);
    ServerFramesAreRead(Conversation(limits, framing, r, polls).sent);
    EchoesMirrorMessages(limits, framing, r, polls);
  }

  /** WebSocketEcho on an upgraded connection: unless writing fails, a client
      that reads and reassembles what has reached it has exactly the messages
      it completed, in order, byte for byte and with their types. */
  method ServeEcho(conn: Conn, limits: Limits, polls: nat) returns (r: Outcome)
    requires conn.Valid() && conn.wire == [] && limits.fragment <= limits.message
    modifies conn
    ensures var received := DecodeAll(old(conn.input)); var none := Receiver([], None);
      r.Served? && Sizes(limits, received.frames) ==>
        ReceiveAll(none, ReadServerFrames(conn.output)).messages ==
        ReceiveAll(none, received.frames[..Answered(limits, AsWritten, received, polls)]).messages
  {
    ghost var input := conn.input;
    r := ServeLoop(conn, limits, ECHO_HANDLER, polls);
    hide Serve, DecodeAll, ReceiveAll, EncodeAll, ReadServerFrames, Answered;
    ghost var wire := EncodeAll(Serve(limits, ECHO_HANDLER, AsWritten, None, input, polls).sent);
    assert [] + wire == wire;
    if r.Served? && Sizes(limits, DecodeAll(input).frames) {
      assert conn.output == wire;
      BytesMirrorMessages(limits, AsWritten, input, polls);
    }
  }
}
