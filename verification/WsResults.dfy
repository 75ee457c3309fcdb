/** What the conversation of WsTrace means for the client, on every input. */
module WsResults {
  import opened Bytes
  import opened Decimal
  import opened WsFrame
  import opened WsServer
  import opened WsTrace
  import Utf8

  /** From the client's frames to the server's answers: whatever keys and length
      forms the client chose, the loop holds the conversation on its frames. */
  lemma {:induction false} EchoEndToEnd(limits: Limits, framing: Framing, cs: seq<ClientFrame>, polls: nat)
    requires limits.fragment <= limits.message
    ensures Serve(limits, ECHO_HANDLER, framing, None, ClientStream(cs), polls) ==
      Conversation(limits, framing, Reception(FramesOf(cs), EndOfInput), polls)
  {
    DecodeAllClientStream(cs, []);
    assert ClientStream(cs) + [] == ClientStream(cs) && FramesOf(cs) + [] == FramesOf(cs);
    ServeIsConversation(limits, framing, ClientStream(cs), polls);
  }

  /** How many of the client's frames are answered. */
  function Answered(limits: Limits, framing: Framing, r: Reception, polls: nat): (n: nat)
    ensures n <= |r.frames|
  {
    var n := FirstFault(limits, framing, r.frames, 0);
    if polls <= n then polls else n
  }

  lemma SentByConversation(limits: Limits, framing: Framing, r: Reception, polls: nat)
    ensures var run := Conversation(limits, framing, r, polls);
      run.sent == Responses(limits, r.frames, Answered(limits, framing, r, polls)) + Farewell(run.ending)
  {
  }

  // ----- one Close frame, and last -----

  lemma ResponseOpcodes(limits: Limits, fs: seq<Frame>, i: nat, k: nat)
    requires i < |fs| && k < |Response(limits, fs, i)|
    ensures IsData(Response(limits, fs, i)[k]) || Response(limits, fs, i)[k].opcode == OP_PONG
  {
    if fs[i].opcode != OP_PING {
      var msg := Assembled(fs, i + 1);
      SplitIsFragmentation(DataOpcode(msg), msg.payload, limits.fragment);
    }
  }

  lemma {:induction false} ResponsesOpcodes(limits: Limits, fs: seq<Frame>, n: nat, k: nat)
    requires n <= |fs| && k < |Responses(limits, fs, n)|
    ensures IsData(Responses(limits, fs, n)[k]) || Responses(limits, fs, n)[k].opcode == OP_PONG
  {
    hide Response, IsData;
    var before := |Responses(limits, fs, n - 1)|;
    if k < before {
      ResponsesOpcodes(limits, fs, n - 1, k);
    } else {
      ResponseOpcodes(limits, fs, n - 1, k - before);
    }
  }

  /** A conversation that is closed ends with its only Close frame; one that is
      cancelled or stuck has none. */
  lemma OneCloseFrame(limits: Limits, framing: Framing, r: Reception, polls: nat)
    ensures var run := Conversation(limits, framing, r, polls);
      && (run.ending.Closed? <==> run.sent != [] && run.sent[|run.sent| - 1].opcode == OP_CLOSE)
      && forall k :: 0 <= k < |run.sent| - 1 ==> run.sent[k].opcode != OP_CLOSE
  {
    hide FirstFault, EndAt, Responses;
    var run := Conversation(limits, framing, r, polls);
    var n := Answered(limits, framing, r, polls);
    var answers := Responses(limits, r.frames, n);
    SentByConversation(limits, framing, r, polls);
    forall k | 0 <= k < |answers| ensures answers[k].opcode != OP_CLOSE {
      ResponsesOpcodes(limits, r.frames, n, k);
    }
    assert forall k :: 0 <= k < |answers| ==> run.sent[k] == answers[k];
  }

  // ----- pongs -----

  /** The payloads of the frames with a given opcode, in order. */
  function PayloadsOf(fs: seq<Frame>, opcode: byte): seq<seq<byte>> {
    if fs == [] then []
    else PayloadsOf(fs[..|fs| - 1], opcode) +
         if fs[|fs| - 1].opcode == opcode then [fs[|fs| - 1].payload] else []
  }

  lemma {:induction false} PayloadsOfConcat(a: seq<Frame>, b: seq<Frame>, opcode: byte)
    ensures PayloadsOf(a + b, opcode) == PayloadsOf(a, opcode) + PayloadsOf(b, opcode)
  {
    if b == [] {
      assert a + b == a;
    } else {
      assert (a + b)[..|a + b| - 1] == a + b[..|b| - 1];
      PayloadsOfConcat(a, b[..|b| - 1], opcode);
    }
  }

  lemma {:induction false} NoPayloads(fs: seq<Frame>, opcode: byte)
    requires forall k :: 0 <= k < |fs| ==> fs[k].opcode != opcode
    ensures PayloadsOf(fs, opcode) == []
  {
    if fs != [] {
      NoPayloads(fs[..|fs| - 1], opcode);
    }
  }

  lemma {:induction false} PongsOfResponses(limits: Limits, fs: seq<Frame>, n: nat)
    requires n <= |fs|
    ensures PayloadsOf(Responses(limits, fs, n), OP_PONG) == PayloadsOf(fs[..n], OP_PING)
  {
    hide Response;
    if n > 0 {
      hide PayloadsOf;
      PongsOfResponses(limits, fs, n - 1);
      PayloadsOfConcat(Responses(limits, fs, n - 1), Response(limits, fs, n - 1), OP_PONG);
      PongOfResponse(limits, fs, n - 1);
      PayloadsOfTake(fs, n, OP_PING);
    } else {
      assert fs[..0] == [];
    }
  }

  lemma PayloadsOfTake(fs: seq<Frame>, n: nat, opcode: byte)
    requires 0 < n <= |fs|
    ensures PayloadsOf(fs[..n], opcode) ==
      PayloadsOf(fs[..n - 1], opcode) + if fs[n - 1].opcode == opcode then [fs[n - 1].payload] else []
  {
    assert fs[..n][..n - 1] == fs[..n - 1];
  }

  lemma {:induction false} PongOfResponse(limits: Limits, fs: seq<Frame>, i: nat)
    requires i < |fs|
    ensures PayloadsOf(Response(limits, fs, i), OP_PONG) == if fs[i].opcode == OP_PING then [fs[i].payload] else []
  {
    var answer := Response(limits, fs, i);
    if fs[i].opcode == OP_PING {
      assert answer[..0] == [];
      assert PayloadsOf(answer[..0], OP_PONG) == [];
    } else {
      forall k | 0 <= k < |answer| ensures answer[k].opcode != OP_PONG {
        EchoOpcodes(limits, fs, i, k);
      }
      NoPayloads(answer, OP_PONG);
    }
  }

  lemma EchoOpcodes(limits: Limits, fs: seq<Frame>, i: nat, k: nat)
    requires i < |fs| && fs[i].opcode != OP_PING && k < |Response(limits, fs, i)|
    ensures IsData(Response(limits, fs, i)[k])
  {
    var msg := Assembled(fs, i + 1);
    SplitIsFragmentation(DataOpcode(msg), msg.payload, limits.fragment);
  }

  /** One Pong per answered Ping, in order, with the same payload (section 5.5.3 of RFC 6455). */
  lemma PongsMirrorPings(limits: Limits, framing: Framing, r: Reception, polls: nat)
    ensures PayloadsOf(Conversation(limits, framing, r, polls).sent, OP_PONG) ==
      PayloadsOf(r.frames[..Answered(limits, framing, r, polls)], OP_PING)
  {
    hide FirstFault, EndAt, Responses;
    var run := Conversation(limits, framing, r, polls);
    var n := Answered(limits, framing, r, polls);
    SentByConversation(limits, framing, r, polls);
    PayloadsOfConcat(Responses(limits, r.frames, n), Farewell(run.ending), OP_PONG);
    NoPayloads(Farewell(run.ending), OP_PONG);
    PongsOfResponses(limits, r.frames, n);
  }

  // ----- echoes -----

  /** A receiver of frames: the messages completed so far and the one under way. */
  datatype Receiver = Receiver(messages: seq<Message>, under: Option<Message>)

  function Receive(s: Receiver, f: Frame): Receiver {
    if !IsData(f) || (f.opcode == OP_CONTINUATION && s.under.None?) then s
    else
      var msg := if Begins(f) then Message(f.opcode == OP_BINARY, f.payload)
                 else Message(s.under.value.binary, s.under.value.payload + f.payload);
      if f.fin then Receiver(s.messages + [msg], None) else Receiver(s.messages, Some(msg))
  }

  function ReceiveAll(s: Receiver, fs: seq<Frame>): Receiver {
    if fs == [] then s else Receive(ReceiveAll(s, fs[..|fs| - 1]), fs[|fs| - 1])
  }

  lemma {:induction false} ReceiveConcat(s: Receiver, a: seq<Frame>, b: seq<Frame>)
    ensures ReceiveAll(s, a + b) == ReceiveAll(ReceiveAll(s, a), b)
  {
    if b == [] {
      assert a + b == a;
    } else {
      assert (a + b)[..|a + b| - 1] == a + b[..|b| - 1];
      ReceiveConcat(s, a, b[..|b| - 1]);
    }
  }

  /** A receiver of the split gets the message back. */
  lemma {:induction false} ReceiveSplit(s: Receiver, opcode: byte, payload: seq<byte>, size: nat)
    requires size >= 1 || payload == []
    requires opcode == OP_TEXT || opcode == OP_BINARY || (opcode == OP_CONTINUATION && s.under.Some?)
    ensures ReceiveAll(s, Split(opcode, payload, size)) == Receive(s, DataFrame(true, opcode, payload))
    decreases |payload|
  {
    var fs := Split(opcode, payload, size);
    if |payload| <= size {
      ReceiveOne(s, fs[0]);
    } else {
      var first := DataFrame(false, opcode, payload[..size]);
      ReceiveOne(s, first);
      ReceiveConcat(s, [first], Split(OP_CONTINUATION, payload[size..], size));
      ReceiveSplit(Receive(s, first), OP_CONTINUATION, payload[size..], size);
      assert payload == payload[..size] + payload[size..];
      if opcode == OP_CONTINUATION {
        ConcatAssociative(s.under.value.payload, payload[..size], payload[size..]);
      }
    }
  }

  lemma ReceiveOne(s: Receiver, f: Frame)
    ensures ReceiveAll(s, [f]) == Receive(s, f)
  {
    assert [f][..0] == [];
    assert ReceiveAll(s, [f][..0]) == s;
  }

  /** The messages complete before frame `n`, by the look-back rules. */
  function Delivered(fs: seq<Frame>, n: nat): seq<Message>
    requires n <= |fs|
  {
    if n == 0 then []
    else Delivered(fs, n - 1) +
         if Completes(fs[n - 1]) && Start(fs, n) >= 0 then [Assembled(fs, n)] else []
  }

  predicate NoFaultBefore(limits: Limits, framing: Framing, fs: seq<Frame>, n: nat) {
    n <= |fs| && forall k :: 0 <= k < n ==> Fault(limits, framing, fs, k).None?
  }

  lemma {:induction false} ReceiverOfInput(limits: Limits, framing: Framing, fs: seq<Frame>, n: nat)
    requires NoFaultBefore(limits, framing, fs, n)
    ensures ReceiveAll(Receiver([], None), fs[..n]) == Receiver(Delivered(fs, n), Current(fs, n))
  {
    if n > 0 {
      assert fs[..n][..n - 1] == fs[..n - 1];
      assert Fault(limits, framing, fs, n - 1).None?;
      ReceiverOfInput(limits, framing, fs, n - 1);
      OpenAfter(fs, n - 1);
    }
  }

  /** A completed message without a fault can be framed. */
  lemma CompletedMessage(limits: Limits, framing: Framing, fs: seq<Frame>, i: nat)
    requires i < |fs| && Fault(limits, framing, fs, i).None? && Completes(fs[i])
    ensures Start(fs, i + 1) >= 0
    ensures var msg := Assembled(fs, i + 1);
      && (limits.fragment >= 1 || msg.payload == [])
      && Response(limits, fs, i) == Split(DataOpcode(msg), msg.payload, limits.fragment)
  {
    hide Split, Open, Body;
    OpenAfter(fs, i);
    assert Frames(framing, Assembled(fs, i + 1), limits.fragment).Some?;
  }

  lemma ReceiveResponse(limits: Limits, framing: Framing, fs: seq<Frame>, i: nat, s: Receiver)
    requires i < |fs| && Fault(limits, framing, fs, i).None? && s == Receiver(Delivered(fs, i), None)
    ensures ReceiveAll(s, Response(limits, fs, i)) == Receiver(Delivered(fs, i + 1), None)
  {
    hide Fault, Assembled, Start;
    if Completes(fs[i]) {
      CompletedMessage(limits, framing, fs, i);
      var msg := Assembled(fs, i + 1);
      ReceiveSplit(s, DataOpcode(msg), msg.payload, limits.fragment);
    } else if fs[i].opcode == OP_PING {
      ReceiveOne(s, fs[i].(opcode := OP_PONG));
    }
  }

  lemma {:induction false} ReceiverOfOutput(limits: Limits, framing: Framing, fs: seq<Frame>, n: nat)
    requires NoFaultBefore(limits, framing, fs, n)
    ensures ReceiveAll(Receiver([], None), Responses(limits, fs, n)) == Receiver(Delivered(fs, n), None)
  {
    if n > 0 {
      hide Fault, Response, Delivered, ReceiveAll;
      ReceiverOfOutput(limits, framing, fs, n - 1);
      ReceiveConcat(Receiver([], None), Responses(limits, fs, n - 1), Response(limits, fs, n - 1));
      assert Fault(limits, framing, fs, n - 1).None?;
      ReceiveResponse(limits, framing, fs, n - 1, Receiver(Delivered(fs, n - 1), None));
    } else {
      assert Delivered(fs, 0) == [];
    }
  }

  /** A client that reassembles what the server sends gets exactly the messages
      it completed, in order, byte for byte and with their types (section 5.4). */
  lemma EchoesMirrorMessages(limits: Limits, framing: Framing, r: Reception, polls: nat)
    ensures ReceiveAll(Receiver([], None), Conversation(limits, framing, r, polls).sent).messages ==
      ReceiveAll(Receiver([], None), r.frames[..Answered(limits, framing, r, polls)]).messages
  {
    hide EndAt, Responses, Fault;
    var run := Conversation(limits, framing, r, polls);
    var n := Answered(limits, framing, r, polls);
    SentByConversation(limits, framing, r, polls);
    ReceiverOfInput(limits, framing, r.frames, n);
    ReceiverOfOutput(limits, framing, r.frames, n);
    ReceiveConcat(Receiver([], None), Responses(limits, r.frames, n), Farewell(run.ending));
    if run.ending.Closed? {
      ReceiveOne(Receiver(Delivered(r.frames, n), None), CloseFrame(run.ending.code, run.ending.reason));
    }
  }

  // ----- invariants of the assembled message -----

  /** In every reachable state the message under way respects the limit, and a
      text message is UTF-8 as a whole although only its fragments are checked. */
  lemma {:induction false} AssembledIsBounded(limits: Limits, framing: Framing, fs: seq<Frame>, n: nat)
    requires NoFaultBefore(limits, framing, fs, n)
    ensures Current(fs, n).Some? ==>
      var msg := Current(fs, n).value;
      |msg.payload| <= limits.message && (!msg.binary ==> Utf8.Valid(msg.payload))
    ensures n > 0 && Completes(fs[n - 1]) ==>
      && Start(fs, n) >= 0
      && var msg := Assembled(fs, n);
      |msg.payload| <= limits.message && (!msg.binary ==> Utf8.Valid(msg.payload))
  {
    if n > 0 {
      AssembledIsBounded(limits, framing, fs, n - 1);
      assert Fault(limits, framing, fs, n - 1).None?;
      OpenAfter(fs, n - 1);
      if fs[n - 1].opcode == OP_CONTINUATION && !Assembled(fs, n - 1).binary {
        Utf8.ValidConcat(Assembled(fs, n - 1).payload, fs[n - 1].payload);
      }
    }
  }
}
