/** What RFC 6455 sections 5.4 and 5.5 say an echo server sends, defined by
    looking back over the frames received, and the proof that the loop sends it. */
module WsTrace {
  import opened Bytes
  import opened WsFrame
  import opened WsServer
  import Utf8

  predicate Begins(f: Frame) { f.opcode == OP_TEXT || f.opcode == OP_BINARY }

  /** The last frame before position `i` that begins a message, -1 if there is none. */
  function Start(fs: seq<Frame>, i: nat): (j: int)
    requires i <= |fs|
    ensures -1 <= j < i && (j >= 0 ==> Begins(fs[j]))
    ensures forall k :: j < k < i ==> !Begins(fs[k])
  {
    if i == 0 then -1 else if Begins(fs[i - 1]) then i - 1 else Start(fs, i - 1)
  }

  /** Position `i` lies inside a fragmented message: one has begun and none of
      its frames so far is final. Control frames do not matter. */
  predicate Open(fs: seq<Frame>, i: nat)
    requires i <= |fs|
  {
    var j := Start(fs, i);
    j >= 0 && forall k :: j <= k < i && IsData(fs[k]) ==> !fs[k].fin
  }

  /** The payloads of the data frames from `j` up to `i`, one after the other. */
  function Body(fs: seq<Frame>, j: nat, i: nat): seq<byte>
    requires j <= i <= |fs|
  {
    if j == i then [] else Body(fs, j, i - 1) + if IsData(fs[i - 1]) then fs[i - 1].payload else []
  }

  /** The message being received before position `i`; its first frame gives the type. */
  function Assembled(fs: seq<Frame>, i: nat): Message
    requires i <= |fs| && Start(fs, i) >= 0
  {
    Message(fs[Start(fs, i)].opcode == OP_BINARY, Body(fs, Start(fs, i), i))
  }

  /** Why the conversation ends at frame `i`, if it does. */
  function Fault(limits: Limits, framing: Framing, fs: seq<Frame>, i: nat): Option<Ending>
    requires i < |fs|
  {
    var f := fs[i];
    var problem := Validate(f, limits.fragment);
    if problem != NoReason then Some(Closed(STATUS_PROTOCOL_ERROR, problem))
    else if f.opcode == OP_CLOSE then Some(Closed(STATUS_NORMAL_CLOSURE, NoReason))
    else if f.opcode == OP_PING || f.opcode == OP_PONG then None
    else if !IsData(f) then Some(Closed(STATUS_PROTOCOL_ERROR, UnknownOpcode(f.opcode)))
    else if Begins(f) && Open(fs, i) then Some(Closed(STATUS_PROTOCOL_ERROR, ExpectedContinuation))
    else if !Begins(f) && !Open(fs, i) then Some(Closed(STATUS_PROTOCOL_ERROR, UnexpectedContinuation))
    else
      var msg := Assembled(fs, i + 1);
      if !msg.binary && !Utf8.Valid(f.payload) then Some(Closed(STATUS_UNSUPPORTED_PAYLOAD, InvalidText))
      else if |msg.payload| > limits.message then
        Some(Closed(STATUS_TOO_LARGE, MessageTooLong(|msg.payload|, limits.message)))
      else if f.fin && Frames(framing, msg, limits.fragment).None? then Some(Stuck)
      else None
  }

  /** The first frame that ends the conversation, |fs| if none does. */
  function FirstFault(limits: Limits, framing: Framing, fs: seq<Frame>, i: nat): (n: nat)
    requires i <= |fs|
    ensures i <= n <= |fs|
    ensures n < |fs| ==> Fault(limits, framing, fs, n).Some?
    ensures forall k :: i <= k < n ==> Fault(limits, framing, fs, k).None?
    decreases |fs| - i
  {
    if i == |fs| || Fault(limits, framing, fs, i).Some? then i else FirstFault(limits, framing, fs, i + 1)
  }

  /** A message is complete at a final data frame. */
  predicate Completes(f: Frame) { IsData(f) && f.fin }

  /** What frame `i` is answered with: a pong, an echo, or nothing. */
  function Response(limits: Limits, fs: seq<Frame>, i: nat): seq<Frame>
    requires i < |fs|
  {
    if fs[i].opcode == OP_PING then [fs[i].(opcode := OP_PONG)]
    else if Completes(fs[i]) && Start(fs, i + 1) >= 0 then EchoOf(limits, Assembled(fs, i + 1))
    else []
  }

  function EchoOf(limits: Limits, msg: Message): seq<Frame> {
    if limits.fragment == 0 && msg.payload != [] then [] else Split(DataOpcode(msg), msg.payload, limits.fragment)
  }

  function Responses(limits: Limits, fs: seq<Frame>, n: nat): seq<Frame>
    requires n <= |fs|
  {
    if n == 0 then [] else Responses(limits, fs, n - 1) + Response(limits, fs, n - 1)
  }

  function Farewell(e: Ending): seq<Frame> {
    match e
    case Closed(code, reason) => [CloseFrame(code, reason)]
    case _ => []
  }

  /** The whole conversation on the frames `r`, the context being checked alive `polls` times. */
  function Conversation(limits: Limits, framing: Framing, r: Reception, polls: nat): Run {
    var n := FirstFault(limits, framing, r.frames, 0);
    if polls <= n then Run(Responses(limits, r.frames, polls), Cancelled)
    else
      var e := EndAt(limits, framing, r, n);
      Run(Responses(limits, r.frames, n) + Farewell(e), e)
  }

  function EndAt(limits: Limits, framing: Framing, r: Reception, n: nat): Ending
    requires n <= |r.frames| && (n < |r.frames| ==> Fault(limits, framing, r.frames, n).Some?)
  {
    if n == |r.frames| then Closed(STATUS_SERVER_ERROR, ReadFailed(r.error))
    else Fault(limits, framing, r.frames, n).value
  }

  // ----- the loop holds exactly this conversation -----

  /** What currentMsg is after the first `i` frames. */
  function Current(fs: seq<Frame>, i: nat): Option<Message>
    requires i <= |fs|
  {
    if Open(fs, i) then Some(Assembled(fs, i)) else None
  }

  lemma OpenAfter(fs: seq<Frame>, i: nat)
    requires i < |fs|
    ensures !IsData(fs[i]) ==> Current(fs, i + 1) == Current(fs, i)
    ensures Begins(fs[i]) ==> Assembled(fs, i + 1) == Message(fs[i].opcode == OP_BINARY, fs[i].payload)
    ensures fs[i].opcode == OP_CONTINUATION && Open(fs, i) ==>
      && Start(fs, i + 1) >= 0
      && Assembled(fs, i + 1) == Message(Assembled(fs, i).binary, Assembled(fs, i).payload + fs[i].payload)
    ensures Begins(fs[i]) || (fs[i].opcode == OP_CONTINUATION && Open(fs, i)) ==>
      Open(fs, i + 1) == !fs[i].fin
  {
    var j := Start(fs, i + 1);
    if Begins(fs[i]) {
      assert Body(fs, i, i + 1) == Body(fs, i, i) + fs[i].payload;
    } else {
      assert j == Start(fs, i);
      assert j >= 0 && !IsData(fs[i]) ==> Body(fs, j, i + 1) == Body(fs, j, i);
    }
    assert IsData(fs[i]) && fs[i].fin && j >= 0 ==> !Open(fs, i + 1);
  }

  lemma EchoIsFraming(limits: Limits, framing: Framing, msg: Message)
    ensures Frames(framing, msg, limits.fragment).Some? ==>
      Frames(framing, msg, limits.fragment).value == EchoOf(limits, msg)
  {
  }

  /** One pass of the loop does what the look-back rules say. */
  lemma StepIsResponse(limits: Limits, framing: Framing, fs: seq<Frame>, i: nat)
    requires i < |fs| && limits.fragment <= limits.message
    ensures var p := Step(limits, ECHO_HANDLER, framing, Current(fs, i), fs[i]);
      match Fault(limits, framing, fs, i)
      case Some(e) => p.ending == Some(e) && p.sent == Farewell(e)
      case None => p == Pass(Current(fs, i + 1), Response(limits, fs, i), None)
  {
    hide Split, ValidateClose, Start, CloseFrame, Open, Body;
    OpenAfter(fs, i);
    if IsData(fs[i]) && (Begins(fs[i]) || Open(fs, i)) {
      EchoIsFraming(limits, framing, Assembled(fs, i + 1));
    }
  }

  /** The conversation from frame `i` on. */
  function From(limits: Limits, framing: Framing, r: Reception, i: nat, polls: nat): Run
    requires i <= |r.frames|
    decreases |r.frames| - i
  {
    if polls == 0 then Run([], Cancelled)
    else if i == |r.frames| || Fault(limits, framing, r.frames, i).Some? then
      var e := EndAt(limits, framing, r, i);
      Run(Farewell(e), e)
    else
      var rest := From(limits, framing, r, i + 1, polls - 1);
      Run(Response(limits, r.frames, i) + rest.sent, rest.ending)
  }

  lemma {:induction false} ServeOnce(limits: Limits, framing: Framing, fs: seq<Frame>, i: nat, input: seq<byte>, polls: nat)
    requires i < |fs| && limits.fragment <= limits.message && polls > 0
    requires Decode(input).Got? && Decode(input).frame == fs[i]
    ensures var run := Serve(limits, ECHO_HANDLER, framing, Current(fs, i), input, polls);
      match Fault(limits, framing, fs, i)
      case Some(e) => run == Run(Farewell(e), e)
      case None =>
        var rest := Serve(limits, ECHO_HANDLER, framing, Current(fs, i + 1), Decode(input).rest, polls - 1);
        run == Run(Response(limits, fs, i) + rest.sent, rest.ending)
  {
    StepIsResponse(limits, framing, fs, i);
    var p := Step(limits, ECHO_HANDLER, framing, Current(fs, i), fs[i]);
    assert p.sent + [] == p.sent;
  }

  lemma {:induction false} ServeFrom(limits: Limits, framing: Framing, r: Reception, i: nat, input: seq<byte>, polls: nat)
    requires limits.fragment <= limits.message
    requires i <= |r.frames| && DecodeAll(input) == Reception(r.frames[i..], r.error)
    ensures Serve(limits, ECHO_HANDLER, framing, Current(r.frames, i), input, polls) == From(limits, framing, r, i, polls)
    decreases |r.frames| - i
  {
    hide Fault, Response, Open, Assembled, Decode, CloseFrame;
    if polls == 0 {
    } else if Decode(input).Failed? {
      assert i == |r.frames|;
    } else {
      hide Serve, DecodeAll;
      var rest := Decode(input).rest;
      DecodeAllStep(input);
      assert r.frames[i] == r.frames[i..][0];
      assert r.frames[i + 1..] == r.frames[i..][1..];
      assert DecodeAll(rest).frames == ([Decode(input).frame] + DecodeAll(rest).frames)[1..];
      ServeOnce(limits, framing, r.frames, i, input, polls);
      if Fault(limits, framing, r.frames, i).None? {
        ServeFrom(limits, framing, r, i + 1, rest, polls - 1);
      }
    }
  }

  lemma {:induction false} FromInClosedForm(limits: Limits, framing: Framing, r: Reception, n: nat, i: nat, polls: nat)
    requires i <= n == FirstFault(limits, framing, r.frames, 0)
    ensures var rest := From(limits, framing, r, i, polls); var sent := Responses(limits, r.frames, i) + rest.sent;
      var e := EndAt(limits, framing, r, n);
      Run(sent, rest.ending) ==
        if i + polls <= n then Run(Responses(limits, r.frames, i + polls), Cancelled)
        else Run(Responses(limits, r.frames, n) + Farewell(e), e)
    decreases n - i
  {
    hide Fault, Response, FirstFault, EndAt, Farewell;
    var before := Responses(limits, r.frames, i);
    if polls == 0 {
      assert before + [] == before;
    } else if i < n {
      FromInClosedForm(limits, framing, r, n, i + 1, polls - 1);
      ConcatAssociative(before, Response(limits, r.frames, i), From(limits, framing, r, i + 1, polls - 1).sent);
      assert Responses(limits, r.frames, i + 1) == before + Response(limits, r.frames, i);
    }
  }

  /** Main result: on every input, what the loop sends and how it ends is the
      conversation the RFC describes for the frames on that input. */
  lemma {:induction false} ServeIsConversation(limits: Limits, framing: Framing, input: seq<byte>, polls: nat)
    requires limits.fragment <= limits.message
    ensures Serve(limits, ECHO_HANDLER, framing, None, input, polls) == Conversation(limits, framing, DecodeAll(input), polls)
  {
    hide Fault, Response, Serve, DecodeAll, Assembled;
    var r := DecodeAll(input);
    assert r.frames[0..] == r.frames;
    ServeFrom(limits, framing, r, 0, input, polls);
    var n := FirstFault(limits, framing, r.frames, 0);
    FromInClosedForm(limits, framing, r, n, 0, polls);
    assert [] + From(limits, framing, r, 0, polls).sent == From(limits, framing, r, 0, polls).sent;
  }
}
