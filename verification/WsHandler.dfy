/** Handlers other than the echo handler, and when the loop refuses a message
    for following a completed one. */
module WsHandler {
  import opened Bytes
  import opened WsFrame
  import opened WsServer
  import opened WsTrace
  import Utf8

  // ----- the loop on a list of frames -----

  function ServeFrames(limits: Limits, handler: Handler, framing: Framing, current: Option<Message>,
                       fs: seq<Frame>, error: ReadError, polls: nat): Run
    decreases |fs|
  {
    if polls == 0 then Run([], Cancelled)
    else if fs == [] then Run([CloseFrame(STATUS_SERVER_ERROR, ReadFailed(error))], Closed(STATUS_SERVER_ERROR, ReadFailed(error)))
    else
      var p := Step(limits, handler, framing, current, fs[0]);
      var r := if p.ending.Some? then Run([], p.ending.value)
               else ServeFrames(limits, handler, framing, p.current, fs[1..], error, polls - 1);
      Run(p.sent + r.sent, r.ending)
  }

  lemma {:induction false} ServeIsFrames(limits: Limits, handler: Handler, framing: Framing, current: Option<Message>,
                                         input: seq<byte>, polls: nat)
    ensures Serve(limits, handler, framing, current, input, polls) ==
      ServeFrames(limits, handler, framing, current, DecodeAll(input).frames, DecodeAll(input).error, polls)
    decreases |input|
  {
    hide *;
    if Decode(input).Got? && polls > 0 {
      var f, rest := Decode(input).frame, Decode(input).rest;
      var p := Step(limits, handler, framing, current, f);
      ServeUnfold(limits, handler, framing, current, input, polls);
      DecodeAllStep(input);
      FramesUnfold(limits, handler, framing, current, f, DecodeAll(rest).frames, DecodeAll(rest).error, polls);
      DecodeShrinks(input);
      if p.ending.None? {
        ServeIsFrames(limits, handler, framing, p.current, rest, polls - 1);
      }
    } else {
      NothingServed(limits, handler, framing, current, input, polls);
    }
  }

  lemma DecodeShrinks(s: seq<byte>)
    requires Decode(s).Got?
    ensures |Decode(s).rest| < |s|
  {
  }

  lemma {:induction false} NothingServed(limits: Limits, handler: Handler, framing: Framing, current: Option<Message>,
                                         input: seq<byte>, polls: nat)
    requires Decode(input).Failed? || polls == 0
    ensures Serve(limits, handler, framing, current, input, polls) ==
      ServeFrames(limits, handler, framing, current, DecodeAll(input).frames, DecodeAll(input).error, polls)
  {
    hide Decode, CloseFrame;
  }

  lemma {:induction false} ServeUnfold(limits: Limits, handler: Handler, framing: Framing, current: Option<Message>,
                                       input: seq<byte>, polls: nat)
    requires Decode(input).Got? && polls > 0
    ensures var p := Step(limits, handler, framing, current, Decode(input).frame);
      var r := if p.ending.Some? then Run([], p.ending.value)
               else Serve(limits, handler, framing, p.current, Decode(input).rest, polls - 1);
      Serve(limits, handler, framing, current, input, polls) == Run(p.sent + r.sent, r.ending)
  {
    hide Step, Decode, CloseFrame;
  }

  lemma {:induction false} FramesUnfold(limits: Limits, handler: Handler, framing: Framing, current: Option<Message>,
                                        f: Frame, fs: seq<Frame>, error: ReadError, polls: nat)
    requires polls > 0
    ensures var p := Step(limits, handler, framing, current, f);
      var r := if p.ending.Some? then Run([], p.ending.value)
               else ServeFrames(limits, handler, framing, p.current, fs, error, polls - 1);
      ServeFrames(limits, handler, framing, current, [f] + fs, error, polls) == Run(p.sent + r.sent, r.ending)
  {
    hide Step, CloseFrame;
    assert ([f] + fs)[1..] == fs;
  }

  // ----- messages the loop can deliver -----

  predicate Piece(limits: Limits, binary: bool, piece: seq<byte>) {
    |piece| <= limits.fragment && (binary || Utf8.Valid(piece))
  }

  predicate Pieces(limits: Limits, binary: bool, pieces: seq<seq<byte>>) {
    pieces != [] && forall i :: 0 <= i < |pieces| ==> Piece(limits, binary, pieces[i])
  }

  /** A message a handler can be called with: within the limit, and made of
      fragments within theirs, each of which is valid if it is text. */
  ghost predicate Deliverable(limits: Limits, msg: Message) {
    |msg.payload| <= limits.message
    && exists pieces: seq<seq<byte>> :: Pieces(limits, msg.binary, pieces) && Flatten(pieces) == msg.payload
  }

  lemma {:induction false} OnePiece(limits: Limits, binary: bool, piece: seq<byte>)
    requires Piece(limits, binary, piece) && |piece| <= limits.message
    ensures Deliverable(limits, Message(binary, piece))
  {
    hide Piece;
    assert [piece][1..] == [] && Flatten([piece]) == piece + [];
    assert Pieces(limits, binary, [piece]);
  }

  lemma {:induction false} OneMorePiece(limits: Limits, msg: Message, piece: seq<byte>)
    requires Deliverable(limits, msg) && Piece(limits, msg.binary, piece) && |msg.payload + piece| <= limits.message
    ensures Deliverable(limits, Message(msg.binary, msg.payload + piece))
  {
    hide Piece;
    var pieces: seq<seq<byte>> :| Pieces(limits, msg.binary, pieces) && Flatten(pieces) == msg.payload;
    FlattenConcat(pieces, [piece]);
    assert [piece][1..] == [] && Flatten([piece]) == piece + [];
    assert Pieces(limits, msg.binary, pieces + [piece]);
  }

  // ----- the property -----

  /** Some message begins inside another, which section 5.4 of RFC 6455 forbids. */
  predicate Interleaved(fs: seq<Frame>) { exists i :: 0 <= i < |fs| && Begins(fs[i]) && Open(fs, i) }

  predicate RefusesMessage(e: Ending) { e == Closed(STATUS_PROTOCOL_ERROR, ExpectedContinuation) }

  /** The loop refuses the beginning of a message only when another one really
      is unfinished, and never because one has been completed before. */
  ghost predicate RefusesOnlyInterleaved(limits: Limits, handler: Handler, framing: Framing) {
    forall input, polls :: RefusesMessage(Serve(limits, handler, framing, None, input, polls).ending) ==>
      Interleaved(DecodeAll(input).frames)
  }

  ghost predicate NeverSilent(limits: Limits, handler: Handler) {
    forall msg :: Deliverable(limits, msg) ==> handler(msg) != Silence
  }

  lemma ValidationRefusesNothing(f: Frame, size: nat)
    ensures Validate(f, size) != ExpectedContinuation
  {
  }

  // ----- a handler that is never silent -----

  ghost predicate CurrentDeliverable(limits: Limits, fs: seq<Frame>, i: nat)
    requires i <= |fs|
  {
    Current(fs, i).Some? ==> Deliverable(limits, Current(fs, i).value)
  }

  /** The message a data frame completes or continues can be delivered. */
  lemma {:induction false} AssembledIsDeliverable(limits: Limits, fs: seq<Frame>, i: nat)
    requires i < |fs| && limits.fragment <= limits.message && CurrentDeliverable(limits, fs, i)
    requires Begins(fs[i]) || (fs[i].opcode == OP_CONTINUATION && Open(fs, i))
    requires Piece(limits, Assembled(fs, i + 1).binary, fs[i].payload)
    requires |Assembled(fs, i + 1).payload| <= limits.message
    ensures Deliverable(limits, Assembled(fs, i + 1))
  {
    OpenAfter(fs, i);
    hide Open, Assembled, Deliverable, Piece;
    if Begins(fs[i]) {
      OnePiece(limits, fs[i].opcode == OP_BINARY, fs[i].payload);
    } else {
      OneMorePiece(limits, Current(fs, i).value, fs[i].payload);
    }
  }

  lemma {:induction false} StepKeepsCurrent(limits: Limits, handler: Handler, framing: Framing, fs: seq<Frame>, i: nat)
    requires i < |fs| && limits.fragment <= limits.message && NeverSilent(limits, handler)
    requires !Interleaved(fs) && CurrentDeliverable(limits, fs, i)
    ensures var p := Step(limits, handler, framing, Current(fs, i), fs[i]);
      if p.ending.Some? then !RefusesMessage(p.ending.value)
      else p.current == Current(fs, i + 1) && CurrentDeliverable(limits, fs, i + 1)
  {
    BeginsOutside(fs, i);
    OpenAfter(fs, i);
    hide Open, Assembled, Deliverable, Interleaved, NeverSilent, Piece, Step;
    var f, p := fs[i], Step(limits, handler, framing, Current(fs, i), fs[i]);
    RefusedBeginning(limits, handler, framing, Current(fs, i), f);
    if p.ending.None? {
      NextMessage(limits, handler, framing, Current(fs, i), f);
      if IsData(f) {
        AssembledIsDeliverable(limits, fs, i);
        NotSilent(limits, handler, Assembled(fs, i + 1));
      }
    }
  }

  /** The loop refuses a frame that begins a message while another is stored. */
  lemma {:induction false} RefusedBeginning(limits: Limits, handler: Handler, framing: Framing,
                                            current: Option<Message>, f: Frame)
    ensures var e := Step(limits, handler, framing, current, f).ending;
      e.Some? && RefusesMessage(e.value) ==> Begins(f) && current.Some?
  {
    hide Validate, CloseFrame, Frames, Utf8.Valid;
    ValidationRefusesNothing(f, limits.fragment);
  }

  /** The message stored after a step that does not end the loop. */
  lemma {:induction false} NextMessage(limits: Limits, handler: Handler, framing: Framing, current: Option<Message>,
                                       f: Frame)
    requires Step(limits, handler, framing, current, f).ending.None? && limits.fragment <= limits.message
    ensures var p := Step(limits, handler, framing, current, f);
      if !IsData(f) then p.current == current
      else
        var msg := if Begins(f) then Message(f.opcode == OP_BINARY, f.payload)
                   else if current.Some? then Message(current.value.binary, current.value.payload + f.payload) else Message(true, []);
        && (!Begins(f) ==> current.Some?) && Piece(limits, msg.binary, f.payload) && |msg.payload| <= limits.message
        && p.current == if f.fin && handler(msg) != Silence then None else Some(msg)
  {
    if Validate(f, limits.fragment) == NoReason && IsData(f) {
      ValidFits(f, limits.fragment);
    }
    hide Validate, CloseFrame, Frames, Utf8.Valid;
  }

  lemma BeginsOutside(fs: seq<Frame>, i: nat)
    requires i < |fs| && !Interleaved(fs)
    ensures Begins(fs[i]) ==> !Open(fs, i)
  {
  }

  lemma ValidFits(f: Frame, size: nat)
    requires Validate(f, size) == NoReason && IsData(f)
    ensures |f.payload| <= size
  {
  }

  lemma NotSilent(limits: Limits, handler: Handler, msg: Message)
    requires NeverSilent(limits, handler) && Deliverable(limits, msg)
    ensures handler(msg) != Silence
  {
  }

  lemma {:induction false} NeverRefused(limits: Limits, handler: Handler, framing: Framing, fs: seq<Frame>, i: nat,
                                        error: ReadError, polls: nat)
    requires i <= |fs| && limits.fragment <= limits.message && NeverSilent(limits, handler)
    requires !Interleaved(fs) && CurrentDeliverable(limits, fs, i)
    ensures !RefusesMessage(ServeFrames(limits, handler, framing, Current(fs, i), fs[i..], error, polls).ending)
    decreases |fs| - i
  {
    hide Step, Current, Interleaved, NeverSilent, CurrentDeliverable;
    if i < |fs| && polls > 0 {
      StepKeepsCurrent(limits, handler, framing, fs, i);
      assert fs[i..][1..] == fs[i + 1..];
      if Step(limits, handler, framing, Current(fs, i), fs[i]).ending.None? {
        NeverRefused(limits, handler, framing, fs, i + 1, error, polls - 1);
      }
    }
  }

  // ----- a handler that is silent once -----

  /** The frames of a message in the given pieces. */
  function Fragments(opcode: byte, pieces: seq<seq<byte>>): (fs: seq<Frame>)
    ensures |fs| == |pieces|
  {
    if pieces == [] then []
    else [DataFrame(|pieces| == 1, opcode, pieces[0])] + Fragments(OP_CONTINUATION, pieces[1..])
  }

  lemma {:induction false} FragmentsAt(opcode: byte, pieces: seq<seq<byte>>, k: nat)
    requires k < |pieces|
    ensures Fragments(opcode, pieces)[k] ==
      DataFrame(k == |pieces| - 1, if k == 0 then opcode else OP_CONTINUATION, pieces[k])
  {
    if k > 0 {
      FragmentsAt(OP_CONTINUATION, pieces[1..], k - 1);
    }
  }

  const NEXT: Frame := DataFrame(true, OP_BINARY, [])

  /** The payload once one more piece is stored. */
  function Stored(current: Option<Message>, piece: seq<byte>): seq<byte> {
    if current.None? then piece else current.value.payload + piece
  }

  /** The opcode of the next frame of a message. */
  function NextOpcode(current: Option<Message>, binary: bool): byte {
    if current.Some? then OP_CONTINUATION else if binary then OP_BINARY else OP_TEXT
  }

  /** The payload so far and the pieces to come. */
  function Completed(current: Option<Message>, pieces: seq<seq<byte>>): seq<byte> {
    if current.None? then Flatten(pieces) else current.value.payload + Flatten(pieces)
  }

  lemma {:induction false} CompletedStep(current: Option<Message>, binary: bool, pieces: seq<seq<byte>>)
    requires pieces != []
    ensures var payload := Stored(current, pieces[0]);
      && Completed(current, pieces) == Completed(Some(Message(binary, payload)), pieces[1..])
      && |payload| <= |Completed(current, pieces)|
      && (|pieces| == 1 ==> payload == Completed(current, pieces))
  {
    assert Flatten(pieces) == pieces[0] + Flatten(pieces[1..]);
    hide Flatten;
    if current.Some? {
      ConcatAssociative(current.value.payload, pieces[0], Flatten(pieces[1..]));
    }
    if |pieces| == 1 {
      assert pieces[1..] == [] && Flatten(pieces[1..]) == [] by { NothingFlattened(); }
    }
  }

  lemma NothingFlattened()
    ensures Flatten<byte>([]) == []
  {
  }

  /** One frame of the message: it is stored, or the handler is silent about it. */
  lemma {:induction false} FeedOne(limits: Limits, handler: Handler, framing: Framing, current: Option<Message>,
                                   binary: bool, fin: bool, piece: seq<byte>)
    requires Piece(limits, binary, piece) && (current.Some? ==> current.value.binary == binary)
    requires |Stored(current, piece)| <= limits.message
    requires fin ==> handler(Message(binary, Stored(current, piece))) == Silence
    ensures Step(limits, handler, framing, current, DataFrame(fin, NextOpcode(current, binary), piece)) ==
      Pass(Some(Message(binary, Stored(current, piece))), [], None)
  {
  }

  lemma {:induction false} NextIsRefused(limits: Limits, handler: Handler, framing: Framing, current: Option<Message>,
                                         fs: seq<Frame>, error: ReadError, polls: nat)
    requires current.Some? && fs != [] && fs[0] == NEXT && polls >= 1
    ensures RefusesMessage(ServeFrames(limits, handler, framing, current, fs, error, polls).ending)
  {
  }

  lemma {:induction false} OneStep(limits: Limits, handler: Handler, framing: Framing, current: Option<Message>,
                                   fs: seq<Frame>, error: ReadError, polls: nat)
    requires fs != [] && polls > 0 && Step(limits, handler, framing, current, fs[0]).ending.None?
    ensures ServeFrames(limits, handler, framing, current, fs, error, polls).ending ==
      ServeFrames(limits, handler, framing, Step(limits, handler, framing, current, fs[0]).current, fs[1..], error, polls - 1).ending
  {
    hide Step;
  }

  lemma {:induction false} FragmentsUnfold(limits: Limits, binary: bool, opcode: byte, pieces: seq<seq<byte>>)
    requires Pieces(limits, binary, pieces)
    ensures pieces != [] && Piece(limits, binary, pieces[0])
    ensures var fs, rest := Fragments(opcode, pieces) + [NEXT], Fragments(OP_CONTINUATION, pieces[1..]) + [NEXT];
      && fs != [] && fs[0] == DataFrame(|pieces| == 1, opcode, pieces[0]) && fs[1..] == rest
      && if |pieces| == 1 then rest[0] == NEXT else Pieces(limits, binary, pieces[1..])
  {
    hide Piece;
    var fs, rest := Fragments(opcode, pieces) + [NEXT], Fragments(OP_CONTINUATION, pieces[1..]) + [NEXT];
    assert fs == [DataFrame(|pieces| == 1, opcode, pieces[0])] + rest;
  }

  /** The state of feeding a message: its stored part and the pieces to come. */
  predicate Feeding(limits: Limits, handler: Handler, current: Option<Message>, binary: bool, pieces: seq<seq<byte>>) {
    && (current.Some? ==> current.value.binary == binary)
    && |Completed(current, pieces)| <= limits.message
    && handler(Message(binary, Completed(current, pieces))) == Silence
  }

  lemma {:induction false} FeedFirst(limits: Limits, handler: Handler, framing: Framing, current: Option<Message>,
                                     binary: bool, pieces: seq<seq<byte>>, error: ReadError) returns (next: Option<Message>)
    requires Pieces(limits, binary, pieces) && Feeding(limits, handler, current, binary, pieces)
    ensures next.Some? && NextOpcode(next, binary) == OP_CONTINUATION
    ensures Feeding(limits, handler, next, binary, pieces[1..])
    ensures var fs := Fragments(NextOpcode(current, binary), pieces) + [NEXT];
      var rest := Fragments(OP_CONTINUATION, pieces[1..]) + [NEXT];
      ServeFrames(limits, handler, framing, current, fs, error, |pieces| + 1).ending ==
      ServeFrames(limits, handler, framing, next, rest, error, |pieces|).ending
  {
    next := Some(Message(binary, Stored(current, pieces[0])));
    hide Fragments, Piece, Pieces, Completed, Step, Stored, ServeFrames;
    FragmentsUnfold(limits, binary, NextOpcode(current, binary), pieces);
    CompletedStep(current, binary, pieces);
    FeedOne(limits, handler, framing, current, binary, |pieces| == 1, pieces[0]);
    OneStep(limits, handler, framing, current, Fragments(NextOpcode(current, binary), pieces) + [NEXT], error, |pieces| + 1);
  }

  lemma {:induction false} FeedAll(limits: Limits, handler: Handler, framing: Framing, current: Option<Message>,
                                   binary: bool, pieces: seq<seq<byte>>, error: ReadError)
    requires Pieces(limits, binary, pieces) && Feeding(limits, handler, current, binary, pieces)
    ensures var fs := Fragments(NextOpcode(current, binary), pieces) + [NEXT];
      RefusesMessage(ServeFrames(limits, handler, framing, current, fs, error, |pieces| + 1).ending)
    decreases |pieces|
  {
    hide *;
    FragmentsUnfold(limits, binary, NextOpcode(current, binary), pieces);
    var next := FeedFirst(limits, handler, framing, current, binary, pieces, error);
    if |pieces| == 1 {
      NextIsRefused(limits, handler, framing, next, Fragments(OP_CONTINUATION, pieces[1..]) + [NEXT], error, |pieces|);
    } else {
      FeedAll(limits, handler, framing, next, binary, pieces[1..], error);
    }
  }

  lemma {:induction false} FragmentsNotInterleaved(opcode: byte, pieces: seq<seq<byte>>)
    requires pieces != [] && (opcode == OP_TEXT || opcode == OP_BINARY)
    ensures !Interleaved(Fragments(opcode, pieces) + [NEXT])
  {
    var fs, n := Fragments(opcode, pieces) + [NEXT], |pieces|;
    forall i | 0 <= i < |fs| && Begins(fs[i])
      ensures !Open(fs, i)
    {
      FragmentsAt(opcode, pieces, n - 1);
      if i < n {
        FragmentsAt(opcode, pieces, i);
      } else {
        assert IsData(fs[n - 1]) && fs[n - 1].fin;
      }
    }
  }

  lemma {:induction false} SilenceIsRefused(limits: Limits, handler: Handler, framing: Framing, msg: Message)
    requires limits.fragment < 0x8000_0000_0000_0000
    requires Deliverable(limits, msg) && handler(msg) == Silence
    ensures !RefusesOnlyInterleaved(limits, handler, framing)
  {
    var pieces: seq<seq<byte>> :| Pieces(limits, msg.binary, pieces) && Flatten(pieces) == msg.payload;
    var opcode := if msg.binary then OP_BINARY else OP_TEXT;
    var fs := Fragments(opcode, pieces) + [NEXT];
    CompletedFromNone(pieces);
    DeliverableIsBounded(limits, msg);
    assert Feeding(limits, handler, None, msg.binary, pieces);
    hide Step, Serve, ServeFrames, DecodeAll, Interleaved, RefusesOnlyInterleaved, Completed, Flatten, Pieces, Fragments;
    var cs := Clients(limits, msg.binary, opcode, pieces);
    var input := ClientStream(cs) + [];
    DecodeAllClientStream(cs, []);
    NothingDecoded();
    assert fs + [] == fs;
    FeedAll(limits, handler, framing, None, msg.binary, pieces, EndOfInput);
    FragmentsNotInterleaved(opcode, pieces) by { NonEmptyPieces(limits, msg.binary, pieces); }
    ServeIsFrames(limits, handler, framing, None, input, |pieces| + 1);
    Refutes(limits, handler, framing, input, |pieces| + 1);
  }

  /** A client that sends those frames, with all-zero keys. */
  lemma {:induction false} Clients(limits: Limits, binary: bool, opcode: byte,
                                   pieces: seq<seq<byte>>) returns (cs: seq<ClientFrame>)
    requires limits.fragment < 0x8000_0000_0000_0000 && Pieces(limits, binary, pieces) && opcode < 16
    ensures FramesOf(cs) == Fragments(opcode, pieces) + [NEXT]
  {
    var fs := Fragments(opcode, pieces) + [NEXT];
    forall k | 0 <= k < |fs| ensures fs[k].opcode < 16 && Fits(|fs[k].payload|, Long) {
      if k < |pieces| {
        FragmentsAt(opcode, pieces, k);
        assert Piece(limits, binary, pieces[k]);
      }
    }
    hide Fragments;
    cs := seq(|fs|, k requires 0 <= k < |fs| => SomeClient(fs[k]));
    FramesOfClient(fs, cs);
  }

  lemma NonEmptyPieces(limits: Limits, binary: bool, pieces: seq<seq<byte>>)
    requires Pieces(limits, binary, pieces)
    ensures pieces != []
  {
  }

  function SomeClient(f: Frame): ClientFrame
    requires f.opcode < 16 && Fits(|f.payload|, Long)
  {
    ClientFrame(f, [0, 0, 0, 0], Long)
  }

  lemma FramesOfClient(fs: seq<Frame>, cs: seq<ClientFrame>)
    requires |cs| == |fs| && forall k :: 0 <= k < |fs| ==> cs[k].frame == fs[k]
    ensures FramesOf(cs) == fs
  {
  }

  lemma NothingDecoded()
    ensures DecodeAll([]) == Reception([], EndOfInput)
  {
  }

  lemma CompletedFromNone(pieces: seq<seq<byte>>)
    ensures Completed(None, pieces) == Flatten(pieces)
  {
  }

  lemma DeliverableIsBounded(limits: Limits, msg: Message)
    requires Deliverable(limits, msg)
    ensures |msg.payload| <= limits.message
  {
  }

  lemma Refutes(limits: Limits, handler: Handler, framing: Framing, input: seq<byte>, polls: nat)
    requires RefusesMessage(Serve(limits, handler, framing, None, input, polls).ending)
    requires !Interleaved(DecodeAll(input).frames)
    ensures !RefusesOnlyInterleaved(limits, handler, framing)
  {
  }

  // ----- the exact condition -----

  /** For every handler: no run refuses a message for following a completed one
      if and only if the handler is never silent about a message the loop can
      deliver. */
  lemma {:induction false} RefusesOnlyInterleavedIff(limits: Limits, handler: Handler, framing: Framing)
    requires limits.fragment <= limits.message < 0x8000_0000_0000_0000
    ensures RefusesOnlyInterleaved(limits, handler, framing) <==> NeverSilent(limits, handler)
  {
    if NeverSilent(limits, handler) {
      hide Serve, ServeFrames, DecodeAll, Interleaved, NeverSilent, Deliverable;
      forall input, polls | RefusesMessage(Serve(limits, handler, framing, None, input, polls).ending)
        ensures Interleaved(DecodeAll(input).frames)
      {
        var r := DecodeAll(input);
        ServeIsFrames(limits, handler, framing, None, input, polls);
        assert r.frames[0..] == r.frames && Current(r.frames, 0) == None;
        if !Interleaved(r.frames) {
          NeverRefused(limits, handler, framing, r.frames, 0, r.error, polls);
        }
      }
    } else {
      var msg :| Deliverable(limits, msg) && handler(msg) == Silence;
      SilenceIsRefused(limits, handler, framing, msg);
    }
  }

  /** One step of it: after a completed message that does not end the loop, the
      next one is refused if and only if the handler was silent. */
  lemma SilenceKeepsMessageOpen(limits: Limits, handler: Handler, framing: Framing, f: Frame, g: Frame)
    requires Begins(f) && f.fin && Validate(f, limits.fragment) == NoReason
    requires f.opcode == OP_TEXT ==> Utf8.Valid(f.payload)
    requires Begins(g) && Validate(g, limits.fragment) == NoReason
    ensures var p := Step(limits, handler, framing, None, f); var silent := handler(Message(f.opcode == OP_BINARY, f.payload)) == Silence;
      && (silent ==> p.ending == None && p.sent == [])
      && (p.ending == None ==>
            (Step(limits, handler, framing, p.current, g).ending == Some(Closed(STATUS_PROTOCOL_ERROR, ExpectedContinuation)) <==> silent))
  {
  }
}
