/** Size limits: what the handler accepts, when the loop as written hangs, and
    that everything sent is itself a legal frame. */
module WsLimits {
  import opened Bytes
  import opened Decimal
  import opened WsFrame
  import opened WsServer
  import opened WsTrace
  import opened WsResults
  import opened WsText
  import Utf8

  // ----- the limits WebSocketEcho accepts -----

  /** A query parameter: absent, or parsed as a 32-bit integer if it is one. */
  datatype Param = Absent | Given(parsed: Option<int>)

  function InRange(p: Param, default: nat, maxBody: nat): Option<nat> {
    match p
    case Absent => Some(default)
    case Given(None) => None
    case Given(Some(v)) => if v < 1 || v > maxBody then None else Some(v)
  }

  /** WebSocketEcho: the limits it serves with, or None for a 400 response. */
  function ChooseLimits(maxBody: nat, fragment: Param, message: Param): Option<Limits> {
    match (InRange(fragment, maxBody / 2, maxBody), InRange(message, maxBody, maxBody))
    case (Some(f), Some(m)) => if f > m then None else Some(Limits(f, m))
    case _ => None
  }

  lemma ChosenLimits(maxBody: nat, fragment: Param, message: Param)
    ensures ChooseLimits(maxBody, fragment, message).Some? ==>
      ChooseLimits(maxBody, fragment, message).value.fragment <=
      ChooseLimits(maxBody, fragment, message).value.message <= maxBody
  {
  }

  // ----- when the loop hangs -----

  lemma {:induction false} EmptyBody(limits: Limits, framing: Framing, fs: seq<Frame>, j: nat, i: nat)
    requires j <= i <= |fs| && limits.fragment == 0
    requires forall k :: j <= k < i ==> Validate(fs[k], 0) == NoReason
    ensures Body(fs, j, i) == []
  {
    if j < i {
      EmptyBody(limits, framing, fs, j, i - 1);
    }
  }

  predicate NeverStuck(limits: Limits, framing: Framing, input: seq<byte>, polls: nat) {
    Serve(limits, ECHO_HANDLER, framing, None, input, polls).ending != Stuck
  }

  lemma StuckNeedsSmallFragments(limits: Limits, framing: Framing, input: seq<byte>, polls: nat)
    requires limits.fragment <= limits.message
    requires framing == Advancing || limits.fragment == 0 || limits.fragment == limits.message
    ensures NeverStuck(limits, framing, input, polls)
  {
    hide Serve, DecodeAll, Responses, ValidateClose;
    var r := DecodeAll(input);
    ServeIsConversation(limits, framing, input, polls);
    var n := FirstFault(limits, framing, r.frames, 0);
    if n < |r.frames| && Fault(limits, framing, r.frames, n) == Some(Stuck) {
      var j := Start(r.frames, n + 1);
      if limits.fragment == 0 {
        forall k | j <= k < n + 1 ensures Validate(r.frames[k], 0) == NoReason {
          assert k < n ==> Fault(limits, framing, r.frames, k).None?;
        }
        EmptyBody(limits, framing, r.frames, j, n + 1);
      }
      assert false;
    }
  }

  function FullThenOne(size: nat): seq<Frame> {
    [DataFrame(false, OP_TEXT, seq(size, i => 0x61)), DataFrame(true, OP_CONTINUATION, [0x61])]
  }

  lemma {:induction false} AsciiIsValid(s: seq<byte>)
    requires forall i :: 0 <= i < |s| ==> s[i] < 0x80
    ensures Utf8.Valid(s)
  {
    if s != [] {
      AsciiIsValid(s[1..]);
    }
  }

  /** A full fragment and one more byte: a legal message that is never answered. */
  lemma FullThenOneIsStuck(limits: Limits, r: Reception)
    requires 1 <= limits.fragment < limits.message && r.frames == FullThenOne(limits.fragment)
    ensures Conversation(limits, AsWritten, r, 2) == Run([], Stuck)
  {
    var fs := r.frames;
    FullThenOneParts(limits, fs);
    hide Fault, Response, FullThenOne;
    assert FirstFault(limits, AsWritten, fs, 1) == 1;
    assert FirstFault(limits, AsWritten, fs, 0) == 1;
    assert Responses(limits, fs, 1) == Responses(limits, fs, 0) + Response(limits, fs, 0) == [];
  }

  lemma {:induction false} FullThenOneParts(limits: Limits, fs: seq<Frame>)
    requires 1 <= limits.fragment < limits.message && fs == FullThenOne(limits.fragment)
    ensures Fault(limits, AsWritten, fs, 0).None? && Response(limits, fs, 0) == []
    ensures Fault(limits, AsWritten, fs, 1) == Some(Stuck)
  {
    AsciiIsValid(fs[0].payload);
    AsciiIsValid(fs[1].payload);
    FullThenOneBody(fs, limits.fragment);
    assert OneMessage(limits, fs, 0, 2);
    NeverOpenAtStart(fs);
    hide OneMessage, Open, Body, Utf8.Valid, Split, Fault;
    FaultInside(limits, AsWritten, fs, 0, 2, 0);
    FaultInside(limits, AsWritten, fs, 0, 2, 1);
  }

  lemma {:induction false} FullThenOneBody(fs: seq<Frame>, size: nat)
    requires fs == FullThenOne(size)
    ensures Body(fs, 0, 2) == fs[0].payload + fs[1].payload
  {
    assert Body(fs, 0, 0) == [];
    assert Body(fs, 0, 1) == [] + fs[0].payload;
  }

  /** The loop as written answers every input if and only if no message can be
      longer than one fragment: the two limits are equal, or both are useless. */
  lemma NeverStuckIff(limits: Limits)
    requires limits.fragment <= limits.message < 0x8000_0000_0000_0000
    ensures (forall input, polls :: NeverStuck(limits, AsWritten, input, polls)) <==>
      (limits.fragment == 0 || limits.fragment == limits.message)
  {
    if limits.fragment == 0 || limits.fragment == limits.message {
      forall input, polls ensures NeverStuck(limits, AsWritten, input, polls) {
        StuckNeedsSmallFragments(limits, AsWritten, input, polls);
      }
    } else {
      var fs := FullThenOne(limits.fragment);
      var cs: seq<ClientFrame> := [ClientFrame(fs[0], [0, 0, 0, 0], Long), ClientFrame(fs[1], [0, 0, 0, 0], Short)];
      assert FramesOf(cs) == fs;
      EchoEndToEnd(limits, AsWritten, cs, 2);
      FullThenOneIsStuck(limits, Reception(fs, EndOfInput));
      assert !NeverStuck(limits, AsWritten, ClientStream(cs), 2);
    }
  }

  /** With the offset advanced the loop answers every input. */
  lemma AdvancingNeverStuck(limits: Limits, input: seq<byte>, polls: nat)
    requires limits.fragment <= limits.message
    ensures NeverStuck(limits, Advancing, input, polls)
  {
    StuckNeedsSmallFragments(limits, Advancing, input, polls);
  }

  lemma SameFaults(limits: Limits, fs: seq<Frame>, i: nat)
    requires i < |fs|
    ensures Fault(limits, AsWritten, fs, i) == Some(Stuck) ||
            Fault(limits, AsWritten, fs, i) == Fault(limits, Advancing, fs, i)
    ensures Fault(limits, Advancing, fs, i).Some? ==> Fault(limits, AsWritten, fs, i).Some?
  {
  }

  lemma {:induction false} ResponsesGrow(limits: Limits, fs: seq<Frame>, m: nat, n: nat)
    requires m <= n <= |fs|
    ensures Responses(limits, fs, m) <= Responses(limits, fs, n)
  {
    hide Response;
    if m < n {
      ResponsesGrow(limits, fs, m, n - 1);
    }
  }

  /** The code sends what the documented split would send, up to the point
      where it hangs, and all of it when it does not. */
  lemma AsWrittenIsDocumented(limits: Limits, r: Reception, polls: nat)
    ensures var written := Conversation(limits, AsWritten, r, polls);
      var documented := Conversation(limits, Advancing, r, polls);
      && (written.ending != Stuck ==> written == documented)
      && written.sent <= documented.sent
  {
    hide Fault, Responses, Response;
    var fs := r.frames;
    var m, n := FirstFault(limits, AsWritten, fs, 0), FirstFault(limits, Advancing, fs, 0);
    if n < |fs| { SameFaults(limits, fs, n); }
    assert m <= n;
    if m < |fs| { SameFaults(limits, fs, m); }
    if m < n && m < polls {
      ResponsesGrow(limits, fs, m, if polls <= n then polls else n);
    }
  }

  // ----- everything sent is a legal frame -----

  predicate Ascii(s: string) { forall i :: 0 <= i < |s| ==> s[i] as int < 0x80 }

  /** Sizes are Go ints, or the sum of two of them. */
  predicate Sized(r: Reason) {
    match r
    case DataTooLong(n, limit) => n < 0x1_0000_0000_0000_0000 && limit < 0x1_0000_0000_0000_0000
    case MessageTooLong(n, limit) => n < 0x1_0000_0000_0000_0000 && limit < 0x1_0000_0000_0000_0000
    case ControlTooLong(n) => n < 0x1_0000_0000_0000_0000
    case CodeOutOfRange(n) => n < 0x1_0000
    case CodeReserved(n) => n < 0x1_0000
    case HandlerError(_) => false
    case _ => true
  }

  lemma {:induction false} PowerOfTen()
    ensures Pow10(20) == 100_000_000_000_000_000_000
  {
    assert Pow10(5) == 100_000;
    assert Pow10(10) == 10_000_000_000;
    assert Pow10(15) == 1_000_000_000_000_000;
  }

  lemma {:induction false} IntLength(n: nat)
    requires n < 0x1_0000_0000_0000_0000
    ensures |Itoa(n)| <= 20 && Ascii(Itoa(n))
  {
    PowerOfTen();
    hide Pow10, Itoa;
    ItoaLength(n, 20);
  }

  predicate Brief(s: string, n: nat) { |s| <= n && Ascii(s) }

  lemma BriefConcat(a: string, m: nat, b: string, n: nat)
    requires Brief(a, m) && Brief(b, n)
    ensures Brief(a + b, m + n)
  {
  }

  lemma {:induction false} FixedTexts(r: Reason)
    requires r.NoReason? || r.ReadFailed? || r.ReservedBits? || r.CloseTooShort? || r.CloseTextInvalid?
          || r.ExpectedContinuation? || r.UnexpectedContinuation? || r.InvalidText?
    ensures Brief(Text(r), 123)
  {
    if r.ReadFailed? {
      ReadTexts(r);
    } else if r.ReservedBits? || r.CloseTooShort? || r.CloseTextInvalid? {
      FrameTexts(r);
    } else {
      MessageTexts(r);
    }
    hide *;
  }

  lemma {:induction false} ReadTexts(r: Reason)
    requires r.ReadFailed?
    ensures Brief(Text(r), 123)
  {
    match r.error {
      case EndOfInput => assert Brief("EOF", 123);
      case UnexpectedEnd => assert Brief("unexpected EOF", 123);
      case Unmasked => assert Brief("received unmasked client frame", 123);
    }
    hide Brief;
  }

  lemma {:induction false} FrameTexts(r: Reason)
    requires r.ReservedBits? || r.CloseTooShort? || r.CloseTextInvalid?
    ensures Brief(Text(r), 123)
  {
    BitsWords();
    ShortWords();
    TextWords();
    hide Brief;
  }

  lemma BitsWords() ensures Brief("frame has unsupported RSV bits set", 123) {}
  lemma ShortWords() ensures Brief("close frame payload must be at least 2 bytes", 123) {}
  lemma TextWords() ensures Brief("close frame payload must be vaid UTF-8", 123) {}

  lemma {:induction false} MessageTexts(r: Reason)
    requires r.NoReason? || r.ExpectedContinuation? || r.UnexpectedContinuation? || r.InvalidText?
    ensures Brief(Text(r), 123)
  {
    match r {
      case ExpectedContinuation => assert Brief("expected continuation frame", 123);
      case UnexpectedContinuation => assert Brief("unexpected continuation frame", 123);
      case InvalidText => assert Brief("invalid UTF-8", 123);
      case NoReason => assert Brief("", 123);
    }
    hide Brief;
  }

  lemma Pieces()
    ensures Brief("frame payload size ", 20) && Brief("message size ", 20) && Brief(" exceeds maximum of ", 20)
    ensures Brief(" bytes", 20) && Brief(" exceeds 125 bytes", 20)
  {
  }

  lemma MorePieces()
    ensures Brief("control frame ", 30) && Brief(" must not be fragmented", 30)
    ensures Brief("close frame status code ", 30) && Brief(" out of range", 30) && Brief(" is reserved", 30)
    ensures Brief("unsupported opcode: ", 30)
  {
  }

  lemma {:induction false} Limit(prefix: string, n: nat, limit: nat)
    requires Brief(prefix, 20) && n < 0x1_0000_0000_0000_0000 && limit < 0x1_0000_0000_0000_0000
    ensures Brief(prefix + Itoa(n) + " exceeds maximum of " + Itoa(limit) + " bytes", 123)
  {
    hide Itoa, Brief;
    Pieces();
    Number(n);
    Number(limit);
    BriefConcat(prefix, 20, Itoa(n), 20);
    BriefConcat(prefix + Itoa(n), 40, " exceeds maximum of ", 20);
    BriefConcat(prefix + Itoa(n) + " exceeds maximum of ", 60, Itoa(limit), 20);
    BriefConcat(prefix + Itoa(n) + " exceeds maximum of " + Itoa(limit), 80, " bytes", 20);
    Longer(prefix + Itoa(n) + " exceeds maximum of " + Itoa(limit) + " bytes", 100);
  }

  lemma {:induction false} Number(n: nat)
    requires n < 0x1_0000_0000_0000_0000
    ensures Brief(Itoa(n), 20)
  {
    IntLength(n);
  }

  lemma Longer(s: string, n: nat)
    requires Brief(s, n) && n <= 123
    ensures Brief(s, 123)
  {
  }

  lemma {:induction false} OneNumber(prefix: string, n: nat, suffix: string)
    requires Brief(prefix, 30) && Brief(suffix, 30) && n < 0x1_0000_0000_0000_0000
    ensures Brief(prefix + Itoa(n) + suffix, 123)
  {
    hide Itoa, Brief;
    Number(n);
    BriefConcat(prefix, 30, Itoa(n), 20);
    BriefConcat(prefix + Itoa(n), 50, suffix, 30);
    Longer(prefix + Itoa(n) + suffix, 80);
  }

  lemma {:induction false} ReasonTexts(r: Reason)
    requires Sized(r)
    ensures Brief(Text(r), 123)
  {
    hide Itoa;
    hide Brief;
    match r {
      case DataTooLong(n, limit) => Pieces(); Limit("frame payload size ", n, limit);
      case MessageTooLong(n, limit) => Pieces(); Limit("message size ", n, limit);
      case ControlTooLong(n) => WidenedPieces(); OneNumber("frame payload size ", n, " exceeds 125 bytes");
      case ControlFragmented(op) => MorePieces(); OneNumber("control frame ", op, " must not be fragmented");
      case CodeOutOfRange(n) => MorePieces(); OneNumber("close frame status code ", n, " out of range");
      case CodeReserved(n) => MorePieces(); OneNumber("close frame status code ", n, " is reserved");
      case UnknownOpcode(op) =>
        MorePieces();
        WidenedPieces();
        OneNumber("unsupported opcode: ", op, "");
        assert "unsupported opcode: " + Itoa(op) + "" == "unsupported opcode: " + Itoa(op);
      case _ => FixedTexts(r);
    }
  }

  lemma WidenedPieces()
    ensures Brief("frame payload size ", 30) && Brief(" exceeds 125 bytes", 30) && Brief("", 30)
  {
  }

  /** A Close frame of the server passes the server's own validation. */
  lemma {:induction false} CloseFrameIsLegal(code: nat, r: Reason, size: nat)
    requires Sized(r) && code in {1000, 1002, 1007, 1009, 1011}
    ensures Validate(CloseFrame(code, r), size) == NoReason
  {
    hide Text, BigEndian, FromBigEndian;
    ReasonTexts(r);
    var payload := CloseFrame(code, r).payload;
    Pow256Values();
    BigEndianRoundTrip(code, 2);
    assert payload[..2] == BigEndian(code, 2) && payload[2..] == TextBytes(Text(r));
    AsciiIsValid(TextBytes(Text(r)));
  }

  lemma FaultIsSized(limits: Limits, framing: Framing, fs: seq<Frame>, i: nat)
    requires i < |fs| && limits.fragment <= limits.message && limits.message < 0x8000_0000_0000_0000
    requires NoFaultBefore(limits, framing, fs, i)
    requires |fs[i].payload| < 0x8000_0000_0000_0000
    ensures Fault(limits, framing, fs, i).Some? && Fault(limits, framing, fs, i).value.Closed? ==>
      var e := Fault(limits, framing, fs, i).value;
      Sized(e.reason) && e.code in {1000, 1002, 1007, 1009, 1011}
  {
    hide Split, Frames, Open, Validate, Utf8.Valid;
    AssembledIsBounded(limits, framing, fs, i);
    OpenAfter(fs, i);
    ValidateIsSized(fs[i], limits.fragment);
  }

  lemma ValidateIsSized(f: Frame, size: nat)
    requires |f.payload| < 0x8000_0000_0000_0000 && size < 0x8000_0000_0000_0000
    ensures Sized(Validate(f, size))
  {
    if |f.payload| >= 2 {
      FromBigEndianRoundTrip(f.payload[..2]);
      Pow256Values();
    }
  }

  lemma ResponseIsLegal(limits: Limits, framing: Framing, fs: seq<Frame>, i: nat, k: nat)
    requires i < |fs| && Fault(limits, framing, fs, i).None? && k < |Response(limits, fs, i)|
    ensures Validate(Response(limits, fs, i)[k], limits.fragment) == NoReason
  {
    hide Split, Open, Body;
    if fs[i].opcode != OP_PING {
      CompletedMessage(limits, framing, fs, i);
      var msg := Assembled(fs, i + 1);
      SplitIsFragmentation(DataOpcode(msg), msg.payload, limits.fragment);
    }
  }

  lemma {:induction false} ResponsesAreLegal(limits: Limits, framing: Framing, fs: seq<Frame>, n: nat, k: nat)
    requires NoFaultBefore(limits, framing, fs, n) && k < |Responses(limits, fs, n)|
    ensures Validate(Responses(limits, fs, n)[k], limits.fragment) == NoReason
  {
    hide Validate, Fault, Response;
    var before := |Responses(limits, fs, n - 1)|;
    if k < before {
      ResponsesAreLegal(limits, framing, fs, n - 1, k);
    } else {
      assert Fault(limits, framing, fs, n - 1).None?;
      ResponseIsLegal(limits, framing, fs, n - 1, k - before);
    }
  }

  /** Whatever the client sends, every frame it gets back passes the checks the
      server applies to its own input. */
  lemma EverythingSentIsLegal(limits: Limits, framing: Framing, r: Reception, polls: nat, k: nat)
    requires limits.fragment <= limits.message < 0x8000_0000_0000_0000
    requires forall i :: 0 <= i < |r.frames| ==> |r.frames[i].payload| < 0x8000_0000_0000_0000
    requires k < |Conversation(limits, framing, r, polls).sent|
    ensures Validate(Conversation(limits, framing, r, polls).sent[k], limits.fragment) == NoReason
  {
    hide Validate, Fault, Responses, CloseFrame;
    var run := Conversation(limits, framing, r, polls);
    var n := Answered(limits, framing, r, polls);
    SentByConversation(limits, framing, r, polls);
    if k < |Responses(limits, r.frames, n)| {
      ResponsesAreLegal(limits, framing, r.frames, n, k);
    } else {
      if n < |r.frames| {
        FaultIsSized(limits, framing, r.frames, n);
      }
      CloseFrameIsLegal(run.ending.code, run.ending.reason, limits.fragment);
    }
  }

  // ----- a departure from the RFC -----

  /** A text message cut inside a character is valid as a whole and refused all
      the same: each fragment has to be valid on its own. */
  lemma CutCharacterIsRefused(limits: Limits, r: Reception)
    requires 1 <= limits.fragment && 2 <= limits.message
    requires r.frames == [DataFrame(false, OP_TEXT, [0xC3]), DataFrame(true, OP_CONTINUATION, [0xA9])]
    ensures Utf8.Valid(Payloads(r.frames))
    ensures Conversation(limits, Advancing, r, 1).ending == Closed(STATUS_UNSUPPORTED_PAYLOAD, InvalidText)
  {
    var fs := r.frames;
    assert Payloads(fs[1..]) == [0xA9] by { assert fs[1..][1..] == []; }
    assert Payloads(fs) == [0xC3, 0xA9];
    assert Utf8.Valid([0xC3, 0xA9][2..]);
    assert Start(fs, 0) == -1 && Start(fs, 1) == 0;
    assert Fault(limits, Advancing, fs, 0) == Some(Closed(STATUS_UNSUPPORTED_PAYLOAD, InvalidText));
  }
}
