/** Which messages are accepted, and when a text message is echoed. */
module WsText {
  import opened Bytes
  import opened WsFrame
  import opened WsServer
  import opened WsTrace
  import opened WsResults
  import Utf8

  /** Frames j to n are one whole message, legal but perhaps for its text:
      fragments within the limits, control frames anywhere in between. */
  predicate OneMessage(limits: Limits, fs: seq<Frame>, j: nat, n: nat) {
    && j < n <= |fs| && Begins(fs[j]) && IsData(fs[n - 1])
    && (forall i :: j <= i < n ==> Validate(fs[i], limits.fragment) == NoReason && Harmless(fs[i]))
    && (forall i :: j < i < n ==> !Begins(fs[i]))
    && (forall i :: j <= i < n && IsData(fs[i]) ==> fs[i].fin == (i == n - 1))
    && |Body(fs, j, n)| <= limits.message
  }

  predicate Harmless(f: Frame) { IsData(f) || f.opcode == OP_PING || f.opcode == OP_PONG }

  lemma {:induction false} BodyGrows(fs: seq<Frame>, j: nat, i: nat, n: nat)
    requires j <= i <= n <= |fs|
    ensures Body(fs, j, i) <= Body(fs, j, n)
  {
    if i < n {
      BodyGrows(fs, j, i, n - 1);
    }
  }

  lemma {:induction false} StartInside(limits: Limits, fs: seq<Frame>, j: nat, n: nat, i: nat)
    requires OneMessage(limits, fs, j, n) && j <= i < n
    ensures Start(fs, i + 1) == j
    ensures i > j ==> Open(fs, i)
  {
    if i > j {
      StartInside(limits, fs, j, n, i - 1);
      assert !Begins(fs[i]);
    }
  }

  /** What can be wrong with a frame of such a message: its text, or a frame
      length that keeps the echo from being sent. */
  lemma {:induction false} FaultInside(limits: Limits, framing: Framing, fs: seq<Frame>, j: nat, n: nat, i: nat)
    requires OneMessage(limits, fs, j, n) && !Open(fs, j) && j <= i < n
    ensures var msg := Message(fs[j].opcode == OP_BINARY, Body(fs, j, n));
      Fault(limits, framing, fs, i) ==
        if !IsData(fs[i]) then None
        else if !msg.binary && !Utf8.Valid(fs[i].payload) then Some(Closed(STATUS_UNSUPPORTED_PAYLOAD, InvalidText))
        else if i == n - 1 && Frames(framing, msg, limits.fragment).None? then Some(Stuck)
        else None
  {
    StartInside(limits, fs, j, n, i);
    BodyGrows(fs, j, i + 1, n);
    assert Harmless(fs[i]) && Validate(fs[i], limits.fragment) == NoReason;
    hide Validate, Start, Open, Body, Utf8.Valid, Frames;
  }

  predicate Framed(limits: Limits, framing: Framing, fs: seq<Frame>, j: nat, n: nat)
    requires j <= n <= |fs|
  {
    Frames(framing, Message(false, Body(fs, j, n)), limits.fragment).Some?
  }

  predicate PiecesValid(fs: seq<Frame>, j: nat, n: nat)
    requires j <= n <= |fs|
  {
    forall i :: j <= i < n && IsData(fs[i]) ==> Utf8.Valid(fs[i].payload)
  }

  predicate Faultless(limits: Limits, framing: Framing, fs: seq<Frame>, j: nat, n: nat)
    requires j <= n <= |fs|
  {
    forall i :: j <= i < n ==> Fault(limits, framing, fs, i).None?
  }

  /** A text message is accepted if and only if each of its fragments is valid
      UTF-8 on its own. */
  lemma {:induction false} TextAcceptedIff(limits: Limits, framing: Framing, fs: seq<Frame>, j: nat, n: nat)
    requires OneMessage(limits, fs, j, n) && fs[j].opcode == OP_TEXT && !Open(fs, j) && Framed(limits, framing, fs, j, n)
    ensures Faultless(limits, framing, fs, j, n) <==> PiecesValid(fs, j, n)
  {
    assert n <= |fs|;
    hide OneMessage, Open, Body, Utf8.Valid, Frames, Fault;
    forall i | j <= i < n
      ensures Fault(limits, framing, fs, i).None? <==> !IsData(fs[i]) || Utf8.Valid(fs[i].payload)
    {
      FaultInside(limits, framing, fs, j, n, i);
    }
  }

  // ----- where the message is cut -----

  /** No fragment begins inside a character of the whole text. */
  predicate CutsBetweenCharacters(fs: seq<Frame>, j: nat, n: nat)
    requires j <= n <= |fs|
  {
    forall i :: j < i < n ==> Utf8.AtCharacter(Body(fs, j, n), |Body(fs, j, i)|)
  }

  lemma {:induction false} PrefixValid(fs: seq<Frame>, j: nat, i: nat, n: nat)
    requires j <= i <= n <= |fs| && PiecesValid(fs, j, n)
    ensures Utf8.Valid(Body(fs, j, i))
  {
    if i > j {
      PrefixValid(fs, j, i - 1, n);
      if IsData(fs[i - 1]) {
        Utf8.ValidConcat(Body(fs, j, i - 1), fs[i - 1].payload);
      } else {
        assert Body(fs, j, i - 1) + [] == Body(fs, j, i - 1);
      }
    }
  }

  lemma {:induction false} CutAt(fs: seq<Frame>, j: nat, i: nat, n: nat)
    requires j <= i <= n <= |fs| && Utf8.Valid(Body(fs, j, n))
    ensures Utf8.Valid(Body(fs, j, i)) <==> Utf8.AtCharacter(Body(fs, j, n), |Body(fs, j, i)|)
  {
    BodyGrows(fs, j, i, n);
    hide Body, Utf8.Valid, Utf8.AtCharacter;
    assert Body(fs, j, n)[..|Body(fs, j, i)|] == Body(fs, j, i);
    Utf8.CutIff(Body(fs, j, n), |Body(fs, j, i)|);
  }

  lemma {:induction false} PieceValid(fs: seq<Frame>, j: nat, i: nat, n: nat)
    requires j <= i < n <= |fs| && IsData(fs[i]) && Utf8.Valid(Body(fs, j, n)) && CutsBetweenCharacters(fs, j, n)
    ensures Utf8.Valid(fs[i].payload)
  {
    assert Body(fs, j, i + 1) == Body(fs, j, i) + fs[i].payload;
    assert Utf8.Valid([]) && Body(fs, j, j) == [];
    hide Body, Utf8.Valid, Utf8.AtCharacter;
    CutAt(fs, j, i, n);
    CutAt(fs, j, i + 1, n);
    Utf8.ValidConcat(Body(fs, j, i), fs[i].payload);
  }

  /** For a valid text the fragments are valid if and only if every cut falls
      between characters. */
  lemma {:induction false} PiecesValidIff(fs: seq<Frame>, j: nat, n: nat)
    requires j <= n <= |fs| && Utf8.Valid(Body(fs, j, n))
    ensures PiecesValid(fs, j, n) <==> CutsBetweenCharacters(fs, j, n)
  {
    hide Body, Utf8.Valid, Utf8.AtCharacter;
    if PiecesValid(fs, j, n) {
      forall i | j < i < n
        ensures Utf8.AtCharacter(Body(fs, j, n), |Body(fs, j, i)|)
      {
        PrefixValid(fs, j, i, n);
        CutAt(fs, j, i, n);
      }
    }
    if CutsBetweenCharacters(fs, j, n) {
      forall i | j <= i < n && IsData(fs[i])
        ensures Utf8.Valid(fs[i].payload)
      {
        PieceValid(fs, j, i, n);
      }
    }
  }

  // ----- what the client gets -----

  lemma {:induction false} NothingDelivered(limits: Limits, fs: seq<Frame>, i: nat)
    requires OneMessage(limits, fs, 0, |fs|) && i < |fs|
    ensures Delivered(fs, i) == []
  {
    if i > 0 {
      NothingDelivered(limits, fs, i - 1);
      assert !Completes(fs[i - 1]);
    }
  }

  /** A client that sends one valid text message gets it back if and only if it
      has cut it between characters; otherwise it is refused. */
  lemma {:induction false} TextIsEchoedIff(limits: Limits, framing: Framing, fs: seq<Frame>, error: ReadError, polls: nat)
    requires OneMessage(limits, fs, 0, |fs|) && fs[0].opcode == OP_TEXT && Framed(limits, framing, fs, 0, |fs|)
    requires Utf8.Valid(Body(fs, 0, |fs|)) && polls >= |fs|
    ensures var run := Conversation(limits, framing, Reception(fs, error), polls);
      var got := ReceiveAll(Receiver([], None), run.sent).messages;
      if CutsBetweenCharacters(fs, 0, |fs|) then got == [Message(false, Body(fs, 0, |fs|))]
      else got == [] && run.ending == Closed(STATUS_UNSUPPORTED_PAYLOAD, InvalidText)
  {
    var r, n := Reception(fs, error), FirstFault(limits, framing, fs, 0);
    NeverOpenAtStart(fs);
    TextAcceptedIff(limits, framing, fs, 0, |fs|);
    PiecesValidIff(fs, 0, |fs|);
    GotDelivered(limits, framing, r, polls);
    if n < |fs| {
      FaultInside(limits, framing, fs, 0, |fs|, n);
      NothingDelivered(limits, fs, n);
    } else {
      MessageDelivered(limits, fs);
    }
    hide OneMessage, Open, Body, Utf8.Valid, Frames, Fault, Responses, Response, ReceiveAll, FirstFault, Delivered, CutsBetweenCharacters;
  }

  /** What the client has got are the messages complete before the first fault. */
  lemma {:induction false} GotDelivered(limits: Limits, framing: Framing, r: Reception, polls: nat)
    ensures ReceiveAll(Receiver([], None), Conversation(limits, framing, r, polls).sent).messages ==
      Delivered(r.frames, Answered(limits, framing, r, polls))
  {
    hide Conversation, ReceiveAll, Fault, Delivered;
    EchoesMirrorMessages(limits, framing, r, polls);
    ReceiverOfInput(limits, framing, r.frames, Answered(limits, framing, r, polls));
  }

  lemma {:induction false} MessageDelivered(limits: Limits, fs: seq<Frame>)
    requires OneMessage(limits, fs, 0, |fs|) && fs[0].opcode == OP_TEXT
    ensures Delivered(fs, |fs|) == [Message(false, Body(fs, 0, |fs|))]
  {
    StartInside(limits, fs, 0, |fs|, |fs| - 1);
    NothingDelivered(limits, fs, |fs| - 1);
    hide Body, Open, Validate;
  }

  lemma NeverOpenAtStart(fs: seq<Frame>)
    ensures !Open(fs, 0)
  {
  }
}
