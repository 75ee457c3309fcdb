/** The response writers a pipeline handler writes through: the status override
    over the observer's metaResponseWriter, with the headResponseWriter and its
    own metaResponseWriter between them for HEAD requests. */
module Writers {
  import opened Bytes

  /** A call on a response writer. */
  datatype Call = WriteHeader(status: int) | Write(data: seq<byte>) | Flush

  /** What a metaResponseWriter has recorded; status 0 means none yet. */
  datatype Meta = Meta(status: int, size: nat)

  datatype State = State(calls: seq<Call>, observer: Meta, head: Meta, headersDone: bool)

  /** Which wrappers are present. */
  datatype Shape = Shape(isHead: bool, statusOverride: Option<int>)

  /** The stack; `calls` is what the server's own writer is called with. */
  class Stack {
    const shape: Shape
    var calls: seq<Call>
    var observer: Meta
    var head: Meta
    var headersDone: bool

    constructor (shape: Shape)
      ensures this.shape == shape && Contents() == Fresh()
    {
      this.shape := shape;
      calls, headersDone := [], false;
      observer, head := Meta(0, 0), Meta(0, 0);
    }

    ghost function Contents(): State
      reads this
    {
      State(calls, observer, head, headersDone)
    }

    // metaResponseWriter of the observer
    method ObserverWriteHeader(status: int)
      modifies this
      ensures Contents() == ToObserver(old(Contents()), WriteHeader(status))
    {
      calls := calls + [WriteHeader(status)];
      observer := observer.(status := status);
    }

    method ObserverWrite(data: seq<byte>) returns (n: nat)
      modifies this
      ensures n == |data| && Contents() == ToObserver(old(Contents()), Write(data))
    {
      calls := calls + [Write(data)];
      n := |data|;
      observer := observer.(size := observer.size + n);
    }

    method ObserverFlush()
      modifies this
      ensures Contents() == ToObserver(old(Contents()), Flush)
    {
      calls := calls + [Flush];
    }

    // headResponseWriter: Write is its own, the rest is promoted from its metaResponseWriter
    method HeadWriteHeader(status: int)
      modifies this
      ensures Contents() == ToHead(old(Contents()), WriteHeader(status))
    {
      ObserverWriteHeader(status);
      head := head.(status := status);
    }

    method HeadWrite(data: seq<byte>) returns (n: nat)
      ensures n == |data|
    {
      n := |data|;
    }

    method HeadFlush()
      modifies this
      ensures Contents() == ToHead(old(Contents()), Flush)
    {
      ObserverFlush();
    }

    // the writer the pipeline is given
    method BelowWriteHeader(status: int)
      modifies this
      ensures Contents() == Below(shape, old(Contents()), WriteHeader(status))
    {
      if shape.isHead {
        HeadWriteHeader(status);
      } else {
        ObserverWriteHeader(status);
      }
    }

    method BelowWrite(data: seq<byte>) returns (n: nat)
      modifies this
      ensures n == |data| && Contents() == Below(shape, old(Contents()), Write(data))
    {
      if shape.isHead {
        n := HeadWrite(data);
      } else {
        n := ObserverWrite(data);
      }
    }

    method BelowFlush()
      modifies this
      ensures Contents() == Below(shape, old(Contents()), Flush)
    {
      if shape.isHead {
        HeadFlush();
      } else {
        ObserverFlush();
      }
    }

    // statusOverrideResponseWriter, when there is a status modifier
    method DoWriteHeader(status: int)
      modifies this
      ensures Contents() == Top(shape, old(Contents()), WriteHeader(status))
    {
      match shape.statusOverride {
        case None => BelowWriteHeader(status);
        case Some(code) =>
          if !headersDone {
            headersDone := true;
            BelowWriteHeader(code);
          }
      }
    }

    method DoWrite(data: seq<byte>) returns (n: nat)
      modifies this
      ensures n == |data| && Contents() == Top(shape, old(Contents()), Write(data))
    {
      if shape.statusOverride.Some? && !headersDone {
        DoWriteHeader(shape.statusOverride.value);
      }
      n := BelowWrite(data);
    }

    method DoFlush()
      modifies this
      ensures Contents() == Top(shape, old(Contents()), Flush)
    {
      BelowFlush();
    }
  }

  // ----- the same, on values -----

  function Fresh(): State { State([], Meta(0, 0), Meta(0, 0), false) }

  function ToObserver(s: State, c: Call): State {
    var o := match c
      case WriteHeader(status) => s.observer.(status := status)
      case Write(data) => s.observer.(size := s.observer.size + |data|)
      case Flush => s.observer;
    s.(calls := s.calls + [c], observer := o)
  }

  function ToHead(s: State, c: Call): State {
    match c
    case WriteHeader(status) => var t := ToObserver(s, c); t.(head := t.head.(status := status))
    case Write(_) => s
    case Flush => ToObserver(s, c)
  }

  function Below(shape: Shape, s: State, c: Call): State {
    if shape.isHead then ToHead(s, c) else ToObserver(s, c)
  }

  function Top(shape: Shape, s: State, c: Call): State {
    if shape.statusOverride.None? || c.Flush? then Below(shape, s, c)
    else
      var ready := if s.headersDone then s
                   else Below(shape, s.(headersDone := true), WriteHeader(shape.statusOverride.value));
      if c.WriteHeader? then ready else Below(shape, ready, c)
  }

  function TopAll(shape: Shape, cs: seq<Call>): State {
    if cs == [] then Fresh() else Top(shape, TopAll(shape, cs[..|cs| - 1]), cs[|cs| - 1])
  }

  // ----- what a handler's calls amount to -----

  /** The leading flushes of a handler that flushes before it writes. */
  function Flushes(cs: seq<Call>): (n: nat)
    ensures n <= |cs|
    ensures forall i :: 0 <= i < n ==> cs[i] == Flush
    ensures n < |cs| ==> cs[n] != Flush
  {
    if cs == [] || cs[0] != Flush then 0 else 1 + Flushes(cs[1..])
  }

  /** The calls that pass through once the header is out. */
  function Passed(isHead: bool, cs: seq<Call>): seq<Call> {
    if cs == [] then []
    else
      var c := cs[|cs| - 1];
      Passed(isHead, cs[..|cs| - 1]) + if c.WriteHeader? || (isHead && c.Write?) then [] else [c]
  }

  function BodyOf(cs: seq<Call>): seq<byte> {
    if cs == [] then []
    else BodyOf(cs[..|cs| - 1]) + if cs[|cs| - 1].Write? then cs[|cs| - 1].data else []
  }

  function HeaderCalls(cs: seq<Call>): seq<int> {
    if cs == [] then []
    else HeaderCalls(cs[..|cs| - 1]) + if cs[|cs| - 1].WriteHeader? then [cs[|cs| - 1].status] else []
  }

  lemma {:induction false} BodyOfConcat(a: seq<Call>, b: seq<Call>)
    ensures BodyOf(a + b) == BodyOf(a) + BodyOf(b)
    ensures HeaderCalls(a + b) == HeaderCalls(a) + HeaderCalls(b)
  {
    if b == [] {
      assert a + b == a;
    } else {
      assert (a + b)[..|a + b| - 1] == a + b[..|b| - 1];
      BodyOfConcat(a, b[..|b| - 1]);
    }
  }

  lemma {:induction false} FlushesSnoc(cs: seq<Call>, c: Call)
    ensures Flushes(cs + [c]) == if Flushes(cs) == |cs| && c == Flush then |cs| + 1 else Flushes(cs)
  {
    if cs == [] {
      assert ([] + [c])[1..] == [];
    } else if cs[0] == Flush {
      assert (cs + [c])[1..] == cs[1..] + [c];
      FlushesSnoc(cs[1..], c);
    }
  }

  /** What the server's writer is called with under a status override: the
      flushes that came too early, one WriteHeader with the override, and then
      the handler's other calls. */
  function Expected(isHead: bool, code: int, cs: seq<Call>): seq<Call> {
    var n := Flushes(cs);
    if n == |cs| then cs else cs[..n] + ([WriteHeader(code)] + Passed(isHead, cs[n..]))
  }

  lemma {:induction false} OneMoreCall(shape: Shape, s: State, c: Call)
    requires shape.statusOverride.Some?
    ensures var code := shape.statusOverride.value; var s' := Top(shape, s, c);
      && s'.headersDone == (s.headersDone || c != Flush)
      && s'.calls == s.calls + (if c != Flush && !s.headersDone then [WriteHeader(code)] else [])
                             + (if c.WriteHeader? || (shape.isHead && c.Write?) then [] else [c])
  {
  }

  /** The calls that arrive, for every sequence of calls of a handler. */
  lemma {:induction false} OverriddenCalls(shape: Shape, cs: seq<Call>)
    requires shape.statusOverride.Some?
    ensures var s := TopAll(shape, cs);
      && s.calls == Expected(shape.isHead, shape.statusOverride.value, cs)
      && (s.headersDone <==> Flushes(cs) < |cs|)
  {
    if cs != [] {
      var init, c := cs[..|cs| - 1], cs[|cs| - 1];
      var n := Flushes(init);
      assert cs == init + [c];
      OverriddenCalls(shape, init);
      OneMoreCall(shape, TopAll(shape, init), c);
      ExpectedSnoc(shape.isHead, shape.statusOverride.value, init, c);
      hide Top, Expected, Flushes;
    }
  }

  lemma {:induction false} ExpectedSnoc(isHead: bool, code: int, cs: seq<Call>, c: Call)
    ensures var done := Flushes(cs) < |cs|;
      && Expected(isHead, code, cs + [c]) ==
           Expected(isHead, code, cs) + (if c != Flush && !done then [WriteHeader(code)] else [])
                                      + (if c.WriteHeader? || (isHead && c.Write?) then [] else [c])
      && (Flushes(cs + [c]) < |cs + [c]| <==> done || c != Flush)
  {
    var all, n := cs + [c], Flushes(cs);
    var sent := if c.WriteHeader? || (isHead && c.Write?) then [] else [c];
    FlushesSnoc(cs, c);
    if n < |cs| {
      var early, late := cs[..n], cs[n..];
      assert all[n..] == late + [c] && all[..n] == early;
      PassedSnoc(isHead, late, c);
      Appended(early, [WriteHeader(code)], Passed(isHead, late), sent);
      hide Flushes, Passed;
    } else if c != Flush {
      assert all[n..] == [] + [c] && all[..n] == cs;
      PassedSnoc(isHead, [], c);
      PassedNothing(isHead);
      Appended(cs, [WriteHeader(code)], [], sent);
      hide Flushes, Passed;
    }
  }

  lemma Appended(a: seq<Call>, b: seq<Call>, c: seq<Call>, d: seq<Call>)
    ensures a + (b + (c + d)) == a + (b + c) + d
    ensures a + (b + c) + [] + d == a + (b + c) + d
    ensures a + (b + ([] + d)) == a + b + d
  {
  }

  lemma {:induction false} PassedNothing(isHead: bool)
    ensures Passed(isHead, []) == []
  {
  }

  lemma {:induction false} PassedSnoc(isHead: bool, cs: seq<Call>, c: Call)
    ensures Passed(isHead, cs + [c]) == Passed(isHead, cs) + if c.WriteHeader? || (isHead && c.Write?) then [] else [c]
  {
    assert (cs + [c])[..|cs|] == cs;
  }

  function LastStatus(cs: seq<Call>): int {
    var hs := HeaderCalls(cs);
    if hs == [] then 0 else hs[|hs| - 1]
  }

  /** The bookkeeping of both metaResponseWriters is right about what was sent. */
  predicate Recorded(shape: Shape, s: State) {
    && s.observer == Meta(LastStatus(s.calls), |BodyOf(s.calls)|)
    && s.head == Meta(if shape.isHead then LastStatus(s.calls) else 0, 0)
    && (shape.isHead ==> BodyOf(s.calls) == [])
  }

  lemma {:induction false} RecordedBelow(shape: Shape, s: State, c: Call)
    requires Recorded(shape, s)
    ensures Recorded(shape, Below(shape, s, c))
  {
    BodyOfConcat(s.calls, [c]);
    assert [c][..0] == [];
  }

  /** For every sequence of calls, with or without override, for HEAD or not. */
  lemma {:induction false} AlwaysRecorded(shape: Shape, cs: seq<Call>)
    ensures Recorded(shape, TopAll(shape, cs))
  {
    if cs != [] {
      var s, c := TopAll(shape, cs[..|cs| - 1]), cs[|cs| - 1];
      AlwaysRecorded(shape, cs[..|cs| - 1]);
      hide Below, LastStatus;
      if shape.statusOverride.Some? {
        RecordedBelow(shape, s.(headersDone := true), WriteHeader(shape.statusOverride.value));
        RecordedBelow(shape, Below(shape, s.(headersDone := true), WriteHeader(shape.statusOverride.value)), c);
      }
      RecordedBelow(shape, s, c);
    }
  }

  lemma {:induction false} PassedBody(isHead: bool, cs: seq<Call>)
    ensures HeaderCalls(Passed(isHead, cs)) == []
    ensures BodyOf(Passed(isHead, cs)) == if isHead then [] else BodyOf(cs)
  {
    if cs != [] {
      var init, c := cs[..|cs| - 1], cs[|cs| - 1];
      PassedBody(isHead, init);
      BodyOfConcat(Passed(isHead, init), [c]);
      assert [c][..0] == [];
      assert Passed(isHead, init) + [] == Passed(isHead, init);
    }
  }

  lemma {:induction false} FlushesCarryNothing(cs: seq<Call>)
    requires forall i :: 0 <= i < |cs| ==> cs[i] == Flush
    ensures BodyOf(cs) == [] && HeaderCalls(cs) == []
  {
    if cs != [] {
      FlushesCarryNothing(cs[..|cs| - 1]);
    }
  }

  /** A handler that writes anything: exactly one WriteHeader arrives, with the
      override; the body is unchanged, or empty for HEAD; what is recorded is
      what was sent; and the header comes first if and only if the handler
      does not begin with Flush. */
  lemma {:induction false} OverrideWins(shape: Shape, cs: seq<Call>)
    requires shape.statusOverride.Some? && Flushes(cs) < |cs|
    ensures var s := TopAll(shape, cs); var code := shape.statusOverride.value;
      && HeaderCalls(s.calls) == [code]
      && BodyOf(s.calls) == (if shape.isHead then [] else BodyOf(cs))
      && s.observer == Meta(code, |BodyOf(s.calls)|)
      && s.calls != [] && (s.calls[0] == WriteHeader(code) <==> cs[0] != Flush)
  {
    hide TopAll, Flushes, Passed, BodyOf, HeaderCalls;
    var code, n := shape.statusOverride.value, Flushes(cs);
    var early, late := cs[..n], cs[n..];
    OverriddenCalls(shape, cs);
    AlwaysRecorded(shape, cs);
    assert early + late == cs;
    ExpectedContent(shape.isHead, code, early, late);
  }

  /** An informational status, after which the server still waits for the final one. */
  predicate Informational(status: int) { 100 <= status <= 199 && status != 101 }

  /** The status the client gets from Go's server writer for such calls: the
      first WriteHeader that is not informational, but 200 if a Write or Flush
      comes before it or the handler returns. */
  function SentStatus(cs: seq<Call>): int {
    if cs == [] then 200
    else match cs[0]
      case WriteHeader(status) => if Informational(status) then SentStatus(cs[1..]) else status
      case _ => 200
  }

  /** metaResponseWriter.Status, the status that is logged. */
  function Logged(m: Meta): int { if m.status == 0 then 200 else m.status }

  /** The client gets the overriding status if and only if the handler's first
      call is a Write or WriteHeader and the status is a final one (or it is 200
      anyway); the override is logged whenever the handler writes anything. */
  lemma {:induction false} ClientSeesOverrideIff(shape: Shape, cs: seq<Call>)
    requires shape.statusOverride.Some?
    ensures var code := shape.statusOverride.value;
      SentStatus(TopAll(shape, cs).calls) == code <==>
        code == 200 || (cs != [] && cs[0] != Flush && !Informational(code))
    ensures var code := shape.statusOverride.value; var writes := exists c :: c in cs && c != Flush;
      Logged(TopAll(shape, cs).observer) == if writes && code != 0 then code else 200
  {
    hide TopAll, Passed, BodyOf, HeaderCalls, Top;
    var code, n := shape.statusOverride.value, Flushes(cs);
    var calls := TopAll(shape, cs).calls;
    OverriddenCalls(shape, cs);
    AlwaysRecorded(shape, cs);
    if n == |cs| {
      FlushesCarryNothing(cs);
      HeaderlessIsOk(cs);
    } else {
      assert cs[n] in cs;
      OverrideWins(shape, cs);
      PassedBody(shape.isHead, cs[n..]);
      assert n == 0 ==> calls[0] == WriteHeader(code) && calls[1..] == Passed(shape.isHead, cs[n..]);
      HeaderlessIsOk(Passed(shape.isHead, cs[n..]));
    }
  }

  lemma {:induction false} HeaderlessIsOk(cs: seq<Call>)
    requires HeaderCalls(cs) == []
    ensures SentStatus(cs) == 200
  {
    if cs != [] {
      assert cs == [cs[0]] + cs[1..];
      BodyOfConcat([cs[0]], cs[1..]);
      assert [cs[0]][..0] == [];
      assert HeaderCalls([cs[0]]) == [];
    }
  }

  lemma {:induction false} ExpectedContent(isHead: bool, code: int, early: seq<Call>, late: seq<Call>)
    requires forall i :: 0 <= i < |early| ==> early[i] == Flush
    ensures var calls := early + ([WriteHeader(code)] + Passed(isHead, late));
      && HeaderCalls(calls) == [code]
      && BodyOf(calls) == if isHead then [] else BodyOf(early + late)
  {
    hide Passed;
    FlushesCarryNothing(early);
    PassedBody(isHead, late);
    BodyOfConcat([WriteHeader(code)], Passed(isHead, late));
    BodyOfConcat(early, [WriteHeader(code)] + Passed(isHead, late));
    BodyOfConcat(early, late);
    OneHeader(code);
  }

  lemma {:induction false} OneHeader(code: int)
    ensures HeaderCalls([WriteHeader(code)]) == [code] && BodyOf([WriteHeader(code)]) == []
  {
    assert [WriteHeader(code)][..0] == [];
  }
}
