/** The paced writers: the pause between writes, and the loops of Drip and SSE. */
module Pacing {
  import opened Bytes
  import opened Int64

  /** computePausePerWrite, in nanoseconds. */
  function PausePerWrite(duration: int64, count: int64): int64 {
    if count > 1 then Quotient(Wrap(duration + (count - 1) - 1), count - 1) else duration
  }

  /** `n` pauses of the same length. */
  function Pauses(pause: int, n: nat): seq<int> { seq(n, _ => pause) }

  /** `n` asterisks. */
  function Stars(n: nat): seq<byte> { seq(n, _ => 42) }

  /** The numbers first, first + 1, ... */
  function Consecutive(first: int, n: nat): seq<int> { seq(n, i => first + i) }

  lemma {:induction false} SumOfPauses(x: int, n: nat)
    ensures Sum(Pauses(x, n)) == n * x
  {
    if n > 0 {
      assert Pauses(x, n)[..n - 1] == Pauses(x, n - 1);
      SumOfPauses(x, n - 1);
      assert n * x == (n - 1) * x + x;
    }
  }

  /** The pauses between `count` writes last at least the duration, and less
      than a nanosecond per pause more. */
  lemma {:induction false} PausesCover(duration: int64, count: int64)
    requires count >= 2 && 0 <= duration && duration + count - 2 < TWO_TO_THE_63
    ensures duration <= Sum(Pauses(PausePerWrite(duration, count), count - 1)) <= duration + count - 2
  {
    hide PausePerWrite, Sum, Pauses;
    var pause, n, total := PausePerWrite(duration, count), count - 1, duration + count - 2;
    PauseIsCeiling(duration, count);
    SumOfPauses(pause, n);
    Ceiling(total, n);
    assert n * pause == n * (total / n);
  }

  /** A duration and count within the handlers' bounds that do not overflow. */
  predicate Fits(duration: int64, count: int64) {
    0 <= duration && 1 <= count && duration + count - 2 < TWO_TO_THE_63
  }

  /** The pauses of a response that was written to the end. */
  predicate Covers(pauses: seq<int>, duration: int64, count: int64) {
    if count == 1 then Sum(pauses) == 0 else duration <= Sum(pauses) <= duration + count - 2
  }

  lemma {:induction false} FittingPauses(duration: int64, count: int64)
    requires Fits(duration, count)
    ensures var pause := PausePerWrite(duration, count);
      && pause >= 0 && (pause == 0 <==> duration == 0)
      && Covers(Pauses(pause, count - 1), duration, count)
      && (pause == 0 ==> Covers([], duration, count))
  {
    if count == 1 {
      assert Pauses(duration, 0) == [];
    } else {
      PausePositiveIff(duration, count);
      PauseIsCeiling(duration, count);
      PausesCover(duration, count);
    }
  }

  lemma PauseIsCeiling(duration: int64, count: int64)
    requires count >= 2 && 0 <= duration && duration + count - 2 < TWO_TO_THE_63
    ensures 0 <= PausePerWrite(duration, count) == (duration + count - 2) / (count - 1)
  {
    WrapsToItself(duration + count - 2);
    assert duration + (count - 1) - 1 == duration + count - 2;
    hide Wrap;
  }

  /** time.NewTicker panics unless its argument is positive. For two or more
      writes the pause is, if and only if the duration is and the sum inside
      the ceiling division does not overflow. */
  lemma {:induction false} PausePositiveIff(duration: int64, count: int64)
    requires count >= 2 && 0 <= duration
    ensures PausePerWrite(duration, count) > 0 <==> 1 <= duration && duration + count - 2 < TWO_TO_THE_63
  {
    var n, total := count - 1, duration + count - 2;
    if total < TWO_TO_THE_63 {
      PauseIsCeiling(duration, count);
      hide PausePerWrite;
      AtLeastOne(total, n);
    } else {
      WrapsNegative(total);
      hide Wrap, Quotient;
      assert total == duration + (count - 1) - 1;
      NegativeQuotient(Wrap(total), n);
    }
  }

  lemma Ceiling(a: int, b: int)
    requires b > 0
    ensures a - (b - 1) <= b * (a / b) <= a
  {
    assert a == b * (a / b) + a % b;
  }

  lemma NegativeQuotient(a: int, b: int)
    requires a < 0 < b
    ensures Quotient(a, b) <= 0
  {
    assert -a / b >= 0;
  }

  lemma AtLeastOne(a: int, b: int)
    requires b > 0
    ensures a >= b <==> a / b >= 1
  {
  }

  /** The body Drip writes and the ticks it waits for, for a client that goes
      away after `patience` ticks; it panics on a bad ticker or repeat count. */
  method Drip(duration: int64, numBytes: int64, patience: nat)
    returns (body: seq<byte>, pauses: seq<int>, panicked: bool)
    ensures var pause := PausePerWrite(duration, numBytes);
      && panicked == (pause < 0 || (pause == 0 && numBytes < 0))
      && (!panicked && pause == 0 ==> body == Stars(numBytes) && pauses == [])
      && (!panicked && pause != 0 ==>
            && body == Stars(if numBytes < 0 then 0 else Least(numBytes, patience + 1))
            && pauses == Pauses(pause, if numBytes <= 0 then 0 else Least(numBytes - 1, patience)))
    ensures Fits(duration, numBytes) && patience >= numBytes - 1 ==>
              !panicked && body == Stars(numBytes) && Covers(pauses, duration, numBytes)
  {
    if Fits(duration, numBytes) {
      FittingPauses(duration, numBytes);
    }
    hide PausePerWrite, Covers;
    var pause := PausePerWrite(duration, numBytes);
    body, pauses, panicked := [], [], false;
    if pause == 0 {
      if numBytes < 0 {
        return [], [], true;
      }
      return Stars(numBytes), [], false;
    }
    if pause < 0 {
      return [], [], true;
    }
    var i := 0;
    while i < numBytes
      invariant 0 <= i && (if numBytes > 0 then i < numBytes && i <= patience else i == 0)
      invariant body == Stars(i) && pauses == Pauses(pause, i)
      decreases numBytes - i
    {
      body := body + [42];
      if i == numBytes - 1 || i == patience {
        return;
      }
      pauses := pauses + [pause];
      i := i + 1;
    }
  }

  /** All of them, unless the stream is to fail or its client leaves earlier. */
  function EventCount(count: int, failAfter: int, patience: nat): nat {
    if count <= 0 then 0
    else Least(if failAfter > 0 then Least(count, failAfter) else count, patience + 1)
  }

  function PauseCount(count: int, failAfter: int, patience: nat): nat {
    if count <= 0 then 0
    else Least(if failAfter > 0 then Least(count - 1, failAfter) else count - 1, patience)
  }

  /** The ids of the events SSE writes; None when the ticker panics. */
  method Sse(duration: int64, count: int64, failAfter: int, lastEventID: int, patience: nat)
    returns (ids: Option<seq<int>>, pauses: seq<int>)
    ensures ids.None? <==> count != 1 && PausePerWrite(duration, count) <= 0
    ensures ids.Some? ==> ids.value == Consecutive(lastEventID + 1, EventCount(count, failAfter, patience))
    ensures ids.Some? && count != 1 ==>
              pauses == Pauses(PausePerWrite(duration, count), PauseCount(count, failAfter, patience))
    ensures count == 1 ==> pauses == []
    ensures Fits(duration, count) && patience >= count - 1 && !(0 < failAfter < count) ==>
              if count > 1 && duration == 0 then ids.None?
              else ids == Some(Consecutive(lastEventID + 1, count)) && Covers(pauses, duration, count)
  {
    if Fits(duration, count) {
      FittingPauses(duration, count);
    }
    hide PausePerWrite;
    var pause := PausePerWrite(duration, count);
    var startID := lastEventID + 1;
    pauses := [];
    if count == 1 {
      assert pauses == Pauses(pause, 0);
      return Some([startID]), pauses;
    }
    if pause <= 0 {
      return None, pauses;
    }
    var written, i := [], 0;
    while i < count
      invariant 0 <= i && (if count > 0 then i < count && i <= patience else i == 0)
      invariant failAfter > 0 ==> i <= failAfter
      invariant written == Consecutive(startID, i) && pauses == Pauses(pause, i)
      decreases count - i
    {
      if failAfter > 0 && i >= failAfter {
        return Some(written), pauses;
      }
      written := written + [startID + i];
      if i == count - 1 || i == patience {
        return Some(written), pauses;
      }
      pauses := pauses + [pause];
      i := i + 1;
    }
    return Some(written), pauses;
  }
}
