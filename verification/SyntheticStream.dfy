/** The seekable stream of generated bytes behind Range. */
module SyntheticStream {
  import opened Bytes

  datatype Whence = Start | Current | End

  type Factory = int -> byte

  /** The bytes generated for offsets lo to hi. */
  function Content(factory: Factory, lo: int, hi: int): seq<byte>
    requires lo <= hi
  {
    seq(hi - lo, i requires 0 <= i => factory(lo + i))
  }

  /** Where Seek moves to; SeekEnd counts backwards from the end. */
  function Sought(size: int, at: int, offset: int, whence: Whence): int {
    match whence
    case Start => offset
    case Current => at + offset
    case End => size - offset
  }

  /** Where io.Seeker says it moves to: SeekEnd counts forwards from the end. */
  function SeekerPosition(size: int, at: int, offset: int, whence: Whence): int {
    if whence == End then size + offset else Sought(size, at, offset, whence)
  }

  /** Seek does what io.Seeker asks if and only if it is not told to move away
      from the end. */
  lemma SeekIsStandardIff(size: int, at: int, offset: int, whence: Whence)
    ensures Sought(size, at, offset, whence) == SeekerPosition(size, at, offset, whence) <==>
              whence != End || offset == 0
  {
  }

  class Stream {
    const size: nat
    const factory: Factory
    var offset: int

    constructor (size: nat, factory: Factory)
      ensures this.size == size && this.factory == factory && offset == 0
    {
      this.size, this.factory, offset := size, factory, 0;
    }

    /** The offset is moved even when it is then found to be negative. */
    method Seek(offset: int, whence: Whence) returns (position: Option<int>)
      modifies this`offset
      ensures this.offset == Sought(size, old(this.offset), offset, whence)
      ensures position == if this.offset < 0 then None else Some(this.offset)
    {
      match whence {
        case Start => this.offset := offset;
        case Current => this.offset := this.offset + offset;
        case End => this.offset := size - offset;
      }
      if this.offset < 0 {
        return None;
      }
      return Some(this.offset);
    }

    /** The count is negative if an earlier Seek went past the end. */
    method Read(p: array<byte>) returns (n: int, eof: bool)
      modifies this`offset, p
      ensures eof <==> old(offset) + p.Length >= size
      ensures n == Least(p.Length, size - old(offset)) && offset == old(offset) + n
      ensures n >= 0 ==> p[..n] == Content(factory, old(offset), offset) && p[n..] == old(p[n..])
      ensures n < 0 ==> p[..] == old(p[..])
    {
      var start := offset;
      var end := start + p.Length;
      eof := false;
      if end >= size {
        eof := true;
        end := size;
      }
      var i := start;
      while i < end
        invariant start <= i && (start <= end ==> i <= end) && (end < start ==> i == start)
        invariant p[..i - start] == Content(factory, start, i)
        invariant p[i - start..] == old(p[i - start..])
        modifies p
      {
        p[i - start] := factory(i);
        i := i + 1;
      }
      offset := end;
      return end - start, eof;
    }

    /** Reads into buffers of the given sizes, one after the other, from an
        offset that is not past the end: together they hold the generated bytes
        from there on, none lost or repeated, the offset stays in range, and
        a read reports the end exactly when it gets there. */
    method ReadAll(sizes: seq<nat>) returns (got: seq<byte>, eofs: seq<bool>)
      requires 0 <= offset <= size
      modifies this`offset
      ensures offset == Least(old(offset) + Sum(sizes), size)
      ensures old(offset) <= offset && got == Content(factory, old(offset), offset)
      ensures |eofs| == |sizes|
      ensures forall i :: 0 <= i < |sizes| ==> (eofs[i] <==> old(offset) + Sum(sizes[..i + 1]) >= size)
    {
      got, eofs := [], [];
      ghost var start := offset;
      var i := 0;
      while i < |sizes|
        invariant 0 <= i <= |sizes| && |eofs| == i
        invariant start <= offset == Least(start + Sum(sizes[..i]), size)
        invariant got == Content(factory, start, offset)
        invariant forall j :: 0 <= j < i ==> (eofs[j] <==> start + Sum(sizes[..j + 1]) >= size)
        modifies this`offset
      {
        var p := new byte[sizes[i]];
        var n, eof := Read(p);
        assert sizes[..i + 1][..i] == sizes[..i];
        got, eofs := got + p[..n], eofs + [eof];
        i := i + 1;
      }
      assert sizes[..i] == sizes;
    }
  }
}
