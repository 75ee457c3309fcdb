/** Frames of RFC 6455 section 5.2: what writeFrame puts on the wire and what
    nextFrame reads back. */
module WsFrame {
  import opened Bytes

  const OP_CONTINUATION: byte := 0x0
  const OP_TEXT: byte := 0x1
  const OP_BINARY: byte := 0x2
  const OP_CLOSE: byte := 0x8
  const OP_PING: byte := 0x9
  const OP_PONG: byte := 0xA

  datatype Frame = Frame(fin: bool, rsv1: bool, rsv2: bool, rsv3: bool, opcode: byte, payload: seq<byte>)

  function Flag(on: bool, weight: nat): nat { if on then weight else 0 }

  /** FIN, RSV1-3 and the opcode in one byte; BitwiseHead shows this is the
      OR of bits the code computes. */
  function HeadByte(f: Frame): byte {
    Flag(f.fin, 128) + Flag(f.rsv1, 64) + Flag(f.rsv2, 32) + Flag(f.rsv3, 16) + f.opcode % 16
  }

  /** The three ways to write a payload length. */
  datatype LengthForm = Short | Medium | Long

  predicate Fits(n: nat, form: LengthForm) {
    match form
    case Short => n <= 125
    case Medium => n < 0x1_0000
    case Long => n < 0x1_0000_0000_0000_0000
  }

  function LengthIn(n: nat, form: LengthForm): (s: seq<byte>)
    requires form.Short? ==> n <= 125
    ensures |s| == (match form case Short => 1 case Medium => 3 case Long => 9) && s[0] < 128
  {
    match form
    case Short => [n]
    case Medium => [126] + BigEndian(n, 2)
    case Long => [127] + BigEndian(n, 8)
  }

  function FormOf(n: nat): LengthForm {
    if n <= 125 then Short else if n <= 65535 then Medium else Long
  }

  /** The bytes writeFrame produces; server frames carry no masking key. */
  function Encode(f: Frame): (s: seq<byte>) {
    [HeadByte(f)] + LengthIn(|f.payload|, FormOf(|f.payload|)) + f.payload
  }

  function EncodeAll(fs: seq<Frame>): seq<byte> {
    if fs == [] then [] else Encode(fs[0]) + EncodeAll(fs[1..])
  }

  lemma {:induction false} EncodeAllConcat(a: seq<Frame>, b: seq<Frame>)
    ensures EncodeAll(a + b) == EncodeAll(a) + EncodeAll(b)
  {
    if a == [] {
      assert a + b == b;
    } else {
      assert (a + b)[1..] == a[1..] + b;
      EncodeAllConcat(a[1..], b);
    }
  }

  /** No length form that can hold `n` is shorter than the one writeFrame picks. */
  lemma ShortestForm(n: nat, form: LengthForm)
    requires Fits(n, form)
    ensures Fits(n, FormOf(n)) && |LengthIn(n, FormOf(n))| <= |LengthIn(n, form)|
  {
  }

  function Xor(a: byte, b: byte): byte { ((a as bv8) ^ (b as bv8)) as byte }

  lemma XorTwice(a: byte, b: byte)
    ensures Xor(Xor(a, b), b) == a
  {
    calc {
      Xor(Xor(a, b), b);
      ((Xor(a, b) as bv8) ^ (b as bv8)) as byte;
      { IntOfBv((a as bv8) ^ (b as bv8)); }
      (((a as bv8) ^ (b as bv8)) ^ (b as bv8)) as byte;
      { XorBvTwice(a as bv8, b as bv8); }
      (a as bv8) as byte;
      { BvOfInt(a); }
      a;
    }
  }

  lemma XorBvTwice(x: bv8, y: bv8)
    ensures (x ^ y) ^ y == x
  {
  }

  lemma {:induction false} BvOfInt(n: byte)
    ensures (n as bv8) as int == n
    decreases n
  {
    if n > 0 {
      BvOfInt(n - 1);
      var b := (n - 1) as bv8;
      BvSuccessor(b);
      IntOfBv(b + 1);
    }
  }

  lemma BvSuccessor(b: bv8)
    requires b < 255
    ensures (b + 1) as int == b as int + 1
  {
  }

  lemma IntOfBv(b: bv8)
    ensures 0 <= b as int < 256 && (b as int) as bv8 == b
  {
  }

  /** XOR with the 4-byte key repeated, RFC 6455 section 5.3. */
  function Mask(payload: seq<byte>, key: seq<byte>): (r: seq<byte>)
    requires |key| == 4
    ensures |r| == |payload|
  {
    seq(|payload|, i requires 0 <= i < |payload| => Xor(payload[i], key[i % 4]))
  }

  lemma {:induction false} MaskTwice(payload: seq<byte>, key: seq<byte>)
    requires |key| == 4
    ensures Mask(Mask(payload, key), key) == payload
  {
    forall i | 0 <= i < |payload| ensures Xor(Xor(payload[i], key[i % 4]), key[i % 4]) == payload[i] {
      XorTwice(payload[i], key[i % 4]);
    }
  }

  function SetMaskBit(length: seq<byte>): (r: seq<byte>)
    requires length != [] && length[0] < 128
    ensures |r| == |length|
  {
    [length[0] + 128] + length[1..]
  }

  /** What a client puts on the wire: mask bit set, the key after the length,
      the payload masked. Any length form that can hold the length is allowed. */
  function ClientBytes(f: Frame, key: seq<byte>, form: LengthForm): seq<byte>
    requires |key| == 4 && Fits(|f.payload|, form)
  {
    [HeadByte(f)] + SetMaskBit(LengthIn(|f.payload|, form)) + key + Mask(f.payload, key)
  }

  // ----- reading -----

  datatype ReadError = EndOfInput | UnexpectedEnd | Unmasked
  datatype Reading = Got(frame: Frame, rest: seq<byte>) | Failed(error: ReadError)

  /** io.ReadFull reports a plain EOF only when nothing at all could be read. */
  function ShortRead(s: seq<byte>): ReadError { if s == [] then EndOfInput else UnexpectedEnd }

  function ExtendedWidth(code: byte): nat { if code <= 125 then 0 else if code == 126 then 2 else 8 }

  function DeclaredLength(code: byte, extended: seq<byte>): nat {
    if ExtendedWidth(code) == 0 then code else FromBigEndian(extended)
  }

  /** Decodes the first frame of `s`, RFC 6455 section 5.2. */
  function Decode(s: seq<byte>): Reading {
    if |s| < 2 then Failed(ShortRead(s))
    else if s[1] < 128 then Failed(Unmasked)
    else DecodeLength(s[0], s[1] - 128, s[2..])
  }

  function DecodeLength(head: byte, code: byte, s: seq<byte>): Reading {
    var width := ExtendedWidth(code);
    if |s| < width then Failed(ShortRead(s))
    else DecodePayload(head, DeclaredLength(code, s[..width]), s[width..])
  }

  function DecodePayload(head: byte, length: nat, s: seq<byte>): Reading {
    if |s| < 4 then Failed(ShortRead(s))
    else
      var key, s := s[..4], s[4..];
      if |s| < length then Failed(ShortRead(s))
      else Got(FrameOf(head, Mask(s[..length], key)), s[length..])
  }

  function FrameOf(head: byte, payload: seq<byte>): Frame {
    Frame(head / 128 % 2 == 1, head / 64 % 2 == 1, head / 32 % 2 == 1, head / 16 % 2 == 1, head % 16, payload)
  }

  function BvFlag(on: bool, mask: bv8): bv8 { if on then mask else 0 }

  // Adding a weight to a byte below it sets that bit.
  lemma SetBit16(x: byte) requires x < 16 ensures (x + 16) as bv8 == (x as bv8) | 16 {
    BvOfInt(x); OrWeight16(x as bv8); IntOfBv(x as bv8 | 16);
  }
  lemma SetBit32(x: byte) requires x < 32 ensures (x + 32) as bv8 == (x as bv8) | 32 {
    BvOfInt(x); OrWeight32(x as bv8); IntOfBv(x as bv8 | 32);
  }
  lemma SetBit64(x: byte) requires x < 64 ensures (x + 64) as bv8 == (x as bv8) | 64 {
    BvOfInt(x); OrWeight64(x as bv8); IntOfBv(x as bv8 | 64);
  }
  lemma SetBit128(x: byte) requires x < 128 ensures (x + 128) as bv8 == (x as bv8) | 128 {
    BvOfInt(x); OrWeight128(x as bv8); IntOfBv(x as bv8 | 128);
  }

  lemma OrWeight16(v: bv8) requires v < 16 ensures (v | 16) as int == v as int + 16 {}
  lemma OrWeight32(v: bv8) requires v < 32 ensures (v | 32) as int == v as int + 32 {}
  lemma OrWeight64(v: bv8) requires v < 64 ensures (v | 64) as int == v as int + 64 {}
  lemma OrWeight128(v: bv8) requires v < 128 ensures (v | 128) as int == v as int + 128 {}

  // ... and adding nothing changes nothing.
  lemma SetFlag16(on: bool, x: byte)
    requires x < 16
    ensures (x + Flag(on, 16)) as bv8 == (x as bv8) | BvFlag(on, 16)
  {
    if on { SetBit16(x); } else { OrZero(x as bv8); }
  }
  lemma SetFlag32(on: bool, x: byte)
    requires x < 32
    ensures (x + Flag(on, 32)) as bv8 == (x as bv8) | BvFlag(on, 32)
  {
    if on { SetBit32(x); } else { OrZero(x as bv8); }
  }
  lemma SetFlag64(on: bool, x: byte)
    requires x < 64
    ensures (x + Flag(on, 64)) as bv8 == (x as bv8) | BvFlag(on, 64)
  {
    if on { SetBit64(x); } else { OrZero(x as bv8); }
  }
  lemma SetFlag128(on: bool, x: byte)
    requires x < 128
    ensures (x + Flag(on, 128)) as bv8 == (x as bv8) | BvFlag(on, 128)
  {
    if on { SetBit128(x); } else { OrZero(x as bv8); }
  }

  lemma OrZero(v: bv8) ensures v | 0 == v {}

  /** The sum in HeadByte is the OR of bits that writeFrame computes. */
  lemma {:induction false} BitwiseHead(f: Frame)
    requires f.opcode < 16
    ensures HeadByte(f) as bv8 ==
      BvFlag(f.fin, 0x80) | BvFlag(f.rsv1, 0x40) | BvFlag(f.rsv2, 0x20) | BvFlag(f.rsv3, 0x10) | (f.opcode as bv8)
  {
    var d := f.opcode + Flag(f.rsv3, 16);
    var c := d + Flag(f.rsv2, 32);
    var b := c + Flag(f.rsv1, 64);
    SetFlag16(f.rsv3, f.opcode);
    SetFlag32(f.rsv2, d);
    SetFlag64(f.rsv1, c);
    SetFlag128(f.fin, b);
    assert HeadByte(f) == b + Flag(f.fin, 128);
    hide BvFlag, Flag, HeadByte;
    OrChain(f.opcode as bv8, BvFlag(f.rsv3, 0x10), BvFlag(f.rsv2, 0x20), BvFlag(f.rsv1, 0x40), BvFlag(f.fin, 0x80));
  }

  lemma OrChain(o: bv8, f3: bv8, f2: bv8, f1: bv8, f0: bv8)
    ensures (((o | f3) | f2) | f1) | f0 == f0 | f1 | f2 | f3 | o
  {
  }

  /** The divisions in FrameOf are the bit tests of nextFrame. */
  lemma BitwiseFields(b: byte, payload: seq<byte>)
    ensures FrameOf(b, payload) == Frame(
      b as bv8 & 0x80 != 0, b as bv8 & 0x40 != 0, b as bv8 & 0x20 != 0, b as bv8 & 0x10 != 0,
      (b as bv8 & 0x0F) as byte, payload)
    ensures (b as bv8 & 0x80 == 0) == (b < 128)
  {
    BvOfInt(b);
    var v := b as bv8;
    TestBit128(v); TestBit64(v); TestBit32(v); TestBit16(v); LowNibble(v);
  }

  lemma TestBit128(v: bv8) ensures (v & 0x80 != 0) == (v as int / 128 % 2 == 1) == (v as int >= 128) {}
  lemma TestBit64(v: bv8) ensures (v & 0x40 != 0) == (v as int / 64 % 2 == 1) {}
  lemma TestBit32(v: bv8) ensures (v & 0x20 != 0) == (v as int / 32 % 2 == 1) {}
  lemma TestBit16(v: bv8) ensures (v & 0x10 != 0) == (v as int / 16 % 2 == 1) {}
  lemma LowNibble(v: bv8) ensures (v & 0x0F) as int == v as int % 16 {}

  lemma HeadRoundTrip(f: Frame)
    requires f.opcode < 16
    ensures FrameOf(HeadByte(f), f.payload) == f
  {
    var h := HeadByte(f);
    assert h / 16 == Flag(f.fin, 8) + Flag(f.rsv1, 4) + Flag(f.rsv2, 2) + Flag(f.rsv3, 1);
    assert h / 32 == Flag(f.fin, 4) + Flag(f.rsv1, 2) + Flag(f.rsv2, 1);
    assert h / 64 == Flag(f.fin, 2) + Flag(f.rsv1, 1);
    assert h / 128 == Flag(f.fin, 1);
  }

  lemma HeadOfFrame(head: byte, payload: seq<byte>)
    ensures FrameOf(head, payload).opcode < 16
    ensures HeadByte(FrameOf(head, payload)) == head
  {
    BitsOfByte(head);
  }

  lemma BitsOfByte(head: byte)
    ensures head == 128 * (head / 128 % 2) + 64 * (head / 64 % 2) + 32 * (head / 32 % 2) + 16 * (head / 16 % 2) + head % 16
  {
    var h16, h32, h64, h128 := head / 16, head / 32, head / 64, head / 128;
    assert head == 16 * h16 + head % 16;
    assert h32 == h16 / 2 && h64 == h32 / 2 && h128 == h64 / 2 && h128 < 2;
  }

  lemma LengthRoundTrip(n: nat, form: LengthForm)
    requires Fits(n, form)
    ensures var length := LengthIn(n, form); var code := length[0];
      && ExtendedWidth(code) == |length| - 1
      && DeclaredLength(code, length[1..]) == n
  {
    var length := LengthIn(n, form);
    Pow256Values();
    match form {
      case Short =>
      case Medium => assert length[1..] == BigEndian(n, 2); BigEndianRoundTrip(n, 2);
      case Long => assert length[1..] == BigEndian(n, 8); BigEndianRoundTrip(n, 8);
    }
  }

  lemma DecodePayloadParts(head: byte, key: seq<byte>, payload: seq<byte>, rest: seq<byte>)
    requires |key| == 4
    ensures DecodePayload(head, |payload|, key + (Mask(payload, key) + rest)) == Got(FrameOf(head, payload), rest)
  {
    var masked := Mask(payload, key);
    assert (key + (masked + rest))[..4] == key && (key + (masked + rest))[4..] == masked + rest;
    assert (masked + rest)[..|payload|] == masked && (masked + rest)[|payload|..] == rest;
    MaskTwice(payload, key);
  }

  lemma DecodeLengthParts(head: byte, code: byte, extended: seq<byte>, s: seq<byte>)
    requires ExtendedWidth(code) == |extended|
    ensures DecodeLength(head, code, extended + s) == DecodePayload(head, DeclaredLength(code, extended), s)
  {
    assert (extended + s)[..|extended|] == extended && (extended + s)[|extended|..] == s;
  }

  /** Reading what a client wrote gives the frame back and stops exactly at its end. */
  lemma {:induction false} DecodeClientBytes(f: Frame, key: seq<byte>, form: LengthForm, rest: seq<byte>)
    requires f.opcode < 16 && |key| == 4 && Fits(|f.payload|, form)
    ensures Decode(ClientBytes(f, key, form) + rest) == Got(f, rest)
  {
    var length := LengthIn(|f.payload|, form);
    var tail := key + (Mask(f.payload, key) + rest);
    ClientLayout(HeadByte(f), length, key, Mask(f.payload, key), rest);
    LengthRoundTrip(|f.payload|, form);
    DecodeParts(HeadByte(f), length[0], length[1..], tail);
    DecodePayloadParts(HeadByte(f), key, f.payload, rest);
    HeadRoundTrip(f);
  }

  lemma ClientLayout(head: byte, length: seq<byte>, key: seq<byte>, masked: seq<byte>, rest: seq<byte>)
    requires length != [] && length[0] < 128
    ensures [head] + SetMaskBit(length) + key + masked + rest ==
      [head, length[0] + 128] + (length[1..] + (key + (masked + rest)))
  {
  }

  lemma DecodeParts(head: byte, code: byte, extended: seq<byte>, s: seq<byte>)
    requires code < 128 && ExtendedWidth(code) == |extended|
    ensures Decode([head, code + 128] + (extended + s)) == DecodePayload(head, DeclaredLength(code, extended), s)
  {
    assert ([head, code + 128] + (extended + s))[2..] == extended + s;
    DecodeLengthParts(head, code, extended, s);
  }

  lemma LengthInverse(b: byte, extended: seq<byte>) returns (form: LengthForm)
    requires b >= 128 && |extended| == ExtendedWidth(b - 128)
    ensures var n := DeclaredLength(b - 128, extended);
      Fits(n, form) && SetMaskBit(LengthIn(n, form)) == [b] + extended
  {
    FromBigEndianRoundTrip(extended);
    Pow256Values();
    if |extended| == 0 {
      form := Short;
    } else if |extended| == 2 {
      form := Medium;
    } else {
      form := Long;
    }
  }

  /** Whatever is read successfully was the client encoding of that frame, for
      some key and some length form: nothing else is accepted. */
  lemma DecodeIsClientBytes(s: seq<byte>) returns (key: seq<byte>, form: LengthForm)
    requires Decode(s).Got?
    ensures |key| == 4 && Decode(s).frame.opcode < 16 && Fits(|Decode(s).frame.payload|, form)
    ensures s == ClientBytes(Decode(s).frame, key, form) + Decode(s).rest
  {
    var width := ExtendedWidth(s[1] - 128);
    var extended, tail := s[2..][..width], s[2..][width..];
    form := LengthInverse(s[1], extended);
    key := DecodePayloadInverse(s[0], DeclaredLength(s[1] - 128, extended), tail);
    var r := Decode(s);
    assert r == DecodePayload(s[0], DeclaredLength(s[1] - 128, extended), tail);
    Reassemble(s, width, key, Mask(r.frame.payload, key), r.rest);
  }

  lemma Reassemble(s: seq<byte>, width: nat, key: seq<byte>, masked: seq<byte>, rest: seq<byte>)
    requires |s| >= 2 + width && s[2..][width..] == key + masked + rest
    ensures s == [s[0]] + ([s[1]] + s[2..][..width]) + key + masked + rest
  {
    assert s == [s[0]] + ([s[1]] + s[2..][..width]) + s[2..][width..];
  }

  lemma DecodePayloadInverse(head: byte, length: nat, s: seq<byte>) returns (key: seq<byte>)
    requires DecodePayload(head, length, s).Got?
    ensures var r := DecodePayload(head, length, s);
      && |key| == 4 && |r.frame.payload| == length && r.frame.opcode < 16 && HeadByte(r.frame) == head
      && s == key + Mask(r.frame.payload, key) + r.rest
  {
    key := s[..4];
    var masked := s[4..][..length];
    MaskTwice(masked, key);
    HeadOfFrame(head, Mask(masked, key));
    assert s == key + masked + s[4..][length..];
  }

  // ----- streams of frames -----

  datatype RawClientFrame = ClientFrame(frame: Frame, key: seq<byte>, form: LengthForm)

  /** A frame with the choices a client makes when sending it. */
  type ClientFrame = c: RawClientFrame
    | c.frame.opcode < 16 && |c.key| == 4 && Fits(|c.frame.payload|, c.form)
    witness ClientFrame(Frame(true, false, false, false, OP_TEXT, []), [0, 0, 0, 0], Short)

  function ClientStream(cs: seq<ClientFrame>): seq<byte> {
    if cs == [] then [] else ClientBytes(cs[0].frame, cs[0].key, cs[0].form) + ClientStream(cs[1..])
  }

  function FramesOf(cs: seq<ClientFrame>): (fs: seq<Frame>)
    ensures |fs| == |cs|
  {
    seq(|cs|, i requires 0 <= i < |cs| => cs[i].frame)
  }

  /** Reads frames until one fails. */
  datatype Reception = Reception(frames: seq<Frame>, error: ReadError)

  function DecodeAll(s: seq<byte>): Reception
    decreases |s|
  {
    match Decode(s)
    case Failed(e) => Reception([], e)
    case Got(f, rest) => var r := DecodeAll(rest); Reception([f] + r.frames, r.error)
  }

  /** Reading a stream of client frames returns exactly that list and goes on
      at the byte after it. */
  lemma {:induction false} DecodeAllClientStream(cs: seq<ClientFrame>, tail: seq<byte>)
    ensures DecodeAll(ClientStream(cs) + tail) ==
      Reception(FramesOf(cs) + DecodeAll(tail).frames, DecodeAll(tail).error)
  {
    if cs == [] {
      assert ClientStream(cs) + tail == tail;
      assert FramesOf(cs) + DecodeAll(tail).frames == DecodeAll(tail).frames;
    } else {
      var c, rest := cs[0], ClientStream(cs[1..]) + tail;
      assert ClientStream(cs) + tail == ClientBytes(c.frame, c.key, c.form) + rest;
      DecodeAllClientStream(cs[1..], tail);
      DecodeAllCons(c, rest);
      FramesOfCons(cs, DecodeAll(tail).frames);
    }
  }

  lemma DecodeAllCons(c: ClientFrame, rest: seq<byte>)
    ensures DecodeAll(ClientBytes(c.frame, c.key, c.form) + rest) ==
      Reception([c.frame] + DecodeAll(rest).frames, DecodeAll(rest).error)
  {
    DecodeClientBytes(c.frame, c.key, c.form, rest);
    DecodeAllStep(ClientBytes(c.frame, c.key, c.form) + rest);
  }

  lemma DecodeAllStep(s: seq<byte>)
    requires Decode(s).Got?
    ensures DecodeAll(s) == Reception([Decode(s).frame] + DecodeAll(Decode(s).rest).frames, DecodeAll(Decode(s).rest).error)
  {
  }

  lemma FramesOfCons(cs: seq<ClientFrame>, more: seq<Frame>)
    requires cs != []
    ensures FramesOf(cs) + more == [cs[0].frame] + (FramesOf(cs[1..]) + more)
  {
  }

  /** Every input is a stream of client frames followed by bytes that hold no frame. */
  lemma {:induction false} DecodeAllSplits(s: seq<byte>) returns (cs: seq<ClientFrame>, tail: seq<byte>)
    ensures s == ClientStream(cs) + tail && FramesOf(cs) == DecodeAll(s).frames
    ensures Decode(tail) == Failed(DecodeAll(s).error)
    decreases |s|
  {
    if Decode(s).Failed? {
      cs, tail := [], s;
    } else {
      var f, rest := Decode(s).frame, Decode(s).rest;
      var key, form := DecodeIsClientBytes(s);
      var c: ClientFrame := ClientFrame(f, key, form);
      DecodeAllStep(s);
      cs, tail := DecodeAllSplits(rest);
      ClientStreamCons(c, cs, tail);
      FramesOfCons([c] + cs, []);
      cs := [c] + cs;
    }
  }

  lemma ClientStreamCons(c: ClientFrame, cs: seq<ClientFrame>, tail: seq<byte>)
    ensures ClientStream([c] + cs) + tail == ClientBytes(c.frame, c.key, c.form) + (ClientStream(cs) + tail)
    ensures FramesOf([c] + cs) == [c.frame] + FramesOf(cs)
  {
    assert ([c] + cs)[1..] == cs;
  }

  /** Turns bytes written by the server into client bytes: set the mask bit,
      insert the key after the length, mask the payload. */
  function Remask(wire: seq<byte>, key: seq<byte>): seq<byte>
    requires |key| == 4 && |wire| >= 2 && wire[1] < 128 && |wire| >= 2 + ExtendedWidth(wire[1])
  {
    var head := 2 + ExtendedWidth(wire[1]);
    [wire[0], wire[1] + 128] + wire[2..head] + key + Mask(wire[head..], key)
  }

  /** nextFrame undoes writeFrame, for every frame whose length fits a Go int. */
  lemma WriteThenRead(f: Frame, key: seq<byte>, rest: seq<byte>)
    requires f.opcode < 16 && |key| == 4 && |f.payload| < 0x8000_0000_0000_0000
    ensures |Encode(f)| >= 2 && Encode(f)[1] < 128 && |Encode(f)| >= 2 + ExtendedWidth(Encode(f)[1])
    ensures Decode(Remask(Encode(f), key) + rest) == Got(f, rest)
  {
    var form := FormOf(|f.payload|);
    var length, wire := LengthIn(|f.payload|, form), Encode(f);
    assert wire[1] == length[0] && ExtendedWidth(wire[1]) == |length| - 1;
    var head := 2 + ExtendedWidth(wire[1]);
    assert wire[2..head] == length[1..] && wire[head..] == f.payload;
    assert Remask(wire, key) == ClientBytes(f, key, form);
    DecodeClientBytes(f, key, form, rest);
  }

  /** The same for a list of frames, each with a key of its own. */
  function RemaskAll(fs: seq<Frame>, keys: seq<seq<byte>>): seq<byte>
    requires |keys| == |fs| && Writable(fs) && forall i :: 0 <= i < |keys| ==> |keys[i]| == 4
  {
    if fs == [] then []
    else
      WireHeader(fs[0]);
      Remask(Encode(fs[0]), keys[0]) + RemaskAll(fs[1..], keys[1..])
  }

  /** Opcodes fit four bits and lengths a Go int. */
  predicate Writable(fs: seq<Frame>) {
    forall i :: 0 <= i < |fs| ==> fs[i].opcode < 16 && |fs[i].payload| < 0x8000_0000_0000_0000
  }

  lemma WireHeader(f: Frame)
    requires f.opcode < 16 && |f.payload| < 0x8000_0000_0000_0000
    ensures |Encode(f)| >= 2 && Encode(f)[1] < 128 && |Encode(f)| >= 2 + ExtendedWidth(Encode(f)[1])
  {
    WriteThenRead(f, [0, 0, 0, 0], []);
  }

  /** Repeated reading undoes repeated writing: it returns exactly the frames
      written and goes on at the byte after them. */
  lemma {:induction false} WriteThenReadAll(fs: seq<Frame>, keys: seq<seq<byte>>, tail: seq<byte>)
    requires |keys| == |fs| && Writable(fs) && forall i :: 0 <= i < |keys| ==> |keys[i]| == 4
    ensures DecodeAll(RemaskAll(fs, keys) + tail) == Reception(fs + DecodeAll(tail).frames, DecodeAll(tail).error)
  {
    hide Decode, Encode, Remask;
    if fs == [] {
      assert RemaskAll(fs, keys) + tail == tail;
      assert fs + DecodeAll(tail).frames == DecodeAll(tail).frames;
    } else {
      var more := RemaskAll(fs[1..], keys[1..]) + tail;
      WireHeader(fs[0]);
      var first := Remask(Encode(fs[0]), keys[0]);
      WriteThenRead(fs[0], keys[0], more);
      assert RemaskAll(fs, keys) + tail == first + more;
      WriteThenReadAll(fs[1..], keys[1..], tail);
      hide DecodeAll, RemaskAll;
      DecodeAllStep(first + more);
      assert fs + DecodeAll(tail).frames == [fs[0]] + (fs[1..] + DecodeAll(tail).frames);
    }
  }

  // ----- lengths written in more bytes than needed -----

  /** The 16-bit form with a length below 126, or the 64-bit form with one below 65536. */
  predicate Overlong(s: seq<byte>)
    requires Decode(s).Got?
  {
    var n := |Decode(s).frame.payload|;
    (s[1] == 254 && n <= 125) || (s[1] == 255 && n <= 65535)
  }

  /** A frame is read in every form; it takes more bytes than the shortest form
      if and only if its length is overlong, which section 5.2 forbids. */
  lemma {:induction false} OverlongIff(s: seq<byte>)
    requires Decode(s).Got?
    ensures |Encode(Decode(s).frame)| + 4 <= |s| - |Decode(s).rest|
    ensures |Encode(Decode(s).frame)| + 4 < |s| - |Decode(s).rest| <==> Overlong(s)
  {
    var width := ExtendedWidth(s[1] - 128);
    FromBigEndianRoundTrip(s[2..][..width]);
    Pow256Values();
  }

  /** For instance an empty message in the 16-bit form. */
  lemma {:induction false} OverlongIsRead()
    ensures var s: seq<byte> := [0x82, 0xFE, 0, 0, 0, 0, 0, 0];
      Decode(s) == Got(Frame(true, false, false, false, OP_BINARY, []), []) && Overlong(s)
  {
    var s: seq<byte> := [0x82, 0xFE, 0, 0, 0, 0, 0, 0];
    assert s[2..][..2] == [0, 0] && FromBigEndian([0, 0]) == 0 by {
      assert [0, 0][..1] == [0] && [0][..0] == [];
    }
    assert s[2..][2..] == [0, 0, 0, 0];
  }
}
