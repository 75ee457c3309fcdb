/** UTF-8 as utf8.Valid checks it (section 4 of RFC 3629), and the encoding it recognises. */
module Utf8 {
  import opened Bytes

  predicate Between(s: seq<byte>, i: nat, lo: int, hi: int) { i < |s| && lo <= s[i] <= hi }

  predicate Tail(s: seq<byte>, i: nat) { Between(s, i, 0x80, 0xBF) }

  /** Length of the character at the front of `s`, 0 when there is none. */
  function CharLength(s: seq<byte>): (n: nat)
    ensures n <= |s|
  {
    if Between(s, 0, 0x00, 0x7F) then 1
    else if Between(s, 0, 0xC2, 0xDF) && Tail(s, 1) then 2
    else if Between(s, 0, 0xE0, 0xEF) && SecondOfThree(s) && Tail(s, 2) then 3
    else if Between(s, 0, 0xF0, 0xF4) && SecondOfFour(s) && Tail(s, 2) && Tail(s, 3) then 4
    else 0
  }

  predicate SecondOfThree(s: seq<byte>)
    requires s != []
  {
    Between(s, 1, if s[0] == 0xE0 then 0xA0 else 0x80, if s[0] == 0xED then 0x9F else 0xBF)
  }

  predicate SecondOfFour(s: seq<byte>)
    requires s != []
  {
    Between(s, 1, if s[0] == 0xF0 then 0x90 else 0x80, if s[0] == 0xF4 then 0x8F else 0xBF)
  }

  predicate Valid(s: seq<byte>) {
    s == [] || (CharLength(s) > 0 && Valid(s[CharLength(s)..]))
  }

  /** Valid text can be cut off the front of a string without changing the verdict. */
  lemma {:induction false} ValidConcat(a: seq<byte>, b: seq<byte>)
    requires Valid(a)
    ensures Valid(a + b) == Valid(b)
  {
    if a == [] {
      assert a + b == b;
    } else {
      var n := CharLength(a);
      assert CharLength(a + b) == n;
      assert (a + b)[n..] == a[n..] + b;
      ValidConcat(a[n..], b);
    }
  }

  /** Position `k` is not inside a character: no continuation byte stands there. */
  predicate AtCharacter(s: seq<byte>, k: nat) { !Tail(s, k) }

  lemma InsideCharacter(s: seq<byte>, k: nat)
    requires 0 < k < CharLength(s)
    ensures Tail(s, k) && CharLength(s[..k]) == 0
  {
  }

  lemma FrontCharacter(s: seq<byte>, k: nat)
    requires 0 < CharLength(s) <= k <= |s|
    ensures CharLength(s[..k]) == CharLength(s)
  {
  }

  /** Cutting valid text leaves valid parts exactly when it cuts between characters. */
  lemma {:induction false} CutIff(s: seq<byte>, k: nat)
    requires Valid(s) && k <= |s|
    ensures Valid(s[..k]) <==> AtCharacter(s, k)
  {
    var n := CharLength(s);
    if 0 < k && s != [] {
      if k < n {
        InsideCharacter(s, k);
      } else {
        FrontCharacter(s, k);
        CutIff(s[n..], k - n);
        assert s[..k][n..] == s[n..][..k - n];
      }
    }
  }

  // ----- the encoding of section 3 of RFC 3629 -----

  type scalar = c: nat | c < 0xD800 || 0xE000 <= c <= 0x10FFFF

  function EncodeChar(c: scalar): (s: seq<byte>) {
    if c < 0x80 then [c]
    else if c < 0x800 then [0xC0 + c / 64, 0x80 + c % 64]
    else if c < 0x1_0000 then [0xE0 + c / 4096, 0x80 + c / 64 % 64, 0x80 + c % 64]
    else [0xF0 + c / 262144, 0x80 + c / 4096 % 64, 0x80 + c / 64 % 64, 0x80 + c % 64]
  }

  function EncodeText(cs: seq<scalar>): seq<byte> {
    if cs == [] then [] else EncodeChar(cs[0]) + EncodeText(cs[1..])
  }

  lemma CharLengthConcat(a: seq<byte>, b: seq<byte>)
    requires CharLength(a) > 0
    ensures CharLength(a + b) == CharLength(a)
  {
    assert forall i :: 0 <= i < |a| ==> (a + b)[i] == a[i];
  }

  lemma ThreeBytes(c: scalar)
    requires 0x800 <= c < 0x1_0000
    ensures CharLength(EncodeChar(c)) == 3
  {
    assert c / 64 % 64 == c / 64 - 64 * (c / 4096);
  }

  lemma FourBytes(c: scalar)
    requires 0x1_0000 <= c
    ensures CharLength(EncodeChar(c)) == 4
  {
    assert c / 4096 % 64 == c / 4096 - 64 * (c / 262144);
  }

  lemma {:induction false} EncodedLength(c: scalar, rest: seq<byte>)
    ensures CharLength(EncodeChar(c) + rest) == |EncodeChar(c)| > 0
  {
    if c >= 0x1_0000 {
      FourBytes(c);
    } else if c >= 0x800 {
      ThreeBytes(c);
    }
    assert CharLength(EncodeChar(c)) == |EncodeChar(c)| > 0;
    hide CharLength;
    CharLengthConcat(EncodeChar(c), rest);
  }

  lemma DecodeChar(s: seq<byte>) returns (c: scalar)
    requires CharLength(s) > 0
    ensures EncodeChar(c) == s[..CharLength(s)]
  {
    var b: seq<int> := s;
    match CharLength(s) {
      case 1 => c := s[0];
      case 2 => c := (b[0] - 0xC0) * 64 + (b[1] - 0x80);
      case 3 => c := DecodeThree(b[0] - 0xE0, b[1] - 0x80, b[2] - 0x80);
      case 4 => c := DecodeFour(b[0] - 0xF0, b[1] - 0x80, b[2] - 0x80, b[3] - 0x80);
    }
  }

  lemma DecodeThree(x: nat, y: nat, z: nat) returns (c: scalar)
    requires x < 16 && y < 64 && z < 64 && (x == 0 ==> y >= 0x20) && (x == 13 ==> y < 0x20)
    ensures EncodeChar(c) == [0xE0 + x, 0x80 + y, 0x80 + z]
  {
    c := x * 4096 + y * 64 + z;
    assert c / 64 == x * 64 + y && c / 4096 == x;
  }

  lemma DecodeFour(x: nat, y: nat, z: nat, w: nat) returns (c: scalar)
    requires x < 5 && y < 64 && z < 64 && w < 64 && (x == 0 ==> y >= 0x10) && (x == 4 ==> y < 0x10)
    ensures EncodeChar(c) == [0xF0 + x, 0x80 + y, 0x80 + z, 0x80 + w]
  {
    c := x * 262144 + y * 4096 + z * 64 + w;
    assert c / 64 == x * 4096 + y * 64 + z && c / 4096 == x * 64 + y && c / 262144 == x;
  }

  lemma {:induction false} EncodedTextIsValid(cs: seq<scalar>)
    ensures Valid(EncodeText(cs))
  {
    if cs != [] {
      var s := EncodeText(cs);
      EncodedLength(cs[0], EncodeText(cs[1..]));
      assert s[|EncodeChar(cs[0])|..] == EncodeText(cs[1..]);
      EncodedTextIsValid(cs[1..]);
    }
  }

  lemma {:induction false} DecodeText(s: seq<byte>) returns (cs: seq<scalar>)
    requires Valid(s)
    ensures EncodeText(cs) == s
  {
    if s == [] {
      cs := [];
    } else {
      var n := CharLength(s);
      var c := DecodeChar(s);
      var rest := DecodeText(s[n..]);
      cs := [c] + rest;
      assert cs[1..] == rest;
      assert s == s[..n] + s[n..];
    }
  }

  ghost predicate Decodable(s: seq<byte>) {
    exists cs: seq<scalar> :: EncodeText(cs) == s
  }

  /** The check accepts exactly the encodings of sequences of Unicode scalar values. */
  lemma ValidIffEncoded(s: seq<byte>)
    ensures Valid(s) <==> Decodable(s)
  {
    if Valid(s) {
      var cs := DecodeText(s);
    }
    if Decodable(s) {
      var cs: seq<scalar> :| EncodeText(cs) == s;
      EncodedTextIsValid(cs);
    }
  }
}
