/** The base64 decoder that takes any of the four encodings of RFC 4648,
    sections 4 and 5. */
module Base64 {
  import opened Bytes

  /** encoding/base64's URLEncoding, StdEncoding and their raw forms. */
  datatype Encoding = Encoding(urlSafe: bool, padded: bool)

  predicate IsBreak(c: char) { c == '\r' || c == '\n' }

  function CharOf(urlSafe: bool, v: nat): (c: char)
    requires v < 64
    ensures c != '=' && !IsBreak(c)
  {
    if v < 26 then 'A' + v as char
    else if v < 52 then 'a' + (v - 26) as char
    else if v < 62 then '0' + (v - 52) as char
    else if v == 62 then (if urlSafe then '-' else '+')
    else if urlSafe then '_' else '/'
  }

  function ValueOf(urlSafe: bool, c: char): (v: Option<nat>)
    ensures v.Some? ==> v.value < 64
  {
    if 'A' <= c <= 'Z' then Some(c as int - 'A' as int)
    else if 'a' <= c <= 'z' then Some(c as int - 'a' as int + 26)
    else if '0' <= c <= '9' then Some(c as int - '0' as int + 52)
    else if c == (if urlSafe then '-' else '+') then Some(62)
    else if c == (if urlSafe then '_' else '/') then Some(63)
    else None
  }

  predicate Digits(urlSafe: bool, s: string) {
    forall i :: 0 <= i < |s| ==> ValueOf(urlSafe, s[i]).Some?
  }

  /** Line breaks are skipped wherever they are. */
  function WithoutBreaks(s: string): string {
    if s == "" then "" else (if IsBreak(s[0]) then "" else [s[0]]) + WithoutBreaks(s[1..])
  }

  // ----- a group of three bytes as four digits -----

  function Pack(urlSafe: bool, a: byte, b: byte, c: byte): (s: string)
    ensures |s| == 4 && forall i :: 0 <= i < |s| ==> s[i] != '=' && !IsBreak(s[i])
  {
    [CharOf(urlSafe, a / 4), CharOf(urlSafe, a % 4 * 16 + b / 16),
     CharOf(urlSafe, b % 16 * 4 + c / 64), CharOf(urlSafe, c % 64)]
  }

  /** The bytes of two to four digits; bits left over are not looked at. */
  function Unpack(urlSafe: bool, s: string): (data: seq<byte>)
    requires 2 <= |s| <= 4 && Digits(urlSafe, s)
    ensures |data| == |s| - 1
  {
    var v0, v1 := ValueOf(urlSafe, s[0]).value, ValueOf(urlSafe, s[1]).value;
    var v2 := if |s| > 2 then ValueOf(urlSafe, s[2]).value else 0;
    var v3 := if |s| > 3 then ValueOf(urlSafe, s[3]).value else 0;
    [v0 * 4 + v1 / 16, v1 % 16 * 16 + v2 / 4, v2 % 4 * 64 + v3][..|s| - 1]
  }

  // ----- whole strings -----

  function Encode(e: Encoding, data: seq<byte>): string {
    if data == [] then ""
    else if |data| == 1 then
      Pack(e.urlSafe, data[0], 0, 0)[..2] + if e.padded then "==" else ""
    else if |data| == 2 then
      Pack(e.urlSafe, data[0], data[1], 0)[..3] + if e.padded then "=" else ""
    else
      Pack(e.urlSafe, data[0], data[1], data[2]) + Encode(e, data[3..])
  }

  /** A last group of two or three digits. */
  function DecodeTail(urlSafe: bool, s: string): Option<seq<byte>> {
    if 2 <= |s| <= 3 && Digits(urlSafe, s) then Some(Unpack(urlSafe, s)) else None
  }

  function DecodeGroups(e: Encoding, s: string): Option<seq<byte>> {
    if s == "" then Some([])
    else if |s| >= 4 && Digits(e.urlSafe, s[..4]) then
      var rest :- DecodeGroups(e, s[4..]);
      Some(Unpack(e.urlSafe, s[..4]) + rest)
    else if !e.padded then DecodeTail(e.urlSafe, s)
    else if |s| != 4 || s[3] != '=' then None
    else DecodeTail(e.urlSafe, if s[2] == '=' then s[..2] else s[..3])
  }

  /** Encoding.DecodeString; None for an error. */
  function Decode(e: Encoding, s: string): Option<seq<byte>> {
    DecodeGroups(e, WithoutBreaks(s))
  }

  /** decodeBase64Flexible. */
  function DecodeFlexible(s: string): Option<seq<byte>> {
    if Decode(Encoding(true, true), s).Some? then Decode(Encoding(true, true), s)
    else if Decode(Encoding(true, false), s).Some? then Decode(Encoding(true, false), s)
    else if Decode(Encoding(false, true), s).Some? then Decode(Encoding(false, true), s)
    else Decode(Encoding(false, false), s)
  }

  // ----- one encoding inverts itself -----

  lemma CharRoundTrip(urlSafe: bool, v: nat)
    requires v < 64
    ensures ValueOf(urlSafe, CharOf(urlSafe, v)) == Some(v)
  {
  }

  /** The four digits of a group stand for the values they were made from. */
  lemma {:induction false} PackedValues(urlSafe: bool, a: byte, b: byte, c: byte)
    ensures var s := Pack(urlSafe, a, b, c);
      && ValueOf(urlSafe, s[0]) == Some(a / 4)
      && ValueOf(urlSafe, s[1]) == Some(a % 4 * 16 + b / 16)
      && ValueOf(urlSafe, s[2]) == Some(b % 16 * 4 + c / 64)
      && ValueOf(urlSafe, s[3]) == Some(c % 64)
  {
    hide CharOf, ValueOf;
    CharRoundTrip(urlSafe, a / 4);
    CharRoundTrip(urlSafe, a % 4 * 16 + b / 16);
    CharRoundTrip(urlSafe, b % 16 * 4 + c / 64);
    CharRoundTrip(urlSafe, c % 64);
  }

  lemma {:induction false} PackRoundTrip(urlSafe: bool, a: byte, b: byte, c: byte, n: nat)
    requires 2 <= n <= 4 && (n == 2 ==> b == 0) && (n <= 3 ==> c == 0)
    ensures var s := Pack(urlSafe, a, b, c)[..n];
      Digits(urlSafe, s) && Unpack(urlSafe, s) == [a, b, c][..n - 1]
  {
    hide Pack, ValueOf;
    var s := Pack(urlSafe, a, b, c)[..n];
    PackedValues(urlSafe, a, b, c);
    SixBits(a, b, c);
    assert n == 2 ==> b == 0 && a % 4 * 16 / 16 == a % 4;
    forall i | 0 <= i < |s|
      ensures ValueOf(urlSafe, s[i]).Some?
    {
      assert i in {0, 1, 2, 3};
    }
  }

  lemma SixBits(a: byte, b: byte, c: byte)
    ensures a / 4 * 4 + (a % 4 * 16 + b / 16) / 16 == a
    ensures (a % 4 * 16 + b / 16) % 16 * 16 + (b % 16 * 4 + c / 64) / 4 == b
    ensures (b % 16 * 4 + c / 64) % 4 * 64 + c % 64 == c
  {
  }

  /** A last group of two or three digits, padded or not. */
  lemma {:induction false} TailRoundTrip(e: Encoding, digits: string)
    requires 2 <= |digits| <= 3 && Digits(e.urlSafe, digits)
    ensures var padding := if !e.padded then "" else if |digits| == 2 then "==" else "=";
      DecodeGroups(e, digits + padding) == Some(Unpack(e.urlSafe, digits))
  {
    PaddingEndsDigits(e.urlSafe);
    assert forall i :: 0 <= i < |digits| ==> digits[i] != '=';
    hide Unpack, ValueOf;
    if e.padded {
      var s := digits + if |digits| == 2 then "==" else "=";
      assert s[..4][3] == '=';
      assert s[..|digits|] == digits;
    } else {
      assert digits + "" == digits;
    }
  }

  lemma {:induction false} DecodeOfEncode(e: Encoding, data: seq<byte>)
    ensures DecodeGroups(e, Encode(e, data)) == Some(data)
  {
    hide Unpack, Pack, ValueOf, Digits;
    var s := Encode(e, data);
    if 1 <= |data| <= 2 {
      var last := if |data| == 2 then data[1] else 0;
      PackRoundTrip(e.urlSafe, data[0], last, 0, |data| + 1);
      TailRoundTrip(e, Pack(e.urlSafe, data[0], last, 0)[..|data| + 1]);
      hide DecodeGroups;
      assert [data[0], last, 0][..|data|] == data;
    } else if |data| > 2 {
      PackRoundTrip(e.urlSafe, data[0], data[1], data[2], 4);
      DecodeOfEncode(e, data[3..]);
      var p := Pack(e.urlSafe, data[0], data[1], data[2]);
      assert p[..4] == p && s[..4] == p && s[4..] == Encode(e, data[3..]);
      assert [data[0], data[1], data[2]][..3] + data[3..] == data;
    }
  }

  lemma PaddingEndsDigits(urlSafe: bool)
    ensures ValueOf(urlSafe, '=').None?
  {
  }

  // ----- two encodings that both take a string read it the same -----

  lemma ValuesAgree(urlSafe: bool, other: bool, s: string)
    requires 2 <= |s| <= 4 && Digits(urlSafe, s) && Digits(other, s)
    ensures Unpack(urlSafe, s) == Unpack(other, s)
  {
    forall i | 0 <= i < |s|
      ensures ValueOf(urlSafe, s[i]) == ValueOf(other, s[i])
    {
    }
    hide ValueOf;
  }

  lemma {:induction false} GroupsAgree(e: Encoding, other: Encoding, s: string)
    requires DecodeGroups(e, s).Some? && DecodeGroups(other, s).Some?
    ensures DecodeGroups(e, s) == DecodeGroups(other, s)
  {
    hide Unpack, ValueOf;
    PaddingEndsDigits(e.urlSafe);
    PaddingEndsDigits(other.urlSafe);
    if s != "" {
      var full, otherFull := |s| >= 4 && Digits(e.urlSafe, s[..4]), |s| >= 4 && Digits(other.urlSafe, s[..4]);
      assert |s| == 4 ==> s[..4] == s;
      if full && otherFull {
        GroupsAgree(e, other, s[4..]);
        ValuesAgree(e.urlSafe, other.urlSafe, s[..4]);
      } else {
        var tail := if |s| < 4 then s else if s[2] == '=' then s[..2] else s[..3];
        assert !full && !otherFull by {
          assert |s| >= 4 ==> s[..4][3] == s[3];
        }
        ValuesAgree(e.urlSafe, other.urlSafe, tail);
      }
    }
  }

  /** The flexible decoder returns x exactly when some encoding decodes to x:
      the order of the attempts makes no difference. */
  lemma {:induction false} FlexibleIff(s: string, data: seq<byte>)
    ensures DecodeFlexible(s) == Some(data) <==> exists e :: Decode(e, s) == Some(data)
  {
    hide DecodeGroups, WithoutBreaks;
    forall e, other | Decode(e, s).Some? && Decode(other, s).Some?
      ensures Decode(e, s) == Decode(other, s)
    {
      GroupsAgree(e, other, WithoutBreaks(s));
    }
    forall e | Decode(e, s) == Some(data)
      ensures DecodeFlexible(s) == Some(data)
    {
      assert e == Encoding(e.urlSafe, e.padded);
    }
  }

  /** Whichever encoding wrote the text, and however it was wrapped into lines
      since, the flexible decoder gives the original bytes back. */
  lemma {:induction false} FlexibleInverts(e: Encoding, data: seq<byte>, s: string)
    requires WithoutBreaks(s) == Encode(e, data)
    ensures DecodeFlexible(s) == Some(data)
  {
    hide DecodeGroups, Encode, WithoutBreaks, DecodeFlexible;
    DecodeOfEncode(e, data);
    assert Decode(e, s) == Some(data);
    FlexibleIff(s, data);
  }

  /** Encoded text has no line breaks of its own. */
  lemma {:induction false} EncodedIsUnbroken(e: Encoding, data: seq<byte>)
    ensures WithoutBreaks(Encode(e, data)) == Encode(e, data)
  {
    hide Pack;
    var s := Encode(e, data);
    if data != [] {
      var n := if |data| < 3 then |data| + 1 else 4;
      var head := Pack(e.urlSafe, data[0], if |data| > 1 then data[1] else 0, if |data| > 2 then data[2] else 0)[..n];
      var tail := if |data| >= 3 then Encode(e, data[3..]) else if !e.padded then "" else if |data| == 1 then "==" else "=";
      assert s == head + tail;
      if |data| >= 3 {
        EncodedIsUnbroken(e, data[3..]);
      } else {
        Unbroken(tail);
      }
      Unbroken(head);
      WithoutBreaksConcat(head, tail);
    }
  }

  lemma {:induction false} Unbroken(s: string)
    requires forall i :: 0 <= i < |s| ==> !IsBreak(s[i])
    ensures WithoutBreaks(s) == s
  {
    if s != "" {
      Unbroken(s[1..]);
    }
  }

  lemma {:induction false} WithoutBreaksConcat(s: string, t: string)
    ensures WithoutBreaks(s + t) == WithoutBreaks(s) + WithoutBreaks(t)
  {
    if s == "" {
      assert s + t == t;
    } else {
      assert (s + t)[1..] == s[1..] + t;
      WithoutBreaksConcat(s[1..], t);
    }
  }

  // ----- what is refused -----

  lemma {:induction false} GroupsAlphabet(e: Encoding, s: string, i: nat)
    requires DecodeGroups(e, s).Some? && i < |s| && s[i] != '='
    ensures ValueOf(e.urlSafe, s[i]).Some?
  {
    hide Unpack, ValueOf;
    if |s| >= 4 && Digits(e.urlSafe, s[..4]) {
      if i >= 4 {
        GroupsAlphabet(e, s[4..], i - 4);
      } else {
        assert s[i] == s[..4][i];
      }
    } else if e.padded {
      assert s[i] == (if s[2] == '=' then s[..2] else s[..3])[i];
    }
  }

  lemma {:induction false} Surviving(s: string, c: char)
    requires c in s && !IsBreak(c)
    ensures c in WithoutBreaks(s)
  {
    if s[0] != c {
      Surviving(s[1..], c);
    }
  }

  /** Text that mixes the two alphabets is refused. */
  lemma {:induction false} MixedIsRefused(s: string, c: char, d: char)
    requires c in s && d in s && c in "-_" && d in "+/"
    ensures DecodeFlexible(s) == None
  {
    hide DecodeGroups, DecodeFlexible, WithoutBreaks;
    Surviving(s, c);
    Surviving(s, d);
    var t := WithoutBreaks(s);
    var i :| 0 <= i < |t| && t[i] == c;
    var j :| 0 <= j < |t| && t[j] == d;
    if DecodeFlexible(s).Some? {
      FlexibleIff(s, DecodeFlexible(s).value);
      var e :| Decode(e, s) == DecodeFlexible(s);
      GroupsAlphabet(e, t, i);
      GroupsAlphabet(e, t, j);
    }
  }
}
