/** UTF-16 encoding of Dafny strings, the behaviour of Rust's
    `str::encode_utf16` that tray.rs relies on for the tooltip and for
    `wide_str`, together with a decoder that serves as its inverse. */
module Utf16 {
  import opened Results

  type u16 = x: int | 0 <= x < 0x1_0000

  /** Code units of one Unicode scalar value: itself below U+10000,
      otherwise a high surrogate followed by a low surrogate. */
  function EncodeChar(c: char): (units: seq<u16>)
    ensures |units| == 1 || |units| == 2
    ensures |units| == 1 <==> (c as int) < 0x1_0000
    ensures |units| == 1 ==> units[0] == c as int
    ensures |units| == 2 ==> IsHighSurrogate(units[0]) && IsLowSurrogate(units[1])
    ensures forall k :: 0 <= k < |units| ==> (units[k] == 0 <==> c == '\0')
  {
    var n := c as int;
    if n < 0x1_0000 then [n]
    else
      var m := n - 0x1_0000;
      [0xD800 + m / 0x400, 0xDC00 + m % 0x400]
  }

  predicate IsHighSurrogate(u: u16) { 0xD800 <= u < 0xDC00 }

  predicate IsLowSurrogate(u: u16) { 0xDC00 <= u < 0xE000 }

  function Encode(s: string): (units: seq<u16>)
    ensures |s| <= |units| <= 2 * |s|
  {
    if s == [] then [] else EncodeChar(s[0]) + Encode(s[1..])
  }

  /** Reads a well-formed UTF-16 sequence back into scalar values; `None`
      on an unpaired surrogate. */
  function Decode(units: seq<u16>): (r: Option<string>)
    decreases |units|
  {
    if units == [] then Some([])
    else if !IsHighSurrogate(units[0]) && !IsLowSurrogate(units[0]) then
      match Decode(units[1..])
      case Some(rest) => Some([units[0] as char] + rest)
      case None => None
    else if IsHighSurrogate(units[0]) && |units| >= 2 && IsLowSurrogate(units[1]) then
      var n := 0x1_0000 + (units[0] as int - 0xD800) * 0x400 + (units[1] as int - 0xDC00);
      match Decode(units[2..])
      case Some(rest) => Some([n as char] + rest)
      case None => None
    else None
  }

  lemma EncodeCharPair(c: char)
    requires (c as int) >= 0x1_0000
    ensures 0x1_0000 + (EncodeChar(c)[0] as int - 0xD800) * 0x400 + (EncodeChar(c)[1] as int - 0xDC00) == c as int
  {
    var m := c as int - 0x1_0000;
    assert m == (m / 0x400) * 0x400 + m % 0x400;
  }

  lemma EncodeAppend(a: string, b: string)
    ensures Encode(a + b) == Encode(a) + Encode(b)
  {
    if a != [] {
      assert (a + b)[0] == a[0] && (a + b)[1..] == a[1..] + b;
      EncodeAppend(a[1..], b);
    } else {
      assert a + b == b;
    }
  }

  /** Decoding undoes encoding: no string is lost or altered. */
  lemma {:induction false} DecodeEncode(s: string)
    ensures Decode(Encode(s)) == Some(s)
  {
    if s != [] {
      DecodeEncode(s[1..]);
      var u := EncodeChar(s[0]);
      var tail := Encode(s[1..]);
      assert Encode(s) == u + tail;
      if |u| == 1 {
        assert (u + tail)[1..] == tail;
      } else {
        assert (u + tail)[2..] == tail;
        EncodeCharPair(s[0]);
      }
      assert [s[0]] + s[1..] == s;
    }
  }

  /** A string without NUL characters encodes without any zero unit, so a
      terminating 0 appended to it is the only one. */
  lemma {:induction false} EncodeHasNoZero(s: string)
    requires '\0' !in s
    ensures 0 !in Encode(s)
  {
    if s != [] {
      assert s[0] in s;
      assert forall c :: c in s[1..] ==> c in s;
      EncodeHasNoZero(s[1..]);
      var u := EncodeChar(s[0]);
      assert 0 !in u;
    }
  }

  /** The prefix of `units` before its first 0, as a NUL-terminated reader
      such as the Windows shell sees it. */
  function UntilNul(units: seq<u16>): (prefix: seq<u16>)
    ensures |prefix| <= |units| && prefix == units[..|prefix|]
    ensures 0 !in prefix
    ensures |prefix| < |units| ==> units[|prefix|] == 0
  {
    if units == [] || units[0] == 0 then [] else [units[0]] + UntilNul(units[1..])
  }

  lemma {:induction false} UntilNulOfTerminated(p: seq<u16>, rest: seq<u16>)
    requires 0 !in p
    ensures UntilNul(p + [0] + rest) == p
  {
    if p != [] {
      assert (p + [0] + rest)[1..] == p[1..] + [0] + rest;
      assert forall x :: x in p[1..] ==> x in p;
      UntilNulOfTerminated(p[1..], rest);
    }
  }
}
