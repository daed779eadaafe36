/**
 * UTF-8 as CPython's codec does it: `str.encode('utf-8')`, and
 * `bytes.decode('utf-8', errors='ignore')`, which drops every byte that
 * does not belong to a well-formed sequence (the table of well-formed
 * sequences in section 3.9 of the Unicode Standard).
 */
module Utf8 {
  import opened Base

  /** The encoding of one code point. */
  function EncodeChar(c: char): (bs: seq<Byte>)
    ensures 1 <= |bs| <= 4
    ensures |bs| == 1 <==> c as int < 0x80
    ensures |bs| == 1 ==> bs[0] == c as int
    ensures |bs| > 1 ==> forall i :: 0 <= i < |bs| ==> bs[i] >= 0x80
  {
    var n := c as int;
    if n < 0x80 then [n]
    else if n < 0x800 then [0xC0 + n / 64, 0x80 + n % 64]
    else if n < 0x10000 then [0xE0 + n / 4096, 0x80 + (n / 64) % 64, 0x80 + n % 64]
    else [0xF0 + n / 262144, 0x80 + (n / 4096) % 64, 0x80 + (n / 64) % 64, 0x80 + n % 64]
  }

  function Encode(s: string): (bs: seq<Byte>)
    ensures |bs| >= |s|
  {
    if s == [] then [] else EncodeChar(s[0]) + Encode(s[1..])
  }

  lemma {:induction false} EncodeAppend(a: string, b: string)
    ensures Encode(a + b) == Encode(a) + Encode(b)
    decreases |a|
  {
    if a == [] {
      assert a + b == b;
    } else {
      assert (a + b)[1..] == a[1..] + b;
      EncodeAppend(a[1..], b);
    }
  }

  predicate IsAscii(s: string)
  {
    forall i :: 0 <= i < |s| ==> s[i] as int < 0x80
  }

  /** ASCII text encodes to its own character codes, one byte each. */
  lemma {:induction false} EncodeAscii(s: string)
    requires IsAscii(s)
    ensures |Encode(s)| == |s|
    ensures forall i :: 0 <= i < |s| ==> Encode(s)[i] == s[i] as int
    decreases |s|
  {
    if s != [] {
      EncodeAscii(s[1..]);
      assert Encode(s) == [s[0] as int] + Encode(s[1..]);
    }
  }

  predicate Cont(b: Byte)
  {
    0x80 <= b <= 0xBF
  }

  /** The length of the well-formed sequence at the start of `bs`, or 0 when there is none. */
  function SeqLen(bs: seq<Byte>): (n: nat)
    requires bs != []
    ensures n <= 4 && n <= |bs|
  {
    var b0 := bs[0];
    if b0 < 0x80 then 1
    else if 0xC2 <= b0 <= 0xDF then
      if |bs| >= 2 && Cont(bs[1]) then 2 else 0
    else if 0xE0 <= b0 <= 0xEF then
      var lo := if b0 == 0xE0 then 0xA0 else 0x80;
      var hi := if b0 == 0xED then 0x9F else 0xBF;
      if |bs| >= 3 && lo <= bs[1] <= hi && Cont(bs[2]) then 3 else 0
    else if 0xF0 <= b0 <= 0xF4 then
      var lo := if b0 == 0xF0 then 0x90 else 0x80;
      var hi := if b0 == 0xF4 then 0x8F else 0xBF;
      if |bs| >= 4 && lo <= bs[1] <= hi && Cont(bs[2]) && Cont(bs[3]) then 4 else 0
    else 0
  }

  /** The code point a well-formed sequence stands for. */
  function CodeOf(bs: seq<Byte>): (c: char)
    requires bs != [] && SeqLen(bs) > 0
  {
    var n := SeqLen(bs);
    var b0: int := bs[0];
    if n == 1 then b0 as char
    else
      var b1: int := bs[1];
      if n == 2 then ((b0 - 0xC0) * 64 + (b1 - 0x80)) as char
      else
        var b2: int := bs[2];
        if n == 3 then ((b0 - 0xE0) * 4096 + (b1 - 0x80) * 64 + (b2 - 0x80)) as char
        else
          var b3: int := bs[3];
          ((b0 - 0xF0) * 262144 + (b1 - 0x80) * 4096 + (b2 - 0x80) * 64 + (b3 - 0x80)) as char
  }

  /** `bytes.decode('utf-8', errors='ignore')`. */
  function Decode(bs: seq<Byte>): (s: string)
    ensures |s| <= |bs|
    decreases |bs|
  {
    if bs == [] then ""
    else
      var n := SeqLen(bs);
      if n == 0 then Decode(bs[1..]) else [CodeOf(bs)] + Decode(bs[n..])
  }

  /** Every character's encoding is recognised as one well-formed sequence, whatever follows it. */
  lemma EncodeCharDecodes(c: char, rest: seq<Byte>)
    ensures var bs := EncodeChar(c) + rest;
      SeqLen(bs) == |EncodeChar(c)| && CodeOf(bs) == c
  {
    var n := c as int;
    if n < 0x80 {
    } else if n < 0x800 {
      TwoByteDecodes(c, rest);
    } else if n < 0x10000 {
      ThreeByteDecodes(c, rest);
    } else {
      FourByteDecodes(c, rest);
    }
  }

  lemma TwoByteDecodes(c: char, rest: seq<Byte>)
    requires 0x80 <= c as int < 0x800
    ensures var bs := EncodeChar(c) + rest;
      SeqLen(bs) == 2 && CodeOf(bs) == c
  {
    var n := c as int;
    assert n == (n / 64) * 64 + n % 64;
  }

  lemma ThreeByteDecodes(c: char, rest: seq<Byte>)
    requires 0x800 <= c as int < 0x10000
    ensures var bs := EncodeChar(c) + rest;
      SeqLen(bs) == 3 && CodeOf(bs) == c
  {
    var n := c as int;
    var bs := EncodeChar(c) + rest;
    var q := n / 64;
    assert n == q * 64 + n % 64;
    assert q == (q / 64) * 64 + q % 64;
    assert n / 4096 == q / 64;
    assert bs[0] == 0xE0 + q / 64 && bs[1] == 0x80 + q % 64;
  }

  lemma FourByteDecodes(c: char, rest: seq<Byte>)
    requires 0x10000 <= c as int
    ensures var bs := EncodeChar(c) + rest;
      SeqLen(bs) == 4 && CodeOf(bs) == c
  {
    var n := c as int;
    var bs := EncodeChar(c) + rest;
    var q := n / 64;
    var r := q / 64;
    assert n == q * 64 + n % 64;
    assert q == r * 64 + q % 64;
    assert r == (r / 64) * 64 + r % 64;
    assert n / 4096 == r;
    assert n / 262144 == r / 64;
    assert bs[0] == 0xF0 + r / 64 && bs[1] == 0x80 + r % 64 && bs[2] == 0x80 + q % 64;
  }

  lemma DecodeStep(bs: seq<Byte>)
    requires bs != [] && SeqLen(bs) > 0
    ensures Decode(bs) == [CodeOf(bs)] + Decode(bs[SeqLen(bs)..])
  {
  }

  /** One encoded character in front of any bytes decodes to that character. */
  lemma DecodeEncodedChar(c: char, t: seq<Byte>)
    ensures Decode(EncodeChar(c) + t) == [c] + Decode(t)
  {
    var e := EncodeChar(c);
    EncodeCharDecodes(c, t);
    DecodeStep(e + t);
    assert (e + t)[|e|..] == t;
  }

  lemma EncodeCons(s: string, bs: seq<Byte>)
    requires s != []
    ensures Encode(s) + bs == EncodeChar(s[0]) + (Encode(s[1..]) + bs)
  {
  }

  lemma AppendStep(s: string, bs: seq<Byte>)
    requires s != []
    requires Decode(Encode(s[1..]) + bs) == s[1..] + Decode(bs)
    ensures Decode(Encode(s) + bs) == s + Decode(bs)
  {
    var t := Encode(s[1..]) + bs;
    calc {
      Decode(Encode(s) + bs);
    == { EncodeCons(s, bs); }
      Decode(EncodeChar(s[0]) + t);
    == { DecodeEncodedChar(s[0], t); }
      [s[0]] + Decode(t);
    ==
      [s[0]] + (s[1..] + Decode(bs));
    == { assert s == [s[0]] + s[1..]; }
      s + Decode(bs);
    }
  }

  /** Decoding distributes over a cut that falls between characters. */
  lemma {:induction false} DecodeAppendEncoded(s: string, bs: seq<Byte>)
    ensures Decode(Encode(s) + bs) == s + Decode(bs)
    decreases |s|
  {
    if s == [] {
      assert Encode(s) + bs == bs;
    } else {
      DecodeAppendEncoded(s[1..], bs);
      AppendStep(s, bs);
    }
  }

  /** Decoding what was encoded gives the text back. */
  lemma DecodeEncode(s: string)
    ensures Decode(Encode(s)) == s
  {
    DecodeAppendEncoded(s, []);
    assert Encode(s) + [] == Encode(s);
  }
}
