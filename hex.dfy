/**
 * Hexadecimal digits and the two library conversions the scripts use:
 * `'%02X' % b` and `bytes.fromhex(s)` (CPython's rules: ASCII whitespace may
 * separate byte pairs, each pair needs two hex digits, anything else is a
 * `ValueError`, modelled as `None`).
 */
module Hex {
  import opened Base
  import Text

  predicate IsHexDigit(c: char)
  {
    ('0' <= c <= '9') || ('a' <= c <= 'f') || ('A' <= c <= 'F')
  }

  /** An upper-case hex digit, the only kind `'%02X'` produces. */
  predicate IsUpperHexDigit(c: char)
  {
    ('0' <= c <= '9') || ('A' <= c <= 'F')
  }

  function HexValue(c: char): (v: nat)
    requires IsHexDigit(c)
    ensures v < 16
  {
    if '0' <= c <= '9' then c as int - '0' as int
    else if 'a' <= c <= 'f' then c as int - 'a' as int + 10
    else c as int - 'A' as int + 10
  }

  function UpperDigit(v: nat): (c: char)
    requires v < 16
    ensures IsUpperHexDigit(c) && HexValue(c) == v
  {
    if v < 10 then ('0' as int + v) as char else ('A' as int + v - 10) as char
  }

  /** `'%02X' % b`: two upper-case digits, high nibble first. */
  function ByteHex(b: Byte): (s: string)
    ensures |s| == 2 && IsUpperHexDigit(s[0]) && IsUpperHexDigit(s[1])
    ensures HexValue(s[0]) * 16 + HexValue(s[1]) == b
  {
    [UpperDigit(b / 16), UpperDigit(b % 16)]
  }

  /** The characters `bytes.fromhex` skips between byte pairs. */
  predicate IsAsciiSpace(c: char)
  {
    c == ' ' || ('\t' <= c <= '\r')
  }

  /** `bytes.fromhex(s)`, with `None` for the `ValueError` cases. */
  function FromHex(s: string): (r: Option<seq<Byte>>)
    ensures r.Some? ==> 2 * |r.value| <= |s|
    decreases |s|
  {
    if s == [] then Some([])
    else if IsAsciiSpace(s[0]) then FromHex(s[1..])
    else if |s| >= 2 && IsHexDigit(s[0]) && IsHexDigit(s[1]) then
      match FromHex(s[2..])
      case None => None
      case Some(rest) => Some([HexValue(s[0]) * 16 + HexValue(s[1])] + rest)
    else None
  }

  /** The digit pairs of `bs`, one string per byte. */
  function Pairs(bs: seq<Byte>): (ps: seq<string>)
    ensures |ps| == |bs|
    ensures forall i :: 0 <= i < |bs| ==> ps[i] == ByteHex(bs[i])
  {
    seq(|bs|, i requires 0 <= i < |bs| => ByteHex(bs[i]))
  }

  /** `' '.join('%02X' % b for b in bs)`. */
  function SpacedHex(bs: seq<Byte>): string
  {
    Text.Join(Pairs(bs), " ")
  }

  /** Without separators: `''.join('%02X' % b for b in bs)`. */
  function CompactHex(bs: seq<Byte>): string
  {
    Text.Join(Pairs(bs), "")
  }

  lemma PairsTail(bs: seq<Byte>)
    requires bs != []
    ensures Pairs(bs) == [ByteHex(bs[0])] + Pairs(bs[1..])
  {
  }

  /** A leading digit pair is decoded into the first byte. */
  lemma FromHexPair(h: string, rest: string)
    requires |h| == 2 && IsHexDigit(h[0]) && IsHexDigit(h[1])
    ensures FromHex(h + rest) == match FromHex(rest)
      case None => None
      case Some(bs) => Some([HexValue(h[0]) * 16 + HexValue(h[1])] + bs)
  {
    assert (h + rest)[2..] == rest;
  }

  /** `bytes.fromhex` reads back what the spaced formatting wrote. */
  lemma {:induction false} FromSpacedHex(bs: seq<Byte>)
    ensures FromHex(SpacedHex(bs)) == Some(bs)
    decreases |bs|
  {
    if |bs| == 1 {
      var h := ByteHex(bs[0]);
      assert SpacedHex(bs) == h == h + [];
      FromHexPair(h, []);
      assert [bs[0]] + [] == bs;
    } else if |bs| > 1 {
      var h := ByteHex(bs[0]);
      var rest := SpacedHex(bs[1..]);
      SpacedHexCons(bs);
      FromSpacedHex(bs[1..]);
      assert (" " + rest)[1..] == rest;
      FromHexPair(h, " " + rest);
      assert [bs[0]] + bs[1..] == bs;
    }
  }

  lemma SpacedHexCons(bs: seq<Byte>)
    requires |bs| > 1
    ensures SpacedHex(bs) == ByteHex(bs[0]) + (" " + SpacedHex(bs[1..]))
  {
    var ps := Pairs(bs);
    PairsTail(bs);
    assert ps[1..] == Pairs(bs[1..]);
    assert Text.Join(ps, " ") == ps[0] + " " + Text.Join(ps[1..], " ");
  }

  /** Every character of the spaced formatting is an upper-case digit or a space. */
  lemma {:induction false} SpacedHexChars(bs: seq<Byte>)
    ensures forall i :: 0 <= i < |SpacedHex(bs)| ==> IsUpperHexDigit(SpacedHex(bs)[i]) || SpacedHex(bs)[i] == ' '
    decreases |bs|
  {
    if |bs| > 1 {
      PairsTail(bs);
      SpacedHexChars(bs[1..]);
      assert SpacedHex(bs) == ByteHex(bs[0]) + " " + SpacedHex(bs[1..]);
    }
  }

  /** `bytes.fromhex` reads back the formatting without separators. */
  lemma {:induction false} FromCompactHex(bs: seq<Byte>)
    ensures FromHex(CompactHex(bs)) == Some(bs)
    ensures |CompactHex(bs)| == 2 * |bs|
    decreases |bs|
  {
    if |bs| == 1 {
      var h := ByteHex(bs[0]);
      assert CompactHex(bs) == h == h + [];
      FromHexPair(h, []);
      assert [bs[0]] + [] == bs;
    } else if |bs| > 1 {
      PairsTail(bs);
      var h := ByteHex(bs[0]);
      var rest := CompactHex(bs[1..]);
      assert CompactHex(bs) == h + "" + rest == h + rest;
      FromCompactHex(bs[1..]);
      FromHexPair(h, rest);
      assert [bs[0]] + bs[1..] == bs;
    }
  }

  /** The formatting without separators consists of upper-case digits only. */
  lemma {:induction false} CompactHexDigits(bs: seq<Byte>)
    ensures forall i :: 0 <= i < |CompactHex(bs)| ==> IsUpperHexDigit(CompactHex(bs)[i])
    decreases |bs|
  {
    if |bs| > 1 {
      PairsTail(bs);
      CompactHexDigits(bs[1..]);
      assert CompactHex(bs) == ByteHex(bs[0]) + "" + CompactHex(bs[1..]);
    } else if |bs| == 1 {
      assert CompactHex(bs) == ByteHex(bs[0]);
    }
  }

  /** An even number of hex digits always decodes, to half as many bytes. */
  lemma {:induction false} FromHexDigits(s: string)
    requires |s| % 2 == 0
    requires forall i :: 0 <= i < |s| ==> IsHexDigit(s[i])
    ensures FromHex(s).Some? && 2 * |FromHex(s).value| == |s|
    decreases |s|
  {
    if s != [] {
      FromHexDigits(s[2..]);
    }
  }

  /** An odd number of hex digits never decodes. */
  lemma {:induction false} FromHexOddDigits(s: string)
    requires |s| % 2 == 1
    requires forall i :: 0 <= i < |s| ==> IsHexDigit(s[i])
    ensures FromHex(s).None?
    decreases |s|
  {
    if |s| > 1 {
      FromHexOddDigits(s[2..]);
    }
  }

  /** A character that is neither a hex digit nor ASCII whitespace makes `fromhex` fail. */
  lemma {:induction false} FromHexRejects(s: string, k: nat)
    requires k < |s| && !IsHexDigit(s[k]) && !IsAsciiSpace(s[k])
    ensures FromHex(s).None?
    decreases |s|
  {
    if k > 0 && IsAsciiSpace(s[0]) {
      FromHexRejects(s[1..], k - 1);
    } else if k > 1 && |s| >= 2 && IsHexDigit(s[0]) && IsHexDigit(s[1]) {
      FromHexRejects(s[2..], k - 2);
    }
  }
}
