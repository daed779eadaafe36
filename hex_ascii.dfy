/**
 * The hex/ASCII converter's two conversions, without the widgets: the text
 * box content goes in, and the result shown, a warning or an error comes out.
 */
module HexAscii {
  import opened Base
  import Text
  import Hex

  datatype Conversion =
    | Converted(text: string)   // shown in the result box
    | EmptyInput                // "please enter ..." warning, nothing converted
    | Failed                    // error dialog, result box left as it was

  /** The text after removing `0x`, then `0X`, then blanks (in that order). */
  function Cleaned(s: string): string
  {
    Text.Replace(Text.Replace(Text.Replace(s, "0x", ""), "0X", ""), " ", "")
  }

  predicate IsAscii(c: char)
  {
    c as int < 128
  }

  /** `bytes.decode("ascii")`: fails on any byte from 0x80 up. */
  function DecodeAscii(bs: seq<Byte>): (r: Option<string>)
    ensures r.Some? <==> forall i :: 0 <= i < |bs| ==> bs[i] < 128
    ensures r.Some? ==> |r.value| == |bs| && forall i :: 0 <= i < |bs| ==> r.value[i] as int == bs[i]
  {
    if forall i :: 0 <= i < |bs| ==> bs[i] < 128 then
      Some(seq(|bs|, i requires 0 <= i < |bs| => bs[i] as char))
    else None
  }

  /** `str.encode("ascii")`: fails on any character from U+0080 up. */
  function EncodeAscii(s: string): (r: Option<seq<Byte>>)
    ensures r.Some? <==> forall i :: 0 <= i < |s| ==> IsAscii(s[i])
    ensures r.Some? ==> |r.value| == |s| && forall i :: 0 <= i < |s| ==> r.value[i] == s[i] as int
  {
    if forall i :: 0 <= i < |s| ==> IsAscii(s[i]) then
      Some(seq(|s|, i requires 0 <= i < |s| => s[i] as int))
    else None
  }

  /** `hex_to_ascii` on the text box content. */
  function HexToAscii(input: string): (r: Conversion)
    ensures r == EmptyInput <==> Text.Strip(input) == []
    ensures r.Converted? ==> |Cleaned(Text.Strip(input))| % 2 == 0
    ensures r.Converted? ==> forall i :: 0 <= i < |r.text| ==> IsAscii(r.text[i])
  {
    var s := Text.Strip(input);
    if s == [] then EmptyInput
    else
      var t := Cleaned(s);
      if |t| % 2 != 0 then Failed
      else
        match Hex.FromHex(t)
        case None => Failed
        case Some(bs) =>
          match DecodeAscii(bs)
          case None => Failed
          case Some(text) => Converted(text)
  }

  /** `ascii_to_hex` on the text box content. */
  function AsciiToHex(input: string): (r: Conversion)
    ensures r == EmptyInput <==> Text.Strip(input) == []
    ensures r == Failed <==> Text.Strip(input) != [] && exists i :: 0 <= i < |Text.Strip(input)| && !IsAscii(Text.Strip(input)[i])
    ensures r.Converted? ==> |r.text| == 3 * |Text.Strip(input)| - 1
  {
    var s := Text.Strip(input);
    if s == [] then EmptyInput
    else
      match EncodeAscii(s)
      case None => Failed
      case Some(bs) =>
        SpacedLength(bs);
        Converted(Hex.SpacedHex(bs))
  }

  lemma {:induction false} SpacedLength(bs: seq<Byte>)
    requires bs != []
    ensures |Hex.SpacedHex(bs)| == 3 * |bs| - 1
    decreases |bs|
  {
    if |bs| > 1 {
      Hex.SpacedHexCons(bs);
      SpacedLength(bs[1..]);
    } else {
      assert Hex.SpacedHex(bs) == Hex.ByteHex(bs[0]);
    }
  }

  /** An odd count after the clean-up is an error. */
  lemma OddLengthFails(input: string)
    requires Text.Strip(input) != [] && |Cleaned(Text.Strip(input))| % 2 == 1
    ensures HexToAscii(input) == Failed
  {
  }

  /** A byte from 0x80 up cannot be shown as ASCII. */
  lemma HighByteFails(input: string, bs: seq<Byte>, k: nat)
    requires Text.Strip(input) != [] && Hex.FromHex(Cleaned(Text.Strip(input))) == Some(bs)
    requires k < |bs| && bs[k] >= 128
    ensures HexToAscii(input) == Failed
  {
  }

  /** A character that is neither a hex digit nor whitespace is an error. */
  lemma NonHexFails(input: string, k: nat)
    requires Text.Strip(input) != []
    requires k < |Cleaned(Text.Strip(input))|
    requires !Hex.IsHexDigit(Cleaned(Text.Strip(input))[k]) && !Hex.IsAsciiSpace(Cleaned(Text.Strip(input))[k])
    ensures HexToAscii(input) == Failed
  {
    Hex.FromHexRejects(Cleaned(Text.Strip(input)), k);
  }

  /** Removing the blanks of the spaced formatting leaves the bare digit pairs. */
  lemma {:induction false} UnspacedHex(bs: seq<Byte>)
    ensures Text.Replace(Hex.SpacedHex(bs), " ", "") == Hex.CompactHex(bs)
    decreases |bs|
  {
    if |bs| >= 1 {
      var h := Hex.ByteHex(bs[0]);
      Text.ReplaceAbsent(h, " ", "", 0);
      if |bs| == 1 {
        assert Hex.SpacedHex(bs) == h && Hex.CompactHex(bs) == h;
      } else {
        Hex.SpacedHexCons(bs);
        CompactCons(bs);
        UnspacedHex(bs[1..]);
        Text.ReplaceCharAppend(h, " " + Hex.SpacedHex(bs[1..]), ' ', "");
        Text.ReplaceCharAppend(" ", Hex.SpacedHex(bs[1..]), ' ', "");
      }
    }
  }

  lemma CompactCons(bs: seq<Byte>)
    requires |bs| > 1
    ensures Hex.CompactHex(bs) == Hex.ByteHex(bs[0]) + Hex.CompactHex(bs[1..])
  {
    var ps := Hex.Pairs(bs);
    Hex.PairsTail(bs);
    assert ps[1..] == Hex.Pairs(bs[1..]);
    assert Text.Join(ps, "") == ps[0] + "" + Text.Join(ps[1..], "");
  }

  /**
   * Converting an ASCII text to hex and back gives the text again, for a
   * text without whitespace at either end (the box content is stripped).
   */
  lemma RoundTrip(s: string)
    requires s != [] && Text.Strip(s) == s
    requires forall i :: 0 <= i < |s| ==> IsAscii(s[i])
    ensures AsciiToHex(s).Converted? && HexToAscii(AsciiToHex(s).text) == Converted(s)
  {
    var e := EncodeAscii(s);
    assert e.Some?;
    var bs := e.value;
    assert AsciiToHex(s) == Converted(Hex.SpacedHex(bs));
    DecodeEncoded(s, bs);
    SpacedReadBack(bs, s);
  }

  /** The hex-to-ASCII direction applied to the spaced formatting of ASCII bytes. */
  lemma SpacedReadBack(bs: seq<Byte>, text: string)
    requires bs != [] && DecodeAscii(bs) == Some(text)
    ensures HexToAscii(Hex.SpacedHex(bs)) == Converted(text)
  {
    var h := Hex.SpacedHex(bs);
    SpacedStripped(bs);
    SpacedLength(bs);
    CleanedSpaced(bs);
    Hex.FromCompactHex(bs);
    DoubleEven(|bs|);
    HexToAsciiSteps(h, Hex.CompactHex(bs), bs, text);
  }

  /** The successful path of `hex_to_ascii`, step by step. */
  lemma HexToAsciiSteps(input: string, t: string, bs: seq<Byte>, text: string)
    requires input != [] && Text.Strip(input) == input && Cleaned(input) == t
    requires |t| % 2 == 0 && Hex.FromHex(t) == Some(bs) && DecodeAscii(bs) == Some(text)
    ensures HexToAscii(input) == Converted(text)
  {
  }

  lemma DecodeEncoded(s: string, bs: seq<Byte>)
    requires EncodeAscii(s) == Some(bs)
    ensures DecodeAscii(bs) == Some(s)
  {
    assert forall i :: 0 <= i < |bs| ==> bs[i] < 128 by {
      forall i | 0 <= i < |bs| ensures bs[i] < 128 {
        assert IsAscii(s[i]);
      }
    }
    var text := DecodeAscii(bs).value;
    assert |text| == |s|;
    forall i | 0 <= i < |s| ensures text[i] == s[i] {
      assert text[i] as int == bs[i] == s[i] as int;
    }
    assert text == s;
  }

  lemma SpacedStripped(bs: seq<Byte>)
    ensures Text.Strip(Hex.SpacedHex(bs)) == Hex.SpacedHex(bs)
  {
    if bs != [] {
      SpacedEnds(bs);
    }
    Text.StripKeeps(Hex.SpacedHex(bs));
  }

  lemma CleanedSpaced(bs: seq<Byte>)
    ensures Cleaned(Hex.SpacedHex(bs)) == Hex.CompactHex(bs)
  {
    var h := Hex.SpacedHex(bs);
    Hex.SpacedHexChars(bs);
    assert 'x' !in h && 'X' !in h;
    Text.ReplaceAbsent(h, "0x", "", 1);
    Text.ReplaceAbsent(h, "0X", "", 1);
    UnspacedHex(bs);
  }

  /** The spaced formatting starts and ends with a digit. */
  lemma {:induction false} SpacedEnds(bs: seq<Byte>)
    requires bs != []
    ensures |Hex.SpacedHex(bs)| >= 2
    ensures Hex.IsUpperHexDigit(Hex.SpacedHex(bs)[0])
    ensures Hex.IsUpperHexDigit(Hex.SpacedHex(bs)[|Hex.SpacedHex(bs)| - 1])
    decreases |bs|
  {
    if |bs| > 1 {
      Hex.SpacedHexCons(bs);
      SpacedEnds(bs[1..]);
    } else {
      assert Hex.SpacedHex(bs) == Hex.ByteHex(bs[0]);
    }
  }

  lemma DoubleEven(n: nat)
    ensures (2 * n) % 2 == 0
  {
  }
}
