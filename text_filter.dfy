/**
 * The two filters of the Chinese/English splitter: the Chinese text is
 * every maximal run of characters in U+4E00..U+9FFF (`findall` of the
 * class with `+`), joined without separator; the English text is the
 * input with every character outside the class `[\a-zA-Z]` deleted.  In
 * that class `\a` is the BEL character U+0007, so `\a-z` is the range
 * U+0007..U+007A and `A-Z` adds nothing: digits, blanks, line breaks and
 * most punctuation are kept.  Reading and writing the files is left out.
 */
module TextFilter {
  import opened Text

  /** A character of the class `[一-鿿]`. */
  predicate IsCjk(c: char)
  {
    0x4E00 <= c as int <= 0x9FFF
  }

  /** A character of the class `[\a-zA-Z]`: U+0007 to 'z'. */
  predicate InEnglishClass(c: char)
  {
    0x07 <= c as int <= 0x7A || 'A' <= c <= 'Z'
  }

  /** The class is one range: 'A'..'Z' lies inside U+0007..'z'. */
  lemma EnglishClassIsRange(c: char)
    ensures InEnglishClass(c) <==> 0x07 <= c as int <= 0x7A
  {
  }

  /** The number of class characters `s` opens with. */
  function RunLength(s: string): (n: nat)
    ensures n <= |s|
    ensures forall i :: 0 <= i < n ==> IsCjk(s[i])
    ensures n < |s| ==> !IsCjk(s[n])
    decreases |s|
  {
    if s == [] || !IsCjk(s[0]) then 0 else 1 + RunLength(s[1..])
  }

  /** `re.findall(r'[一-鿿]+', s)`: the maximal runs of class characters, left to right. */
  function FindAllCjk(s: string): (runs: seq<string>)
    ensures forall k :: 0 <= k < |runs| ==> runs[k] != [] && forall i :: 0 <= i < |runs[k]| ==> IsCjk(runs[k][i])
    decreases |s|
  {
    if s == [] then []
    else if !IsCjk(s[0]) then FindAllCjk(s[1..])
    else
      var n := RunLength(s);
      [s[..n]] + FindAllCjk(s[n..])
  }

  /** `"".join(re.findall(...))`. */
  function ChineseText(s: string): string
  {
    Join(FindAllCjk(s), "")
  }

  /** `re.sub(r'[^\a-zA-Z]', '', s)`. */
  function EnglishText(s: string): (r: string)
    ensures |r| <= |s| && forall i :: 0 <= i < |r| ==> InEnglishClass(r[i])
  {
    Filter(s, InEnglishClass)
  }

  lemma JoinEmptyCons(p: string, ps: seq<string>)
    ensures Join([p] + ps, "") == p + Join(ps, "")
  {
    JoinCons(p, ps, "");
    if ps == [] {
      assert p + Join(ps, "") == p;
    }
  }

  lemma {:induction false} FilterAppend(x: string, y: string, keep: char -> bool)
    ensures Filter(x + y, keep) == Filter(x, keep) + Filter(y, keep)
    decreases |x|
  {
    if x != [] {
      assert (x + y)[1..] == x[1..] + y;
      FilterAppend(x[1..], y, keep);
    } else {
      assert x + y == y;
    }
  }

  /** A run joined back is exactly the class characters of the input: `findall` with `+` and joining loses nothing. */
  lemma {:induction false} ChineseIsFilter(s: string)
    ensures ChineseText(s) == Filter(s, IsCjk)
    decreases |s|
  {
    if s != [] {
      if !IsCjk(s[0]) {
        ChineseIsFilter(s[1..]);
      } else {
        var n := RunLength(s);
        ChineseIsFilter(s[n..]);
        JoinEmptyCons(s[..n], FindAllCjk(s[n..]));
        FilterKeepsAll(s[..n], IsCjk);
        FilterAppend(s[..n], s[n..], IsCjk);
        assert s[..n] + s[n..] == s;
      }
    }
  }

  /** A character is in the output of a filter exactly when it is in the input and passes. */
  lemma {:induction false} FilterMembers(s: string, keep: char -> bool, c: char)
    ensures c in Filter(s, keep) <==> c in s && keep(c)
    decreases |s|
  {
    if s != [] {
      FilterMembers(s[1..], keep, c);
      assert c in s <==> c == s[0] || c in s[1..] by {
        assert s == [s[0]] + s[1..];
      }
    }
  }

  /** The Chinese text holds exactly the input's characters of U+4E00..U+9FFF. */
  lemma ChineseMembers(s: string, c: char)
    ensures c in ChineseText(s) <==> c in s && IsCjk(c)
  {
    ChineseIsFilter(s);
    FilterMembers(s, IsCjk, c);
  }

  /** The English text holds exactly the input's characters of U+0007..'z'. */
  lemma EnglishMembers(s: string, c: char)
    ensures c in EnglishText(s) <==> c in s && 0x07 <= c as int <= 0x7A
  {
    FilterMembers(s, InEnglishClass, c);
  }

  /** Both outputs are the input with characters deleted, order kept. */
  lemma OutputsAreSubsequences(s: string)
    ensures IsSubsequence(ChineseText(s), s)
    ensures IsSubsequence(EnglishText(s), s)
  {
    ChineseIsFilter(s);
    FilterSubsequence(s, IsCjk);
    FilterSubsequence(s, InEnglishClass);
  }

  /** No character can land in both outputs, whatever the two inputs. */
  lemma OutputsDisjoint(s: string, t: string)
    ensures forall i, j :: 0 <= i < |ChineseText(s)| && 0 <= j < |EnglishText(t)| ==> ChineseText(s)[i] != EnglishText(t)[j]
  {
    ChineseIsFilter(s);
  }

  /** Each filter applied to its own output changes nothing. */
  lemma FiltersIdempotent(s: string)
    ensures ChineseText(ChineseText(s)) == ChineseText(s)
    ensures EnglishText(EnglishText(s)) == EnglishText(s)
  {
    ChineseIsFilter(s);
    ChineseIsFilter(ChineseText(s));
    FilterIdempotent(s, IsCjk);
    FilterIdempotent(s, InEnglishClass);
  }

  /** Digits, a blank and '!' survive the English filter; '{' (just past 'z') and a Chinese character do not. */
  lemma EnglishExample()
    ensures EnglishText("a1 !{\U{4E2D}") == "a1 !"
  {
    var s := "a1 !{\U{4E2D}";
    assert s[1..] == "1 !{\U{4E2D}" && s[2..] == " !{\U{4E2D}" && s[3..] == "!{\U{4E2D}";
    assert s[4..] == "{\U{4E2D}" && s[5..] == "\U{4E2D}" && s[6..] == "";
  }
}
