/**
 * The serial test tool: hex helpers, the PASS/FAILURE verdict comparing an
 * expected hex string with the bytes a device sent back, importing test
 * cases from a table and running them as a batch.
 */
module SerialTest {
  import opened Base
  import Text
  import Hex

  /** `upper()` restricted to the ASCII letters (all this tool ever feeds it). */
  function UpperChar(c: char): (d: char)
  {
    if 'a' <= c <= 'z' then (c as int - 32) as char else c
  }

  function Upper(s: string): (r: string)
    ensures |r| == |s|
    ensures forall i :: 0 <= i < |s| ==> r[i] == UpperChar(s[i])
  {
    seq(|s|, i requires 0 <= i < |s| => UpperChar(s[i]))
  }

  /** `re.sub(r'[^0-9A-Fa-f]', '', s)`. */
  function HexOnly(s: string): (r: string)
    ensures |r| <= |s| && forall i :: 0 <= i < |r| ==> Hex.IsHexDigit(r[i])
  {
    Text.Filter(s, Hex.IsHexDigit)
  }

  /**
   * `hex_string_to_bytes`: strip every non-hex character, refuse an odd
   * number of digits, decode the rest.
   */
  function HexStringToBytes(s: string): (r: Option<seq<Byte>>)
    ensures r.None? <==> |HexOnly(s)| % 2 == 1
    ensures r.Some? ==> 2 * |r.value| == |HexOnly(s)|
  {
    var digits := HexOnly(s);
    if |digits| % 2 != 0 then None
    else
      Hex.FromHexDigits(digits);
      Hex.FromHex(digits)
  }

  /** `bytes_to_hex_string`: upper-case pairs separated by single spaces. */
  function BytesToHex(bs: seq<Byte>): (s: string)
    ensures |s| == if bs == [] then 0 else 3 * |bs| - 1
  {
    SpacedHexLength(bs);
    Hex.SpacedHex(bs)
  }

  lemma {:induction false} SpacedHexLength(bs: seq<Byte>)
    ensures |Hex.SpacedHex(bs)| == if bs == [] then 0 else 3 * |bs| - 1
    decreases |bs|
  {
    if |bs| > 1 {
      Hex.SpacedHexCons(bs);
      SpacedHexLength(bs[1..]);
    } else if |bs| == 1 {
      assert Hex.SpacedHex(bs) == Hex.ByteHex(bs[0]);
    }
  }

  /** `normalize_hex`: only hex digits, upper-cased. */
  function NormalizeHex(s: string): (r: string)
    ensures forall i :: 0 <= i < |r| ==> Hex.IsUpperHexDigit(r[i])
  {
    Upper(HexOnly(s))
  }

  predicate HexOrSpace(c: char)
  {
    Hex.IsHexDigit(c) || Text.IsSpace(c)
  }

  /** `re.sub(r'\s+', ' ', s)`: every run of whitespace becomes one blank. */
  function CollapseSpace(s: string): (r: string)
    decreases |s|
  {
    if s == [] then []
    else if Text.IsSpace(s[0]) then
      " " + CollapseSpace(Text.TrimLeft(s))
    else [s[0]] + CollapseSpace(s[1..])
  }

  /**
   * `normalize_hex_with_spaces`: drop everything but hex digits and
   * whitespace, upper-case, collapse whitespace runs, strip.
   */
  function NormalizeHexWithSpaces(s: string): string
  {
    Text.Strip(CollapseSpace(Upper(Text.Filter(s, HexOrSpace))))
  }

  /** The shape `normalize_hex_with_spaces` produces. */
  predicate NormalSpaced(t: string)
  {
    && (forall i :: 0 <= i < |t| ==> Hex.IsUpperHexDigit(t[i]) || t[i] == ' ')
    && (forall i :: 0 <= i < |t| - 1 ==> t[i] == ' ' ==> t[i + 1] != ' ')
    && (t != [] ==> t[0] != ' ' && t[|t| - 1] != ' ')
  }

  // ---------------------------------------------------------------- verdict

  /** PASS iff the two normalised hex strings are equal. */
  predicate Verdict(expected: string, received: seq<Byte>)
  {
    NormalizeHex(expected) == NormalizeHex(BytesToHex(received))
  }

  // ------------------------------------------------- filter and case lemmas

  lemma {:induction false} FilterAppend(a: string, b: string, keep: char -> bool)
    ensures Text.Filter(a + b, keep) == Text.Filter(a, keep) + Text.Filter(b, keep)
    decreases |a|
  {
    if a != [] {
      FilterAppend(a[1..], b, keep);
      assert (a + b)[1..] == a[1..] + b;
    } else {
      assert a + b == b;
    }
  }

  lemma {:induction false} HexOnlySpaces(s: string)
    requires Text.AllSpace(s)
    ensures HexOnly(s) == []
    decreases |s|
  {
    if s != [] {
      HexOnlySpaces(s[1..]);
    }
  }

  /** Upper-casing neither creates nor destroys hex digits. */
  lemma {:induction false} HexOnlyUpper(s: string)
    ensures HexOnly(Upper(s)) == Upper(HexOnly(s))
    decreases |s|
  {
    if s != [] {
      HexOnlyUpper(s[1..]);
      assert Upper(s)[1..] == Upper(s[1..]);
      var t := HexOnly(s[1..]);
      if Hex.IsHexDigit(s[0]) {
        assert Upper([s[0]] + t) == [UpperChar(s[0])] + Upper(t);
      }
    }
  }

  lemma UpperAppend(a: string, b: string)
    ensures Upper(a + b) == Upper(a) + Upper(b)
  {
  }

  lemma UpperIdempotent(s: string)
    ensures Upper(Upper(s)) == Upper(s)
  {
  }

  /** Collapsing whitespace leaves the hex digits alone. */
  lemma {:induction false} HexOnlyCollapse(s: string)
    ensures HexOnly(CollapseSpace(s)) == HexOnly(s)
    decreases |s|
  {
    if s != [] {
      if Text.IsSpace(s[0]) {
        var rest := Text.TrimLeft(s);
        Text.TrimLeftShape(s);
        HexOnlyCollapse(rest);
        assert s == s[..|s| - |rest|] + rest;
        FilterAppend(s[..|s| - |rest|], rest, Hex.IsHexDigit);
        HexOnlySpaces(s[..|s| - |rest|]);
        FilterAppend(" ", CollapseSpace(rest), Hex.IsHexDigit);
      } else {
        HexOnlyCollapse(s[1..]);
        FilterAppend([s[0]], CollapseSpace(s[1..]), Hex.IsHexDigit);
        FilterAppend([s[0]], s[1..], Hex.IsHexDigit);
        assert s == [s[0]] + s[1..];
      }
    }
  }

  /** Stripping leaves the hex digits alone. */
  lemma HexOnlyStrip(s: string)
    ensures HexOnly(Text.Strip(s)) == HexOnly(s)
  {
    var i, j := Text.StripSlice(s);
    var a, b, c := s[..i], s[i..j], s[j..];
    assert s == a + b + c;
    HexOnlyAround(a, b, c);
    assert HexOnly(s) == HexOnly(b);
    assert Text.Strip(s) == b;
  }

  lemma HexOnlyAround(a: string, b: string, c: string)
    requires Text.AllSpace(a) && Text.AllSpace(c)
    ensures HexOnly(a + b + c) == HexOnly(b)
  {
    FilterAppend(a + b, c, Hex.IsHexDigit);
    FilterAppend(a, b, Hex.IsHexDigit);
    HexOnlySpaces(a);
    HexOnlySpaces(c);
  }

  /** Keeping hex digits and spaces first does not change which hex digits survive. */
  lemma {:induction false} HexOnlyAfterSpacedFilter(s: string)
    ensures HexOnly(Text.Filter(s, HexOrSpace)) == HexOnly(s)
    decreases |s|
  {
    if s != [] {
      HexOnlyAfterSpacedFilter(s[1..]);
      var t := Text.Filter(s[1..], HexOrSpace);
      if HexOrSpace(s[0]) {
        assert Text.Filter(s, HexOrSpace) == [s[0]] + t;
        assert ([s[0]] + t)[1..] == t;
      } else {
        assert Text.Filter(s, HexOrSpace) == t;
      }
    }
  }

  /** The spaced normalisation keeps exactly the hex digits of the input. */
  lemma NormalizeAfterSpaced(s: string)
    ensures NormalizeHex(NormalizeHexWithSpaces(s)) == NormalizeHex(s)
  {
    var f := Text.Filter(s, HexOrSpace);
    var c := CollapseSpace(Upper(f));
    HexOnlyStrip(c);
    HexOnlyCollapse(Upper(f));
    HexOnlyUpper(f);
    HexOnlyAfterSpacedFilter(s);
    UpperIdempotent(HexOnly(s));
  }

  /** `normalize_hex` is idempotent. */
  lemma NormalizeHexIdempotent(s: string)
    ensures NormalizeHex(NormalizeHex(s)) == NormalizeHex(s)
  {
    var n := NormalizeHex(s);
    Text.FilterKeepsAll(n, Hex.IsHexDigit);
    UpperIdempotent(HexOnly(s));
  }

  /** The received bytes normalise to their digits without separators. */
  lemma {:induction false} NormalizeReceived(bs: seq<Byte>)
    ensures NormalizeHex(BytesToHex(bs)) == Hex.CompactHex(bs)
    decreases |bs|
  {
    Hex.CompactHexDigits(bs);
    HexOnlySpacedHex(bs);
    assert forall i :: 0 <= i < |Hex.CompactHex(bs)| ==> UpperChar(Hex.CompactHex(bs)[i]) == Hex.CompactHex(bs)[i];
  }

  lemma {:induction false} HexOnlySpacedHex(bs: seq<Byte>)
    ensures HexOnly(Hex.SpacedHex(bs)) == Hex.CompactHex(bs)
    decreases |bs|
  {
    if |bs| == 1 {
      var h := Hex.ByteHex(bs[0]);
      assert Hex.SpacedHex(bs) == h && Hex.CompactHex(bs) == h;
      Text.FilterKeepsAll(h, Hex.IsHexDigit);
    } else if |bs| > 1 {
      var h := Hex.ByteHex(bs[0]);
      Hex.SpacedHexCons(bs);
      CompactHexCons(bs);
      HexOnlySpacedHex(bs[1..]);
      FilterAppend(h, " " + Hex.SpacedHex(bs[1..]), Hex.IsHexDigit);
      FilterAppend(" ", Hex.SpacedHex(bs[1..]), Hex.IsHexDigit);
      Text.FilterKeepsAll(h, Hex.IsHexDigit);
    }
  }

  lemma CompactHexCons(bs: seq<Byte>)
    requires |bs| > 1
    ensures Hex.CompactHex(bs) == Hex.ByteHex(bs[0]) + Hex.CompactHex(bs[1..])
  {
    var ps := Hex.Pairs(bs);
    Hex.PairsTail(bs);
    assert ps[1..] == Hex.Pairs(bs[1..]);
    assert Text.Join(ps, "") == ps[0] + "" + Text.Join(ps[1..], "");
  }

  /** `hex_string_to_bytes(bytes_to_hex_string(b)) == b`. */
  lemma BytesRoundTrip(bs: seq<Byte>)
    ensures HexStringToBytes(BytesToHex(bs)) == Some(bs)
  {
    HexOnlySpacedHex(bs);
    Hex.FromCompactHex(bs);
  }

  /** PASS means the expected digits, upper-cased, are exactly the received pairs. */
  lemma VerdictMeaning(expected: string, received: seq<Byte>)
    ensures Verdict(expected, received) <==> NormalizeHex(expected) == Hex.CompactHex(received)
  {
    NormalizeReceived(received);
  }

  // ------------------------------------------------------ spaced idempotence

  lemma {:induction false} CollapseNormal(t: string)
    requires forall i :: 0 <= i < |t| ==> !Text.IsSpace(t[i]) || t[i] == ' '
    requires forall i :: 0 <= i < |t| - 1 ==> t[i] == ' ' ==> t[i + 1] != ' '
    ensures CollapseSpace(t) == t
    decreases |t|
  {
    if t != [] {
      if Text.IsSpace(t[0]) {
        var rest := Text.TrimLeft(t);
        Text.TrimLeftShape(t);
        if |t| > 1 {
          assert !Text.IsSpace(t[1]);
          assert rest == t[1..];
        } else {
          assert rest == [];
        }
        CollapseNormal(rest);
        assert t == " " + t[1..];
      } else {
        CollapseNormal(t[1..]);
        assert t == [t[0]] + t[1..];
      }
    }
  }

  lemma {:induction false} CollapseShape(s: string)
    requires forall i :: 0 <= i < |s| ==> Hex.IsUpperHexDigit(s[i]) || Text.IsSpace(s[i])
    ensures forall i :: 0 <= i < |CollapseSpace(s)| ==> Hex.IsUpperHexDigit(CollapseSpace(s)[i]) || CollapseSpace(s)[i] == ' '
    ensures forall i :: 0 <= i < |CollapseSpace(s)| - 1 ==> CollapseSpace(s)[i] == ' ' ==> CollapseSpace(s)[i + 1] != ' '
    ensures CollapseSpace(s) != [] && CollapseSpace(s)[0] != ' ' ==> s != [] && !Text.IsSpace(s[0])
    decreases |s|
  {
    if s != [] {
      if Text.IsSpace(s[0]) {
        var rest := Text.TrimLeft(s);
        Text.TrimLeftShape(s);
        assert rest == s[|s| - |rest|..];
        CollapseShape(rest);
      } else {
        CollapseShape(s[1..]);
      }
    }
  }

  lemma StripShape(c: string)
    requires forall i :: 0 <= i < |c| ==> Hex.IsUpperHexDigit(c[i]) || c[i] == ' '
    requires forall i :: 0 <= i < |c| - 1 ==> c[i] == ' ' ==> c[i + 1] != ' '
    ensures NormalSpaced(Text.Strip(c))
  {
    var i, j := Text.StripSlice(c);
    var r := c[i..j];
    assert Text.Strip(c) == r;
    assert r != [] ==> c[i] != ' ' && c[j - 1] != ' ';
    SliceShape(c, i, j);
  }

  lemma SliceShape(c: string, i: nat, j: nat)
    requires i <= j <= |c|
    requires forall k :: 0 <= k < |c| ==> Hex.IsUpperHexDigit(c[k]) || c[k] == ' '
    requires forall k :: 0 <= k < |c| - 1 ==> c[k] == ' ' ==> c[k + 1] != ' '
    requires i < j ==> c[i] != ' ' && c[j - 1] != ' '
    ensures NormalSpaced(c[i..j])
  {
    var r := c[i..j];
    assert forall k :: 0 <= k < |r| ==> r[k] == c[i + k];
  }

  /** The output always has the normal spaced shape. */
  lemma NormalizeSpacedShape(s: string)
    ensures NormalSpaced(NormalizeHexWithSpaces(s))
  {
    var u := Upper(Text.Filter(s, HexOrSpace));
    assert forall i :: 0 <= i < |u| ==> Hex.IsUpperHexDigit(u[i]) || Text.IsSpace(u[i]);
    CollapseShape(u);
    StripShape(CollapseSpace(u));
  }

  /** A string of the normal spaced shape is its own normalisation. */
  lemma NormalSpacedFixed(t: string)
    requires NormalSpaced(t)
    ensures NormalizeHexWithSpaces(t) == t
  {
    assert Text.Filter(t, HexOrSpace) == t by {
      Text.FilterKeepsAll(t, HexOrSpace);
    }
    assert Upper(t) == t by {
      assert forall i :: 0 <= i < |t| ==> UpperChar(t[i]) == t[i];
    }
    assert CollapseSpace(t) == t by {
      CollapseNormal(t);
    }
    assert Text.Strip(t) == t by {
      Text.StripKeeps(t);
    }
  }

  /** `normalize_hex_with_spaces` is idempotent. */
  lemma NormalizeSpacedIdempotent(s: string)
    ensures NormalizeHexWithSpaces(NormalizeHexWithSpaces(s)) == NormalizeHexWithSpaces(s)
  {
    NormalizeSpacedShape(s);
    NormalSpacedFixed(NormalizeHexWithSpaces(s));
  }

  // ------------------------------------------------------------ test cases

  datatype Status = Pending | Pass | Failure | FormatError | Error

  datatype TestCase = TestCase(index: nat, send: string, expected: string, actual: string, status: Status)

  /** One table row as `str(row[0])`, `str(row[1])`. */
  datatype Row = Row(send: string, expected: string)

  /** The normalised send and expected texts of a row that is kept, if it is. */
  function RowData(row: Row): (r: Option<(string, string)>)
    ensures r.Some? ==> r.value.0 != [] && r.value.1 != []
    ensures r.Some? ==> NormalSpaced(r.value.0) && NormalSpaced(r.value.1)
  {
    var s := Text.Strip(row.send);
    var e := Text.Strip(row.expected);
    if s == [] || e == [] then None
    else
      var s' := NormalizeHexWithSpaces(s);
      var e' := NormalizeHexWithSpaces(e);
      NormalizeSpacedShape(s);
      NormalizeSpacedShape(e);
      if s' != [] && e' != [] then Some((s', e')) else None
  }

  /** The case built from a kept row after `n` cases were already imported. */
  function NewCase(data: (string, string), n: nat): TestCase
  {
    TestCase(n + 1, data.0, data.1, "", Pending)
  }

  /** The cases `import_test_cases` builds from a table, in row order. */
  function Imported(rows: seq<Row>): (cs: seq<TestCase>)
    ensures |cs| <= |rows|
    decreases |rows|
  {
    if rows == [] then []
    else
      var prev := Imported(rows[..|rows| - 1]);
      match RowData(rows[|rows| - 1])
      case None => prev
      case Some(d) => prev + [NewCase(d, |prev|)]
  }

  /** Cases numbered 1, 2, ... in order, and all pending. */
  predicate Numbered(cs: seq<TestCase>)
  {
    forall k :: 0 <= k < |cs| ==> cs[k].index == k + 1 && cs[k].status == Pending
  }

  lemma NumberedSnoc(cs: seq<TestCase>, d: (string, string))
    requires Numbered(cs)
    ensures Numbered(cs + [NewCase(d, |cs|)])
  {
    var cs' := cs + [NewCase(d, |cs|)];
    forall k | 0 <= k < |cs'|
      ensures cs'[k].index == k + 1 && cs'[k].status == Pending
    {
      if k < |cs| {
        assert cs'[k] == cs[k];
      }
    }
  }

  /** The imported cases are numbered 1, 2, ... in order, whatever rows were skipped, and all pending. */
  lemma {:induction false} ImportedNumbered(rows: seq<Row>)
    ensures Numbered(Imported(rows))
    decreases |rows|
  {
    if rows != [] {
      var init := rows[..|rows| - 1];
      ImportedNumbered(init);
      var next := RowData(rows[|rows| - 1]);
      if next.Some? {
        NumberedSnoc(Imported(init), next.value);
      }
    }
  }

  /** A row that is blank after `strip` contributes no case. */
  lemma BlankRowSkipped(rows: seq<Row>, row: Row)
    requires Text.AllSpace(row.send) || Text.AllSpace(row.expected)
    ensures Imported(rows + [row]) == Imported(rows)
  {
    assert (rows + [row])[..|rows|] == rows;
  }

  /**
   * How one exchange with the port went: `reset_input_buffer` raised
   * before anything else was looked at, a later step (the write, the wait
   * or the read) raised, or the port returned `rx`.
   */
  datatype Exchange = ResetRaised | Raised | Replied(rx: seq<Byte>)

  /** The state of one case after it was run against the port. */
  function RunCase(c: TestCase, ex: Exchange): (r: TestCase)
    ensures r.index == c.index && r.send == c.send && r.expected == c.expected
    ensures r.status == FormatError <==> !ex.ResetRaised? && HexStringToBytes(c.send).None?
    ensures r.status == Error <==> ex.ResetRaised? || (HexStringToBytes(c.send).Some? && ex.Raised?)
    ensures r.status == Pass <==> HexStringToBytes(c.send).Some? && ex.Replied? && Verdict(c.expected, ex.rx)
    ensures r.status == Failure <==> HexStringToBytes(c.send).Some? && ex.Replied? && !Verdict(c.expected, ex.rx)
    ensures r.status == Pass || r.status == Failure ==> r.actual == BytesToHex(ex.rx)
  {
    if ex.ResetRaised? then c.(status := Error, actual := "测试执行错误")
    else
      match HexStringToBytes(c.send)
      case None => c.(status := FormatError, actual := "无效的发送数据")
      case Some(_) =>
        match ex
        case Raised => c.(status := Error, actual := "测试执行错误")
        case Replied(rx) => c.(status := if Verdict(c.expected, rx) then Pass else Failure, actual := BytesToHex(rx))
  }

  /** The buffer reset comes first: when it raises, even a malformed send is an execution error. */
  lemma ResetBeforeFormat(c: TestCase)
    requires HexStringToBytes(c.send).None?
    ensures RunCase(c, ResetRaised).status == Error
    ensures forall rx :: RunCase(c, Replied(rx)).status == FormatError
  {
  }

  function CountPass(cs: seq<TestCase>): (n: nat)
    ensures n <= |cs|
  {
    if cs == [] then 0 else CountPass(cs[..|cs| - 1]) + (if cs[|cs| - 1].status == Pass then 1 else 0)
  }

  /** Index of the first case before which the stop flag is seen, or `n`. */
  function StopPoint(stop: seq<bool>, n: nat): (k: nat)
    requires |stop| >= n
    ensures k <= n && (k < n ==> stop[k]) && forall j :: 0 <= j < k ==> !stop[j]
  {
    if n == 0 then 0
    else
      var k := StopPoint(stop, n - 1);
      if k < n - 1 then k else if stop[n - 1] then n - 1 else n
  }

  /**
   * The tool's state: the imported cases. `ImportTestCases` and
   * `DoBatchTest` update them in place.
   */
  class SerialTester {
    var testCases: seq<TestCase>

    constructor ()
      ensures testCases == []
    {
      testCases := [];
    }

    /** `import_test_cases` applied to the rows of a table with two columns. */
    method ImportTestCases(rows: seq<Row>)
      modifies this
      ensures testCases == Imported(rows)
    {
      testCases := [];
      var i := 0;
      while i < |rows|
        invariant 0 <= i <= |rows|
        invariant testCases == Imported(rows[..i])
      {
        assert rows[..i + 1][..i] == rows[..i];
        var next := RowData(rows[i]);
        if next.Some? {
          testCases := testCases + [NewCase(next.value, |testCases|)];
        }
        i := i + 1;
      }
      assert rows[..|rows|] == rows;
    }

    /**
     * `do_batch_test`: `stop[i]` is the stop flag as seen before case `i`,
     * `replies[i]` how its exchange with the port went.  Cases from the
     * stop point on are not touched.
     */
    method DoBatchTest(stop: seq<bool>, replies: seq<Exchange>) returns (passed: nat)
      requires |stop| == |testCases| && |replies| == |testCases|
      modifies this
      ensures |testCases| == |old(testCases)|
      ensures var k := StopPoint(stop, |testCases|);
        && (forall j :: 0 <= j < k ==> testCases[j] == RunCase(old(testCases)[j], replies[j]))
        && (forall j :: k <= j < |testCases| ==> testCases[j] == old(testCases)[j])
        && passed == CountPass(testCases[..k])
    {
      var cs := testCases;
      ghost var orig := testCases;
      var n := |cs|;
      ghost var k := StopPoint(stop, n);
      passed := 0;
      var i := 0;
      while i < n && !stop[i]
        invariant 0 <= i <= k
        invariant |cs| == n
        invariant forall j :: 0 <= j < i ==> cs[j] == RunCase(orig[j], replies[j])
        invariant forall j :: i <= j < n ==> cs[j] == orig[j]
        invariant passed == CountPass(cs[..i])
      {
        assert i != k by {
          assert k < n ==> stop[k];
        }
        cs, passed := RunOne(cs, orig, replies, i, passed);
        i := i + 1;
      }
      assert i == k by {
        assert i < n ==> stop[i];
        assert forall j :: 0 <= j < k ==> !stop[j];
      }
      testCases := cs;
    }
  }

  /**
   * The stop flags a batch of the tool as written sees: the instance
   * attribute `stop_batch_test` is set to `False` before the widgets are
   * built, so the stop button is bound to that `False` rather than to the
   * method of the same name, a click raises instead of setting the flag,
   * and starting a batch sets it to `False` again.
   */
  function StopFlagsAsWritten(n: nat): (stop: seq<bool>)
    ensures |stop| == n && forall j :: 0 <= j < n ==> !stop[j]
  {
    seq(n, _ => false)
  }

  /** As written, no batch can be stopped: `DoBatchTest` then runs and counts every case. */
  lemma StopNeverSeen(n: nat)
    ensures StopPoint(StopFlagsAsWritten(n), n) == n
  {
  }

  /** One pass of the batch loop: case `i` is run and counted. */
  method RunOne(cs: seq<TestCase>, ghost orig: seq<TestCase>, replies: seq<Exchange>, i: nat, passed: nat)
    returns (cs': seq<TestCase>, passed': nat)
    requires i < |cs| == |orig| && |replies| == |cs|
    requires forall j :: 0 <= j < i ==> cs[j] == RunCase(orig[j], replies[j])
    requires forall j :: i <= j < |cs| ==> cs[j] == orig[j]
    requires passed == CountPass(cs[..i])
    ensures |cs'| == |cs|
    ensures forall j :: 0 <= j < i + 1 ==> cs'[j] == RunCase(orig[j], replies[j])
    ensures forall j :: i + 1 <= j < |cs| ==> cs'[j] == orig[j]
    ensures passed' == CountPass(cs'[..i + 1])
  {
    var c := RunCase(cs[i], replies[i]);
    PassPrefix(cs, i, c);
    cs' := cs[i := c];
    passed' := passed + if c.status == Pass then 1 else 0;
  }

  lemma PassPrefix(cs: seq<TestCase>, i: nat, c: TestCase)
    requires i < |cs|
    ensures CountPass(cs[i := c][..i + 1]) == CountPass(cs[..i]) + if c.status == Pass then 1 else 0
  {
    assert cs[i := c][..i + 1][..i] == cs[..i];
  }
}
