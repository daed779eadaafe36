/**
 * Reading MAC addresses out of `hcitool lescan` and `bluetoothctl` output,
 * and the three ways the scripts pick one: the first matching line while
 * polling, a majority vote over all matching lines, and the last match of
 * a `findall`.
 */
module ScanMatch {
  import opened Base
  import opened Text
  import Hex

  /** `(?:[0-9A-Fa-f]{2}:){5}[0-9A-Fa-f]{2}` matches the 17 characters at offset `p`. */
  predicate IsMacAt(s: string, p: nat)
  {
    p + 17 <= |s| && forall i :: p <= i < p + 17 ==> MacChar(s[i], i - p)
  }

  /** Character `k` of a MAC: a ':' after every second digit, hex digits otherwise. */
  predicate MacChar(c: char, k: nat)
  {
    if k % 3 == 2 then c == ':' else Hex.IsHexDigit(c)
  }

  /** A scan line split by `((?:[0-9A-Fa-f]{2}:){5}[0-9A-Fa-f]{2}) (.*)`. */
  datatype ScanEntry = ScanEntry(mac: string, name: string)

  /**
   * `mac_pattern.match(line)`: a MAC at the very start, one space, and the
   * rest of the line as the name (a line from `splitlines` holds no line
   * break, so `.*` takes all of it).
   */
  function ParseScanLine(line: string): (e: Option<ScanEntry>)
    ensures e.Some? ==> |e.value.mac| == 17 && IsMacAt(e.value.mac, 0) && line == e.value.mac + " " + e.value.name
  {
    if |line| >= 18 && IsMacAt(line, 0) && line[17] == ' ' then
      assert line == line[..17] + " " + line[18..];
      Some(ScanEntry(line[..17], line[18..]))
    else None
  }

  /** The line names the target: it parses and the target is a substring of its name. */
  predicate LineMatches(line: string, target: string)
  {
    var e := ParseScanLine(line);
    e.Some? && Contains(e.value.name, target)
  }

  /** The MACs of the matching lines, in file order (the `matches` list). */
  function MatchingMacs(lines: seq<string>, target: string): (macs: seq<string>)
    ensures |macs| <= |lines|
  {
    if lines == [] then []
    else
      var rest := MatchingMacs(lines[..|lines| - 1], target);
      var last := lines[|lines| - 1];
      if LineMatches(last, target) then rest + [ParseScanLine(last).value.mac] else rest
  }

  /** Every collected MAC comes from a matching line. */
  lemma {:induction false} MatchingMacsFromLines(lines: seq<string>, target: string)
    ensures forall m :: m in MatchingMacs(lines, target) ==>
      exists k :: 0 <= k < |lines| && LineMatches(lines[k], target) && ParseScanLine(lines[k]).value.mac == m
  {
    if lines != [] {
      var init := lines[..|lines| - 1];
      MatchingMacsFromLines(init, target);
      forall m | m in MatchingMacs(lines, target)
        ensures exists k :: 0 <= k < |lines| && LineMatches(lines[k], target) && ParseScanLine(lines[k]).value.mac == m
      {
        if m in MatchingMacs(init, target) {
          var k :| 0 <= k < |init| && LineMatches(init[k], target) && ParseScanLine(init[k]).value.mac == m;
          assert lines[k] == init[k];
        } else {
          assert LineMatches(lines[|lines| - 1], target);
        }
      }
    }
  }

  /** Index of the first matching line, or `|lines|`. */
  function FirstMatchIndex(lines: seq<string>, target: string): (k: nat)
    ensures k <= |lines|
    ensures k < |lines| ==> LineMatches(lines[k], target)
    ensures forall j :: 0 <= j < k ==> !LineMatches(lines[j], target)
  {
    if lines == [] || LineMatches(lines[0], target) then 0 else 1 + FirstMatchIndex(lines[1..], target)
  }

  /** The MAC of the first matching line, if any. */
  function FirstMatch(lines: seq<string>, target: string): Option<string>
  {
    var k := FirstMatchIndex(lines, target);
    if k < |lines| then Some(ParseScanLine(lines[k]).value.mac) else None
  }

  /** There is a first match exactly when some MAC was collected. */
  lemma {:induction false} FirstMatchIff(lines: seq<string>, target: string)
    ensures FirstMatch(lines, target).Some? <==> MatchingMacs(lines, target) != []
  {
    if lines != [] {
      var init := lines[..|lines| - 1];
      FirstMatchIff(init, target);
      if FirstMatchIndex(init, target) < |init| {
        assert lines[FirstMatchIndex(init, target)] == init[FirstMatchIndex(init, target)];
      }
      if MatchingMacs(init, target) == [] && !LineMatches(lines[|lines| - 1], target) {
        assert forall j :: 0 <= j < |init| ==> lines[j] == init[j];
      }
    }
  }

  // ---------------------------------------------------------------------
  // Most common MAC (`Counter(...).most_common(1)[0][0]`).

  /** Occurrences of `m` in `s`. */
  function Count(s: seq<string>, m: string): nat
  {
    if s == [] then 0 else Count(s[..|s| - 1], m) + (if s[|s| - 1] == m then 1 else 0)
  }

  /**
   * `s[k]` is the vote's winner: no MAC occurs more often, and every MAC
   * listed before position `k` occurs strictly less often (so `k` is the
   * first occurrence of the winner, which is how `Counter` breaks ties).
   */
  predicate Winner(s: seq<string>, k: nat)
  {
    k < |s|
    && (forall j :: 0 <= j < |s| ==> Count(s, s[j]) <= Count(s, s[k]))
    && (forall j :: 0 <= j < k ==> Count(s, s[j]) < Count(s, s[k]))
  }

  lemma CountStep(s: seq<string>, i: nat, m: string)
    requires i < |s|
    ensures Count(s[..i + 1], m) == Count(s[..i], m) + (if s[i] == m then 1 else 0)
  {
    assert s[..i + 1][..i] == s[..i];
  }

  lemma {:induction false} CountPositive(s: seq<string>, k: nat)
    requires k < |s|
    ensures Count(s, s[k]) >= 1
  {
    if k < |s| - 1 {
      CountPositive(s[..|s| - 1], k);
    }
  }

  /**
   * The position the vote picks when scanning from `j` with `best` the
   * leader so far: a later MAC takes the lead only with a strictly higher
   * count.
   */
  function LeaderFrom(s: seq<string>, j: nat, best: nat): (b: nat)
    requires best < j <= |s|
    ensures b < |s|
    decreases |s| - j
  {
    if j == |s| then best
    else if Count(s, s[j]) > Count(s, s[best]) then LeaderFrom(s, j + 1, j)
    else LeaderFrom(s, j + 1, best)
  }

  /** `Counter(macs).most_common(1)[0][0]`, `None` for no MACs. */
  function Vote(s: seq<string>): Option<string>
  {
    if s == [] then None else Some(s[LeaderFrom(s, 1, 0)])
  }

  lemma {:induction false} LeaderFromWins(s: seq<string>, j: nat, best: nat)
    requires best < j <= |s|
    requires forall t :: 0 <= t < j ==> Count(s, s[t]) <= Count(s, s[best])
    requires forall t :: 0 <= t < best ==> Count(s, s[t]) < Count(s, s[best])
    ensures Winner(s, LeaderFrom(s, j, best))
    decreases |s| - j
  {
    if j < |s| {
      if Count(s, s[j]) > Count(s, s[best]) {
        LeaderFromWins(s, j + 1, j);
      } else {
        LeaderFromWins(s, j + 1, best);
      }
    }
  }

  /**
   * The vote picks the winner: a most frequent MAC, and of those the one
   * seen first; nothing when there is nothing to vote on.
   */
  lemma VoteWinner(s: seq<string>)
    ensures Vote(s).None? <==> s == []
    ensures s != [] ==> Winner(s, LeaderFrom(s, 1, 0)) && Vote(s) == Some(s[LeaderFrom(s, 1, 0)])
  {
    if s != [] {
      LeaderFromWins(s, 1, 0);
    }
  }

  /**
   * The final vote: counts every MAC into a dictionary, then keeps the first
   * MAC with the highest count.
   */
  method MostCommon(macs: seq<string>) returns (r: Option<string>)
    ensures r == Vote(macs)
  {
    if macs == [] {
      return None;
    }
    var counts: map<string, nat> := map[];
    var i := 0;
    while i < |macs|
      invariant 0 <= i <= |macs|
      invariant forall m :: m in counts <==> m in macs[..i]
      invariant forall m :: m in counts ==> counts[m] == Count(macs[..i], m)
    {
      forall m | true
        ensures Count(macs[..i + 1], m) == Count(macs[..i], m) + (if macs[i] == m then 1 else 0)
      {
        CountStep(macs, i, m);
      }
      assert macs[..i + 1] == macs[..i] + [macs[i]];
      var c := if macs[i] in counts then counts[macs[i]] else 0;
      if macs[i] !in counts {
        assert Count(macs[..i], macs[i]) == 0 by {
          CountAbsent(macs[..i], macs[i]);
        }
      }
      counts := counts[macs[i] := c + 1];
      i := i + 1;
    }
    assert macs[..i] == macs;
    var best := 0;
    var j := 1;
    while j < |macs|
      invariant 1 <= j <= |macs|
      invariant best < j
      invariant LeaderFrom(macs, j, best) == LeaderFrom(macs, 1, 0)
    {
      if counts[macs[j]] > counts[macs[best]] {
        best := j;
      }
      j := j + 1;
    }
    return Some(macs[best]);
  }

  lemma {:induction false} CountAbsent(s: seq<string>, m: string)
    requires m !in s
    ensures Count(s, m) == 0
  {
    if s != [] {
      assert m !in s[..|s| - 1];
      CountAbsent(s[..|s| - 1], m);
    }
  }

  /** The winner is unique: two winning positions are the same position. */
  lemma WinnerUnique(s: seq<string>, k1: nat, k2: nat)
    requires Winner(s, k1) && Winner(s, k2)
    ensures k1 == k2
  {
    if k1 < k2 {
      WinnerFirst(s, k1, k2);
    } else if k2 < k1 {
      WinnerFirst(s, k2, k1);
    }
  }

  /** A later position cannot win once an earlier one does. */
  lemma WinnerFirst(s: seq<string>, k: nat, later: nat)
    requires Winner(s, k) && k < later < |s|
    ensures !Winner(s, later)
  {
    assert Count(s, s[later]) <= Count(s, s[k]);
  }

  /** The vote never returns a MAC that was not observed, and a MAC seen more than half the time wins. */
  lemma WinnerObserved(s: seq<string>, k: nat, m: string)
    requires Winner(s, k)
    ensures s[k] in s && Count(s, s[k]) >= 1
    ensures m in s && 2 * Count(s, m) > |s| ==> s[k] == m
  {
    CountPositive(s, k);
    if m in s && 2 * Count(s, m) > |s| && s[k] != m {
      var jm :| 0 <= jm < |s| && s[jm] == m;
      assert Count(s, m) <= Count(s, s[k]);
      CountTwo(s, m, s[k]);
    }
  }

  /** Two different MACs together occur at most `|s|` times. */
  lemma {:induction false} CountTwo(s: seq<string>, a: string, b: string)
    requires a != b
    ensures Count(s, a) + Count(s, b) <= |s|
  {
    if s != [] {
      CountTwo(s[..|s| - 1], a, b);
    }
  }

  // ---------------------------------------------------------------------
  // The polling scan of the BLE connectors.

  /**
   * The MAC a poll reports while `lescan` still runs: the first matching
   * line of the first poll (a read of the scan file, `None` when the file
   * did not exist yet) that has one.
   */
  function EarlyHit(polls: seq<Option<string>>, target: string): Option<string>
  {
    var k := FirstPollHit(polls, target);
    if k < |polls| then FirstMatch(SplitLines(polls[k].value), target)
    else None
  }

  predicate PollHit(p: Option<string>, target: string)
  {
    p.Some? && FirstMatch(SplitLines(p.value), target).Some?
  }

  function FirstPollHit(polls: seq<Option<string>>, target: string): (k: nat)
    ensures k <= |polls|
    ensures k < |polls| ==> PollHit(polls[k], target)
    ensures forall j :: 0 <= j < k ==> !PollHit(polls[j], target)
  {
    if polls == [] || PollHit(polls[0], target) then 0 else 1 + FirstPollHit(polls[1..], target)
  }

  /** The matching loop over one poll's lines: returns the MAC of the first matching line. */
  method ScanLines(lines: seq<string>, target: string) returns (found: Option<string>)
    ensures found == FirstMatch(lines, target)
  {
    var i := 0;
    while i < |lines|
      invariant 0 <= i <= |lines|
      invariant forall j :: 0 <= j < i ==> !LineMatches(lines[j], target)
    {
      var m := ParseScanLine(lines[i]);
      if m.Some? && Contains(m.value.name, target) {
        FirstMatchAt(lines, target, i);
        return Some(m.value.mac);
      }
      i := i + 1;
    }
    return None;
  }

  lemma {:induction false} FirstMatchAt(lines: seq<string>, target: string, i: nat)
    requires i < |lines| && LineMatches(lines[i], target)
    requires forall j :: 0 <= j < i ==> !LineMatches(lines[j], target)
    ensures FirstMatchIndex(lines, target) == i
    decreases i
  {
    if i > 0 {
      FirstMatchAt(lines[1..], target, i - 1);
    }
  }

  lemma {:induction false} FirstPollHitAt(polls: seq<Option<string>>, target: string, i: nat)
    requires i < |polls| && PollHit(polls[i], target)
    requires forall j :: 0 <= j < i ==> !PollHit(polls[j], target)
    ensures FirstPollHit(polls, target) == i
    decreases i
  {
    if i > 0 {
      FirstPollHitAt(polls[1..], target, i - 1);
    }
  }

  /**
   * What one attempt of `scan_device` reports: the early hit of the polls
   * when there is one, otherwise the vote over the matching MACs of the
   * final read of the file, otherwise nothing (`False`).
   */
  function ScanAttempt(polls: seq<Option<string>>, final: Option<string>, target: string): Option<string>
  {
    if FirstPollHit(polls, target) < |polls| then EarlyHit(polls, target)
    else if final.None? then None
    else Vote(MatchingMacs(SplitLines(final.value), target))
  }

  /**
   * One attempt of `scan_device`'s polling: read the file at every poll and
   * return the first matching MAC at once; when the polls run out, vote over
   * the final read.  `None` stands for the attempt's `False`.
   */
  method PollScan(polls: seq<Option<string>>, final: Option<string>, target: string) returns (mac: Option<string>)
    ensures mac == ScanAttempt(polls, final, target)
  {
    var p := 0;
    while p < |polls|
      invariant 0 <= p <= |polls|
      invariant forall j :: 0 <= j < p ==> !PollHit(polls[j], target)
    {
      if polls[p].Some? {
        var found := ScanLines(SplitLines(polls[p].value), target);
        if found.Some? {
          FirstPollHitAt(polls, target, p);
          return found;
        }
      }
      p := p + 1;
    }
    if final.None? {
      return None;
    }
    var macs := CollectMatches(SplitLines(final.value), target);
    mac := MostCommon(macs);
  }

  /** The collecting loop of the final read. */
  method CollectMatches(lines: seq<string>, target: string) returns (macs: seq<string>)
    ensures macs == MatchingMacs(lines, target)
  {
    macs := [];
    var i := 0;
    while i < |lines|
      invariant 0 <= i <= |lines|
      invariant macs == MatchingMacs(lines[..i], target)
    {
      assert lines[..i + 1][..i] == lines[..i];
      var m := ParseScanLine(lines[i]);
      if m.Some? && Contains(m.value.name, target) {
        macs := macs + [m.value.mac];
      }
      i := i + 1;
    }
    assert lines[..i] == lines;
  }

  /** A poll that finds the target returns a MAC collected from that poll's matching lines. */
  lemma PollResultObserved(polls: seq<Option<string>>, target: string)
    requires FirstPollHit(polls, target) < |polls|
    ensures var k := FirstPollHit(polls, target);
      EarlyHit(polls, target).Some?
      && EarlyHit(polls, target).value in MatchingMacs(SplitLines(polls[k].value), target)
  {
    var k := FirstPollHit(polls, target);
    var lines := SplitLines(polls[k].value);
    FirstMatchInMatching(lines, target);
  }

  /** The first match is the first collected MAC. */
  lemma {:induction false} FirstMatchInMatching(lines: seq<string>, target: string)
    requires FirstMatch(lines, target).Some?
    ensures MatchingMacs(lines, target) != [] && FirstMatch(lines, target).value == MatchingMacs(lines, target)[0]
  {
    var init := lines[..|lines| - 1];
    var k := FirstMatchIndex(lines, target);
    if k < |init| {
      assert init[k] == lines[k];
      assert forall j :: 0 <= j < k ==> init[j] == lines[j];
      FirstMatchAt(init, target, k);
      FirstMatchInMatching(init, target);
    } else {
      assert forall j :: 0 <= j < |init| ==> init[j] == lines[j];
      NoMatchesEmpty(init, target);
    }
  }

  lemma {:induction false} NoMatchesEmpty(lines: seq<string>, target: string)
    requires forall j :: 0 <= j < |lines| ==> !LineMatches(lines[j], target)
    ensures MatchingMacs(lines, target) == []
  {
    if lines != [] {
      NoMatchesEmpty(lines[..|lines| - 1], target);
    }
  }

  // ---------------------------------------------------------------------
  // `re.findall(MAC + " .*" + re.escape(name), content)` and its last match.

  /**
   * A match of `MAC .*name` starting at offset `p` of one line: a MAC, a
   * space, and `name` somewhere after it on the same line (`.` does not
   * cross a line break).
   */
  predicate FindAtLine(line: string, name: string, p: nat)
  {
    IsMacAt(line, p) && p + 17 < |line| && line[p + 17] == ' ' && Contains(line[p + 18..], name)
  }

  /** The leftmost match position of a line at or after `p`, or `|line|`. */
  function LeftmostFind(line: string, name: string, p: nat): (q: nat)
    requires p <= |line|
    ensures p <= q <= |line|
    ensures q < |line| ==> FindAtLine(line, name, q)
    ensures forall j :: p <= j < q ==> !FindAtLine(line, name, j)
    decreases |line| - p
  {
    if p == |line| || FindAtLine(line, name, p) then p else LeftmostFind(line, name, p + 1)
  }

  /**
   * The MAC groups `findall` returns, line by line: the greedy `.*` runs to
   * the last occurrence of `name` on the line, so a line yields at most one
   * match, the one at its leftmost position.
   */
  function FindAll(lines: seq<string>, name: string): (macs: seq<string>)
    ensures forall i :: 0 <= i < |macs| ==> |macs[i]| == 17 && IsMacAt(macs[i], 0)
  {
    if lines == [] then []
    else
      var rest := FindAll(lines[..|lines| - 1], name);
      var line := lines[|lines| - 1];
      var q := LeftmostFind(line, name, 0);
      if q < |line| then
        MacSlice(line, q);
        rest + [line[q..q + 17]]
      else rest
  }

  /** The 17 characters of a MAC found inside a line form a MAC on their own. */
  lemma MacSlice(s: string, p: nat)
    requires IsMacAt(s, p)
    ensures IsMacAt(s[p..p + 17], 0)
  {
    var m := s[p..p + 17];
    forall i | 0 <= i < 17
      ensures MacChar(m[i], i)
    {
      assert m[i] == s[p + i];
    }
  }

  /** `matches[-1]`: the match on the last line that has one; `None` for no match. */
  function LastFind(content: string, name: string): (r: Option<string>)
    ensures r.Some? ==> |r.value| == 17 && IsMacAt(r.value, 0)
  {
    var macs := FindAll(Split(content, '\n'), name);
    if macs == [] then None else Some(macs[|macs| - 1])
  }

  lemma LastFindIff(content: string, name: string)
    ensures LastFind(content, name).Some? ==> LastFind(content, name).value in FindAll(Split(content, '\n'), name)
    ensures LastFind(content, name).None? <==> FindAll(Split(content, '\n'), name) == []
  {
  }

  /** A later line with a match overrides every earlier one. */
  lemma LastFindOverrides(a: seq<string>, b: seq<string>, name: string)
    requires FindAll(b, name) != []
    ensures var all := FindAll(a + b, name);
      all != [] && all[|all| - 1] == FindAll(b, name)[|FindAll(b, name)| - 1]
  {
    FindAllAppend(a, b, name);
  }

  lemma {:induction false} FindAllAppend(a: seq<string>, b: seq<string>, name: string)
    ensures FindAll(a + b, name) == FindAll(a, name) + FindAll(b, name)
    decreases |b|
  {
    if b == [] {
      assert a + b == a;
    } else {
      var b0 := b[..|b| - 1];
      FindAllAppend(a, b0, name);
      assert (a + b)[..|a + b| - 1] == a + b0;
    }
  }

  // ---------------------------------------------------------------------
  // `re.findall(r"(MAC)\s+(.+)", stdout)` of the classic Bluetooth tester,
  // run over the whole output: `\s` matches '\n', `.` does not.

  /** The end of the run of whitespace that starts at offset `k`. */
  function SpaceEnd(s: string, k: nat): (e: nat)
    requires k <= |s|
    ensures k <= e <= |s|
    ensures forall i :: k <= i < e ==> IsSpace(s[i])
    ensures e < |s| ==> !IsSpace(s[e])
    decreases |s| - k
  {
    if k == |s| || !IsSpace(s[k]) then k else SpaceEnd(s, k + 1)
  }

  /**
   * Where `(.+)` starts once the greedy `\s+` has taken `s[k..j]`: the
   * regex engine gives whitespace back from the right until the character
   * after it is not a line break; `k` when it must give back all of it.
   */
  function NameStart(s: string, k: nat, j: nat): (n: nat)
    requires k <= j <= |s|
    ensures k <= n <= j
    ensures n > k ==> n < |s| && s[n] != '\n'
    ensures forall i :: n < i <= j ==> i == |s| || s[i] == '\n'
    decreases j - k
  {
    if j == k then k
    else if j < |s| && s[j] != '\n' then j
    else NameStart(s, k, j - 1)
  }

  /** The end of the line holding offset `n`: the next '\n', or the end of `s`. */
  function LineEnd(s: string, n: nat): (e: nat)
    requires n <= |s|
    ensures n <= e <= |s|
    ensures forall i :: n <= i < e ==> s[i] != '\n'
    ensures e < |s| ==> s[e] == '\n'
    decreases |s| - n
  {
    if n == |s| || s[n] == '\n' then n else LineEnd(s, n + 1)
  }

  /** Where the name of a match of the MAC at `p` begins; `p + 17` when no name can follow. */
  function PairName(s: string, p: nat): nat
    requires p + 17 < |s|
  {
    NameStart(s, p + 17, SpaceEnd(s, p + 17))
  }

  /** `(MAC)\s+(.+)` matches at offset `p`: a MAC, whitespace, and one character that is not a line break. */
  predicate PairAt(s: string, p: nat)
  {
    IsMacAt(s, p) && p + 17 < |s| && IsSpace(s[p + 17]) && PairName(s, p) > p + 17
  }

  /** The leftmost match position at or after `p`, or `|s|`. */
  function LeftmostPair(s: string, p: nat): (q: nat)
    requires p <= |s|
    ensures p <= q <= |s|
    ensures q < |s| ==> PairAt(s, q)
    ensures forall j :: p <= j < q ==> !PairAt(s, j)
    decreases |s| - p
  {
    if p == |s| || PairAt(s, p) then p else LeftmostPair(s, p + 1)
  }

  /**
   * The `(mac, name)` pairs `findall` returns from offset `p` on: the
   * leftmost match, whose `(.+)` runs to the end of its line, then the
   * matches after it.  The stored name is the group already passed through
   * `strip()`, which is all the caller looks at.
   */
  function PairsFrom(s: string, p: nat): (ps: seq<ScanEntry>)
    requires p <= |s|
    ensures forall i :: 0 <= i < |ps| ==> |ps[i].mac| == 17 && IsMacAt(ps[i].mac, 0)
    decreases |s| - p
  {
    var q := LeftmostPair(s, p);
    if q == |s| then []
    else
      var n := PairName(s, q);
      var e := LineEnd(s, n);
      MacSlice(s, q);
      [ScanEntry(s[q..q + 17], Strip(s[n..e]))] + PairsFrom(s, e)
  }

  function Pairs(stdout: string): seq<ScanEntry>
  {
    PairsFrom(stdout, 0)
  }

  /** One step of `findall`: the first pair is the leftmost match's MAC, and the rest are found from the end of its line. */
  lemma PairsFromHead(s: string, p: nat)
    requires p <= |s| && LeftmostPair(s, p) < |s|
    ensures var q := LeftmostPair(s, p);
      var ps := PairsFrom(s, p);
      ps != [] && ps[0].mac == s[q..q + 17] && ps[1..] == PairsFrom(s, LineEnd(s, PairName(s, q)))
  {
  }

  /** Every pair is a match in the output, and there are none exactly when no offset matches. */
  lemma {:induction false} PairsFromMatches(s: string, p: nat)
    requires p <= |s|
    ensures forall i :: 0 <= i < |PairsFrom(s, p)| ==>
      exists q :: p <= q < |s| && PairAt(s, q) && s[q..q + 17] == PairsFrom(s, p)[i].mac
    ensures PairsFrom(s, p) == [] <==> forall q :: p <= q < |s| ==> !PairAt(s, q)
    decreases |s| - p
  {
    var q := LeftmostPair(s, p);
    if q < |s| {
      var e := LineEnd(s, PairName(s, q));
      PairsFromMatches(s, e);
      var ps := PairsFrom(s, p);
      PairsFromHead(s, p);
      forall i | 0 <= i < |ps|
        ensures exists q' :: p <= q' < |s| && PairAt(s, q') && s[q'..q' + 17] == ps[i].mac
      {
        if i == 0 {
        } else {
          assert ps[i] == PairsFrom(s, e)[i - 1];
          var q' :| e <= q' < |s| && PairAt(s, q') && s[q'..q' + 17] == PairsFrom(s, e)[i - 1].mac;
          assert p <= q';
        }
      }
      assert ps != [];
    } else {
      assert PairsFrom(s, p) == [];
    }
  }

  /** The MAC both examples below start with. */
  lemma MacAtStart(s: string)
    requires 17 <= |s| && s[..17] == "AA:BB:CC:DD:EE:FF"
    ensures IsMacAt(s, 0) && s[0..17] == "AA:BB:CC:DD:EE:FF"
  {
    forall i | 0 <= i < 17 ensures MacChar(s[i], i) {
      assert s[i] == "AA:BB:CC:DD:EE:FF"[i];
      assert Hex.IsHexDigit('A') && Hex.IsHexDigit('B') && Hex.IsHexDigit('C');
      assert Hex.IsHexDigit('D') && Hex.IsHexDigit('E') && Hex.IsHexDigit('F');
    }
  }

  /** An output whose only match starts it gives that one pair. */
  lemma OnlyPair(s: string, n: nat, e: nat)
    requires 17 < |s| && PairAt(s, 0) && PairName(s, 0) == n && LineEnd(s, n) == e
    requires forall q :: e <= q < |s| ==> !PairAt(s, q)
    ensures Pairs(s) == [ScanEntry(s[0..17], Strip(s[n..e]))]
  {
    assert LeftmostPair(s, 0) == 0;
    PairsFromMatches(s, e);
    assert PairsFrom(s, e) == [];
  }

  /**
   * A MAC at the end of its line takes the next line as its name: `\s+`
   * also matches the line break.
   */
  lemma NameOnNextLine()
    ensures Pairs("AA:BB:CC:DD:EE:FF\nMyPhone\n") == [ScanEntry("AA:BB:CC:DD:EE:FF", "MyPhone")]
  {
    var s := "AA:BB:CC:DD:EE:FF\nMyPhone\n";
    MacAtStart(s);
    assert SpaceEnd(s, 18) == 18;
    assert PairName(s, 0) == 18;
    assert LineEnd(s, 25) == 25;
    assert LineEnd(s, 18) == 25;
    assert s[18..25] == "MyPhone";
    StripKeeps(s[18..25]);
    OnlyPair(s, 18, 25);
  }

  /** Trailing blanks before a line break are skipped as well: the name is the next line's text. */
  lemma SpacesAcrossLine()
    ensures Pairs("AA:BB:CC:DD:EE:FF  \nfoo") == [ScanEntry("AA:BB:CC:DD:EE:FF", "foo")]
  {
    var s := "AA:BB:CC:DD:EE:FF  \nfoo";
    MacAtStart(s);
    assert SpaceEnd(s, 20) == 20;
    assert SpaceEnd(s, 17) == 20;
    assert PairName(s, 0) == 20;
    assert LineEnd(s, 20) == 23;
    assert s[20..23] == "foo";
    StripKeeps(s[20..23]);
    OnlyPair(s, 20, 23);
  }

  /** The pair's stripped, lower-cased name contains the lower-cased target. */
  predicate NameHas(e: ScanEntry, target: string)
  {
    Contains(Lower(e.name), Lower(target))
  }

  /** `scan_target_device`'s loop: the MAC of the first pair whose name contains the target. */
  method FirstTargetMac(pairs: seq<ScanEntry>, target: string) returns (mac: Option<string>)
    ensures mac.Some? <==> exists i :: 0 <= i < |pairs| && NameHas(pairs[i], target)
    ensures mac.Some? ==> exists i :: (0 <= i < |pairs| && NameHas(pairs[i], target) && pairs[i].mac == mac.value
      && forall j :: 0 <= j < i ==> !NameHas(pairs[j], target))
  {
    var targetLower := Lower(target);
    var i := 0;
    while i < |pairs|
      invariant 0 <= i <= |pairs|
      invariant forall j :: 0 <= j < i ==> !NameHas(pairs[j], target)
    {
      if Contains(Lower(pairs[i].name), targetLower) {
        return Some(pairs[i].mac);
      }
      i := i + 1;
    }
    return None;
  }
}
