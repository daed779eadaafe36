/**
 * The line framing shared by the two serial readers of the sleep tests
 * (`SerialMonitor._read_serial` and `DeviceSleepManager._read_serial_data`):
 * decoded chunks are appended to a buffer; while the buffer holds a '\n'
 * it is cut at the first one, the line in front is stripped and, when not
 * blank, handed on; what follows the last '\n' stays buffered, and when the
 * reader stops a non-blank leftover is handed on as one last line.
 */
module LineFraming {
  import Base
  import opened Text

  /** One pass of the reader's loop: data that was read and decoded, nothing, or an exception (logged and waited out). */
  datatype Read = Data(text: string) | NoData | Fault

  function TextOf(r: Read): string
  {
    if r.Data? then r.text else ""
  }

  /** Everything the reads delivered, in order. */
  function Texts(rs: seq<Read>): (s: string)
    decreases |rs|
  {
    if rs == [] then "" else Texts(rs[..|rs| - 1]) + TextOf(rs[|rs| - 1])
  }

  /** Where `s.split('\n', 1)` cuts: the index of the first '\n', or `|s|` when there is none. */
  function Cut(s: string): (k: nat)
    ensures k <= |s|
  {
    if s == [] || s[0] == '\n' then 0 else 1 + Cut(s[1..])
  }

  lemma {:induction false} CutFound(s: string)
    ensures Cut(s) < |s| <==> '\n' in s
    ensures Cut(s) < |s| ==> s[Cut(s)] == '\n'
    ensures '\n' !in s[..Cut(s)]
    decreases |s|
  {
    if s != [] && s[0] != '\n' {
      CutFound(s[1..]);
      assert s[..Cut(s)] == [s[0]] + s[1..][..Cut(s[1..])];
      assert '\n' in s ==> '\n' in s[1..] by {
        if '\n' in s {
          var m :| 0 <= m < |s| && s[m] == '\n';
          assert s[1..][m - 1] == '\n';
        }
      }
    }
  }

  /** The '\n'-terminated lines at the front of `s`, without their '\n'. */
  function Complete(s: string): seq<string>
    decreases |s|
  {
    var k := Cut(s);
    if k == |s| then [] else [s[..k]] + Complete(s[k + 1..])
  }

  /** What follows the last '\n' of `s` (all of `s` when there is none). */
  function Rest(s: string): string
    decreases |s|
  {
    var k := Cut(s);
    if k == |s| then s else Rest(s[k + 1..])
  }

  lemma TextsSnoc(rs: seq<Read>, i: nat)
    requires i < |rs|
    ensures Texts(rs[..i + 1]) == Texts(rs[..i]) + TextOf(rs[i])
    ensures Texts([rs[i]]) == TextOf(rs[i])
  {
    assert rs[..i + 1][..i] == rs[..i];
    assert [rs[i]][..0] == [];
  }

  /** The pieces of `s` between '\n' characters, as `s.split('\n')` gives them. */
  function Pieces(s: string): (ps: seq<string>)
    ensures |ps| >= 1
  {
    Complete(s) + [Rest(s)]
  }

  lemma CutStep(buf: string, k: nat)
    requires k == Cut(buf) < |buf|
    ensures Complete(buf) == [buf[..k]] + Complete(buf[k + 1..])
    ensures Rest(buf) == Rest(buf[k + 1..])
  {
    CompleteStep(buf, k, buf[k + 1..]);
    RestStep(buf, k, buf[k + 1..]);
  }

  lemma CompleteStep(buf: string, k: nat, tail: string)
    requires k == Cut(buf) < |buf| && tail == buf[k + 1..]
    ensures Complete(buf) == [buf[..k]] + Complete(tail)
  {
  }

  lemma RestStep(buf: string, k: nat, tail: string)
    requires k == Cut(buf) < |buf| && tail == buf[k + 1..]
    ensures Rest(buf) == Rest(tail)
  {
  }

  /** A buffer without '\n' is all leftover. */
  lemma CutEnd(buf: string)
    requires '\n' !in buf
    ensures Complete(buf) == [] && Rest(buf) == buf
  {
    CutFound(buf);
  }

  /** No piece holds a '\n'. */
  lemma {:induction false} PiecesNoBreak(s: string)
    ensures forall i :: 0 <= i < |Pieces(s)| ==> '\n' !in Pieces(s)[i]
    decreases |s|
  {
    var k := Cut(s);
    CutFound(s);
    if k < |s| {
      PiecesNoBreak(s[k + 1..]);
      CutStep(s, k);
      assert Pieces(s) == [s[..k]] + Pieces(s[k + 1..]);
    }
  }

  /** The pieces joined with '\n' are the text itself: no character is lost or added. */
  lemma {:induction false} PiecesJoin(s: string)
    ensures Join(Pieces(s), "\n") == s
    decreases |s|
  {
    var k := Cut(s);
    CutFound(s);
    if k < |s| {
      var ps := Pieces(s[k + 1..]);
      calc {
        Join(Pieces(s), "\n");
        { CutStep(s, k); assert Pieces(s) == [s[..k]] + ps; }
        Join([s[..k]] + ps, "\n");
        { JoinCons(s[..k], ps, "\n"); }
        s[..k] + "\n" + Join(ps, "\n");
        { PiecesJoin(s[k + 1..]); }
        s[..k] + "\n" + s[k + 1..];
      }
      assert s == s[..k] + "\n" + s[k + 1..];
    } else {
      CutEnd(s);
      assert Pieces(s) == [s];
    }
  }

  lemma {:induction false} CutAppend(s: string, t: string)
    requires Cut(s) < |s|
    ensures Cut(s + t) == Cut(s)
    decreases |s|
  {
    if s[0] != '\n' {
      assert (s + t)[1..] == s[1..] + t;
      CutAppend(s[1..], t);
    }
  }

  /**
   * Framing `s` and then the leftover followed by `t` gives the lines and
   * the leftover of `s + t`: how the received text is divided into chunks
   * makes no difference.
   */
  lemma {:induction false} ChunkingIrrelevant(s: string, t: string)
    ensures Complete(s + t) == Complete(s) + Complete(Rest(s) + t)
    ensures Rest(s + t) == Rest(Rest(s) + t)
    decreases |s|
  {
    var k := Cut(s);
    if k < |s| {
      CutAppend(s, t);
      assert (s + t)[..k] == s[..k];
      assert (s + t)[k + 1..] == s[k + 1..] + t;
      CutStep(s + t, k);
      CutStep(s, k);
      ChunkingIrrelevant(s[k + 1..], t);
    }
  }

  /** The stripped form of each piece that is not blank, in order. */
  function Kept(ps: seq<string>): (ks: seq<string>)
    ensures |ks| <= |ps|
    ensures forall i :: 0 <= i < |ks| ==> ks[i] != [] && !IsSpace(ks[i][0]) && !IsSpace(ks[i][|ks[i]| - 1])
    decreases |ps|
  {
    if ps == [] then []
    else (if Strip(ps[0]) != [] then [Strip(ps[0])] else []) + Kept(ps[1..])
  }

  /** A single piece is handed on stripped, or not at all when it is blank. */
  lemma KeptOne(p: string)
    ensures Strip(p) != [] ==> Kept([p]) == [Strip(p)]
    ensures Strip(p) == [] ==> Kept([p]) == []
  {
    assert [p][1..] == [];
  }

  lemma {:induction false} KeptAppend(a: seq<string>, b: seq<string>)
    ensures Kept(a + b) == Kept(a) + Kept(b)
    decreases |a|
  {
    if a == [] {
      assert a + b == b;
    } else {
      var head := if Strip(a[0]) != [] then [Strip(a[0])] else [];
      assert (a + b)[0] == a[0];
      assert (a + b)[1..] == a[1..] + b;
      calc {
        Kept(a + b);
        head + Kept(a[1..] + b);
        { KeptAppend(a[1..], b); }
        head + (Kept(a[1..]) + Kept(b));
        { Base.Assoc(head, Kept(a[1..]), Kept(b)); }
        (head + Kept(a[1..])) + Kept(b);
        Kept(a) + Kept(b);
      }
    }
  }

  lemma KeptLast(a: seq<string>, p: string)
    ensures Kept(a + [p]) == Kept(a) + Kept([p])
  {
    KeptAppend(a, [p]);
  }

  /** Lines handed on are never blank and never hold a '\n'. */
  lemma {:induction false} KeptShape(ps: seq<string>)
    requires forall k :: 0 <= k < |ps| ==> '\n' !in ps[k]
    ensures forall k :: 0 <= k < |Kept(ps)| ==> Kept(ps)[k] != [] && '\n' !in Kept(ps)[k]
    decreases |ps|
  {
    if ps != [] {
      KeptShape(ps[1..]);
      assert ps == [ps[0]] + ps[1..];
      KeptAppend([ps[0]], ps[1..]);
      KeptOne(ps[0]);
      if Strip(ps[0]) != [] {
        var i, j := StripSlice(ps[0]);
        assert Strip(ps[0]) == ps[0][i..j];
        forall c | c in Strip(ps[0]) ensures c != '\n' {
          var m :| 0 <= m < |Strip(ps[0])| && Strip(ps[0])[m] == c;
          assert ps[0][i + m] == c;
        }
      }
    }
  }

  /** Everything the reader hands on over its lifetime: the kept pieces of all it received, whatever the chunking. */
  lemma Lifetime(s: string)
    ensures Kept(Complete(s)) + Kept([Rest(s)]) == Kept(Pieces(s))
  {
    KeptAppend(Complete(s), [Rest(s)]);
  }

  /** The lines the reader hands on while it receives `rs` with `buffer` pending. */
  function Heard(buffer: string, rs: seq<Read>): (ls: seq<string>)
    ensures forall i :: 0 <= i < |ls| ==> ls[i] != [] && !IsSpace(ls[i][0]) && !IsSpace(ls[i][|ls[i]| - 1])
  {
    Kept(Complete(buffer + Texts(rs)))
  }

  lemma ReadStart(b0: string, rs: seq<Read>)
    requires '\n' !in b0
    ensures Heard(b0, rs[..0]) == [] && Rest(b0 + Texts(rs[..0])) == b0
  {
    assert b0 + Texts(rs[..0]) == b0;
    CutEnd(b0);
  }

  lemma ReadStepRaw(b0: string, rs: seq<Read>, i: nat, buffer: string)
    requires i < |rs| && buffer == Rest(b0 + Texts(rs[..i]))
    ensures Complete(b0 + Texts(rs[..i + 1])) == Complete(b0 + Texts(rs[..i])) + Complete(buffer + Texts([rs[i]]))
    ensures Rest(b0 + Texts(rs[..i + 1])) == Rest(buffer + Texts([rs[i]]))
  {
    TextsSnoc(rs, i);
    Feed(b0, Texts(rs[..i]), TextOf(rs[i]));
  }

  lemma Feed(b0: string, x: string, y: string)
    ensures Complete(b0 + (x + y)) == Complete(b0 + x) + Complete(Rest(b0 + x) + y)
    ensures Rest(b0 + (x + y)) == Rest(Rest(b0 + x) + y)
  {
    assert b0 + (x + y) == (b0 + x) + y;
    ChunkingIrrelevant(b0 + x, y);
  }

  lemma ReadStep(b0: string, rs: seq<Read>, i: nat, buffer: string)
    requires i < |rs| && buffer == Rest(b0 + Texts(rs[..i]))
    ensures Heard(b0, rs[..i + 1]) == Heard(b0, rs[..i]) + Heard(buffer, [rs[i]])
    ensures Rest(b0 + Texts(rs[..i + 1])) == Rest(buffer + Texts([rs[i]]))
  {
    ReadStepRaw(b0, rs, i, buffer);
    KeptAppend(Complete(b0 + Texts(rs[..i])), Complete(buffer + Texts([rs[i]])));
  }

  lemma {:induction false} TextsAppend(x: seq<Read>, y: seq<Read>)
    ensures Texts(x + y) == Texts(x) + Texts(y)
    decreases |y|
  {
    if y == [] {
      assert x + y == x;
    } else {
      var y' := y[..|y| - 1];
      assert (x + y)[..|x + y| - 1] == x + y';
      assert (x + y)[|x + y| - 1] == y[|y| - 1];
      TextsAppend(x, y');
    }
  }

  /** The reads `x` then `y` hand on what `x` hands on, then what `y` hands on after the leftover of `x`. */
  lemma HeardAppend(b0: string, x: seq<Read>, y: seq<Read>)
    ensures Heard(b0, x + y) == Heard(b0, x) + Heard(Rest(b0 + Texts(x)), y)
    ensures Rest(b0 + Texts(x + y)) == Rest(Rest(b0 + Texts(x)) + Texts(y))
  {
    TextsAppend(x, y);
    Feed(b0, Texts(x), Texts(y));
    KeptAppend(Complete(b0 + Texts(x)), Complete(Rest(b0 + Texts(x)) + Texts(y)));
  }

  /** Some line contains `flag` (Python's `flag in line`). */
  predicate AnyHas(lines: seq<string>, flag: string)
  {
    exists i :: 0 <= i < |lines| && Contains(lines[i], flag)
  }

  lemma AnyHasAppend(a: seq<string>, b: seq<string>, flag: string)
    ensures AnyHas(a + b, flag) <==> AnyHas(a, flag) || AnyHas(b, flag)
  {
    if AnyHas(a + b, flag) {
      var i :| 0 <= i < |a + b| && Contains((a + b)[i], flag);
      if i >= |a| {
        assert b[i - |a|] == (a + b)[i];
      }
    }
    if AnyHas(a, flag) {
      var i :| 0 <= i < |a| && Contains(a[i], flag);
      assert (a + b)[i] == a[i];
    }
    if AnyHas(b, flag) {
      var i :| 0 <= i < |b| && Contains(b[i], flag);
      assert (a + b)[|a| + i] == b[i];
    }
  }

  /** More reads never take back a flag already heard. */
  lemma HeardMore(b0: string, x: seq<Read>, y: seq<Read>, flag: string)
    requires AnyHas(Heard(b0, x), flag)
    ensures AnyHas(Heard(b0, x + y), flag)
  {
    HeardAppend(b0, x, y);
    AnyHasAppend(Heard(b0, x), Heard(Rest(b0 + Texts(x)), y), flag);
  }

  /** Each piece stripped, the blank ones dropped. */
  method StripPieces(pieces: seq<string>) returns (lines: seq<string>)
    ensures lines == Kept(pieces)
  {
    lines := [];
    var i := 0;
    while i < |pieces|
      invariant 0 <= i <= |pieces|
      invariant lines == Kept(pieces[..i])
    {
      assert pieces[..i + 1] == pieces[..i] + [pieces[i]];
      KeptLast(pieces[..i], pieces[i]);
      KeptOne(pieces[i]);
      var line := Strip(pieces[i]);
      if line != [] {
        lines := lines + [line];
      }
      i := i + 1;
    }
    assert pieces[..i] == pieces;
  }

  /**
   * The inner loop of the readers: append the chunk, then cut off every
   * '\n'-terminated line, leaving the rest buffered.
   */
  method FrameChunk(buffer: string, chunk: string) returns (lines: seq<string>, rest: string)
    ensures lines == Complete(buffer + chunk)
    ensures rest == Rest(buffer + chunk)
    ensures '\n' !in rest
  {
    var buf := buffer + chunk;
    lines := [];
    while '\n' in buf
      invariant Complete(buffer + chunk) == lines + Complete(buf)
      invariant Rest(buffer + chunk) == Rest(buf)
      decreases |buf|
    {
      CutFound(buf);
      var k := Cut(buf);
      CutStep(buf, k);
      lines := lines + [buf[..k]];
      buf := buf[k + 1..];
    }
    CutEnd(buf);
    rest := buf;
  }
}
