/**
 * `be_with_diff` and `lockfile_should_be`: the expected text is dedented by
 * the whitespace that starts it, removed at every line start, and then
 * compared with the actual text for exact equality.
 */
module WithDiff {
  import opened RubyText

  /** `expected[/\A\s+/, 0] || ""`: the maximal run of whitespace that starts `s`. */
  function LeadingSpace(s: string): (p: string)
    ensures p <= s && AllSpace(p)
    ensures |p| == |s| || !IsSpace(s[|p|])
  {
    if s != [] && IsSpace(s[0]) then [s[0]] + LeadingSpace(s[1..]) else []
  }

  /**
   * `gsub(/^#{p}/, '')` on the suffix `s` of a string, where `bol` says
   * whether the position of `s[0]` is a line start of the whole string: its
   * first position or one just after a line feed. Matches do not overlap and
   * are looked for from left to right; whether a position is a line start is
   * decided by the character before it in the original string, so a removed
   * prefix that ends with a line feed leaves a line start behind it.
   */
  function StripAtLineStarts(s: string, p: string, bol: bool): string
    decreases |s|
  {
    if s == [] then []
    else if bol && p != [] && p <= s then StripAtLineStarts(s[|p|..], p, p[|p| - 1] == '\n')
    else [s[0]] + StripAtLineStarts(s[1..], p, s[0] == '\n')
  }

  /** What `be_with_diff` leaves of `expected` before comparing. */
  function Dedent(expected: string): (r: string)
    ensures |r| <= |expected|
  {
    StripNeverLengthens(expected, LeadingSpace(expected), true);
    StripAtLineStarts(expected, LeadingSpace(expected), true)
  }

  /** Removing text at line starts never makes the string longer. */
  lemma {:induction false} StripNeverLengthens(s: string, p: string, bol: bool)
    ensures |StripAtLineStarts(s, p, bol)| <= |s|
    decreases |s|
  {
    if s != [] {
      if bol && p != [] && p <= s {
        StripNeverLengthens(s[|p|..], p, p[|p| - 1] == '\n');
      } else {
        StripNeverLengthens(s[1..], p, s[0] == '\n');
      }
    }
  }

  /**
   * `s.gsub!(/^#{p}/, '')`, scanning from left to right: `t` is the part not
   * yet scanned and `bol` says whether its first position is a line start.
   */
  method GsubLineStarts(s: string, p: string) returns (r: string)
    ensures r == StripAtLineStarts(s, p, true)
  {
    r := [];
    var t, bol := s, true;
    while t != []
      invariant r + StripAtLineStarts(t, p, bol) == StripAtLineStarts(s, p, true)
      decreases |t|
    {
      if bol && p != [] && p <= t {
        t, bol := t[|p|..], p[|p| - 1] == '\n';
      } else {
        r := r + [t[0]];
        t, bol := t[1..], t[0] == '\n';
      }
    }
    assert r + [] == r;
  }

  /**
   * `be_with_diff(expected)` matched against `actual`: also returns the
   * dedented text, which is what the failure message shows as expected.
   */
  method BeWithDiff(expected: string, actual: string) returns (matched: bool, shown: string)
    ensures shown == Dedent(expected)
    ensures matched <==> Dedent(expected) == actual
  {
    var spaces := LeadingSpace(expected);
    var e := GsubLineStarts(expected, spaces);
    shown := e;
    matched := e == actual;
  }

  /** `lockfile_should_be(expected)`, with the lockfile's text given as `lock`. */
  method LockfileShouldBe(lock: string, expected: string) returns (matched: bool)
    ensures matched <==> Dedent(expected) == lock
  {
    var shown;
    matched, shown := BeWithDiff(expected, lock);
  }

  // ------------------------------------------------------------- properties

  /** Removing the empty prefix changes nothing. */
  lemma {:induction false} StripEmptyIsIdentity(s: string, bol: bool)
    ensures StripAtLineStarts(s, [], bol) == s
    decreases |s|
  {
    if s != [] {
      StripEmptyIsIdentity(s[1..], s[0] == '\n');
    }
  }

  /** Text that does not start with whitespace is compared as it is. */
  lemma DedentUnindented(s: string)
    requires s == [] || !IsSpace(s[0])
    ensures Dedent(s) == s
  {
    StripEmptyIsIdentity(s, true);
  }

  /** Dedenting twice is dedenting once: the result no longer starts with whitespace. */
  lemma DedentIdempotent(s: string)
    ensures Dedent(Dedent(s)) == Dedent(s)
  {
    DedentStartsUnindented(s);
    DedentUnindented(Dedent(s));
  }

  /** The dedented text no longer starts with whitespace. */
  lemma DedentStartsUnindented(s: string)
    ensures Dedent(s) == [] || !IsSpace(Dedent(s)[0])
  {
    var p := LeadingSpace(s);
    var d := Dedent(s);
    if p == [] {
      StripEmptyIsIdentity(s, true);
    } else {
      var rest := s[|p|..];
      assert d == StripAtLineStarts(rest, p, p[|p| - 1] == '\n');
      if rest != [] {
        assert !(p <= rest) by { assert IsSpace(p[0]) && !IsSpace(rest[0]); }
        assert d[0] == rest[0];
      }
    }
  }

  /** `line` with `p` taken off its front, if it starts with `p`. */
  function DedentLine(line: string, p: string): string {
    if p <= line then line[|p|..] else line
  }

  /** The lines of `lines`, each dedented by `p`. */
  function DedentLines(lines: seq<string>, p: string): (r: seq<string>)
    ensures |r| == |lines|
    ensures forall k :: 0 <= k < |lines| ==> r[k] == DedentLine(lines[k], p)
  {
    seq(|lines|, k requires 0 <= k < |lines| => DedentLine(lines[k], p))
  }

  predicate OneLine(s: string) {
    '\n' !in s
  }

  lemma {:induction false} CopyRestOfLine(l: string, rest: string, p: string)
    requires OneLine(l)
    ensures StripAtLineStarts(l + rest, p, false) == l + StripAtLineStarts(rest, p, false)
    decreases |l|
  {
    if l == [] {
      assert l + rest == rest;
    } else {
      assert (l + rest)[1..] == l[1..] + rest;
      CopyRestOfLine(l[1..], rest, p);
      assert [l[0]] + (l[1..] + StripAtLineStarts(rest, p, false)) == l + StripAtLineStarts(rest, p, false);
    }
  }

  /** One line, followed by nothing or by a line feed, is dedented on its own. */
  lemma StripLine(l: string, rest: string, p: string)
    requires OneLine(l) && OneLine(p) && p != []
    requires rest == [] || rest[0] == '\n'
    ensures StripAtLineStarts(l + rest, p, true) ==
      DedentLine(l, p) + StripAtLineStarts(rest, p, false)
  {
    if p <= l {
      StripLineMatch(l, rest, p);
    } else {
      StripLineNoMatch(l, rest, p);
    }
  }

  lemma StripLineMatch(l: string, rest: string, p: string)
    requires OneLine(l) && OneLine(p) && p != [] && p <= l
    ensures StripAtLineStarts(l + rest, p, true) == l[|p|..] + StripAtLineStarts(rest, p, false)
  {
    var s := l + rest;
    assert s[..|p|] == l[..|p|];
    assert p[|p| - 1] != '\n';
    assert StripAtLineStarts(s, p, true) == StripAtLineStarts(s[|p|..], p, false);
    assert s[|p|..] == l[|p|..] + rest;
    CopyRestOfLine(l[|p|..], rest, p);
  }

  /** A one-line prefix that does not start the line does not start the text either. */
  lemma PrefixStopsAtLineEnd(l: string, rest: string, p: string)
    requires OneLine(p) && !(p <= l)
    requires rest == [] || rest[0] == '\n'
    ensures !(p <= l + rest)
  {
    var s := l + rest;
    if |p| <= |l| {
      assert s[..|p|] == l[..|p|];
    } else if rest != [] {
      assert s[|l|] == '\n' && p[|l|] != '\n';
    }
  }

  lemma StripLineNoMatch(l: string, rest: string, p: string)
    requires OneLine(l) && OneLine(p) && p != [] && !(p <= l)
    requires rest == [] || rest[0] == '\n'
    ensures StripAtLineStarts(l + rest, p, true) == l + StripAtLineStarts(rest, p, false)
  {
    var s := l + rest;
    PrefixStopsAtLineEnd(l, rest, p);
    if l == [] {
      assert s == rest;
      if rest != [] {
        assert StripAtLineStarts(rest, p, true) == [rest[0]] + StripAtLineStarts(rest[1..], p, true);
        assert StripAtLineStarts(rest, p, false) == [rest[0]] + StripAtLineStarts(rest[1..], p, true);
      }
      assert l + StripAtLineStarts(rest, p, false) == StripAtLineStarts(rest, p, false);
    } else {
      assert StripAtLineStarts(s, p, true) == [l[0]] + StripAtLineStarts(s[1..], p, false);
      assert s[1..] == l[1..] + rest;
      CopyRestOfLine(l[1..], rest, p);
      assert [l[0]] + (l[1..] + StripAtLineStarts(rest, p, false)) == l + StripAtLineStarts(rest, p, false);
    }
  }

  /**
   * When the prefix holds no line feed, the dedent works line by line: each
   * line that starts with the prefix loses it, and nothing else changes.
   */
  lemma {:induction false} DedentByLines(lines: seq<string>, p: string)
    requires |lines| >= 1 && forall k :: 0 <= k < |lines| ==> OneLine(lines[k])
    requires OneLine(p) && p != []
    ensures StripAtLineStarts(Join(lines, "\n"), p, true) == Join(DedentLines(lines, p), "\n")
    decreases |lines|
  {
    var l := lines[0];
    if |lines| == 1 {
      assert l + [] == l;
      StripLine(l, [], p);
      assert DedentLine(l, p) + [] == DedentLine(l, p);
    } else {
      var tail := Join(lines[1..], "\n");
      assert Join(lines, "\n") == l + ("\n" + tail);
      StripLine(l, "\n" + tail, p);
      assert ("\n" + tail)[1..] == tail;
      DedentByLines(lines[1..], p);
      assert DedentLines(lines, p)[1..] == DedentLines(lines[1..], p);
    }
  }

  /**
   * When the text starts with a blank line, the leading run reaches over the
   * line feed into the next line's indentation, and only that whole run is
   * removed where it recurs: a later line indented like the first non-blank
   * one keeps its indentation.
   */
  lemma DedentBlankFirstLine(q: string, a: string, b: string)
    requires q != [] && AllSpace(q) && OneLine(q)
    requires a != [] && !IsSpace(a[0]) && OneLine(a) && OneLine(b)
    ensures Dedent("\n" + q + a + "\n" + q + b + "\n") == a + "\n" + q + b + "\n"
  {
    var p := "\n" + q;
    var line2 := q + b + "\n";
    var rest := a + ("\n" + line2);
    BlankFirstLineShape(q, a, b);
    assert AllSpace(p) && p[|p| - 1] != '\n' by { assert p[|p| - 1] == q[|q| - 1]; }
    LeadingSpaceOfIndented(p, rest);
    calc {
      Dedent(p + rest);
      StripAtLineStarts(p + rest, p, true);
      { StripWholePrefix(p, rest); }
      StripAtLineStarts(rest, p, false);
      { CopyRestOfLine(a, "\n" + line2, p); }
      a + StripAtLineStarts("\n" + line2, p, false);
      { StripAfterLineFeed(line2, p); }
      a + ("\n" + StripAtLineStarts(line2, p, true));
      { IndentedLineKept(q, b, p); }
      a + ("\n" + line2);
    }
  }

  /** The text of `DedentBlankFirstLine`, regrouped around its parts. */
  lemma BlankFirstLineShape(q: string, a: string, b: string)
    ensures "\n" + q + a + "\n" + q + b + "\n" == ("\n" + q) + (a + ("\n" + (q + b + "\n")))
    ensures a + ("\n" + (q + b + "\n")) == a + "\n" + q + b + "\n"
  {
  }

  lemma StripWholePrefix(p: string, rest: string)
    requires p != [] && p[|p| - 1] != '\n'
    ensures StripAtLineStarts(p + rest, p, true) == StripAtLineStarts(rest, p, false)
  {
    var s := p + rest;
    assert s[..|p|] == p && s[|p|..] == rest;
  }

  lemma StripAfterLineFeed(s: string, p: string)
    ensures StripAtLineStarts("\n" + s, p, false) == "\n" + StripAtLineStarts(s, p, true)
  {
    assert ("\n" + s)[1..] == s;
  }

  /** A line indented by `q` is kept whole when the prefix starts with a line feed. */
  lemma IndentedLineKept(q: string, b: string, p: string)
    requires q != [] && OneLine(q) && OneLine(b) && p != [] && p[0] == '\n'
    ensures StripAtLineStarts(q + b + "\n", p, true) == q + b + "\n"
  {
    var line := q + b + "\n";
    assert line[0] == q[0];
    assert !(p <= line);
    var more := q[1..] + b;
    assert line[1..] == more + "\n";
    assert OneLine(more) by { assert forall k :: 0 <= k < |q[1..]| ==> q[1..][k] == q[k + 1]; }
    CopyRestOfLine(more, "\n", p);
    StripAfterLineFeed([], p);
    assert "\n" + [] == "\n";
    assert [q[0]] + (more + "\n") == line;
  }

  /** Every line of `lines` with `p` put in front of it. */
  function Indent(lines: seq<string>, p: string): (r: seq<string>)
    ensures |r| == |lines|
    ensures forall k :: 0 <= k < |lines| ==> r[k] == p + lines[k]
  {
    seq(|lines|, k requires 0 <= k < |lines| => p + lines[k])
  }

  lemma {:induction false} LeadingSpaceOfIndented(p: string, x: string)
    requires AllSpace(p) && x != [] && !IsSpace(x[0])
    ensures LeadingSpace(p + x) == p
    decreases |p|
  {
    if p != [] {
      assert (p + x)[1..] == p[1..] + x;
      LeadingSpaceOfIndented(p[1..], x);
    }
  }

  /**
   * Round trip for the indented heredocs the lockfile tests write: text
   * whose every line is indented by the same whitespace `p`, ending with a
   * line feed, dedents to the unindented lines, however much deeper the
   * lines after the first are indented.
   */
  lemma DedentIndentedHeredoc(lines: seq<string>, p: string)
    requires |lines| >= 1 && forall k :: 0 <= k < |lines| ==> OneLine(lines[k])
    requires lines[0] != [] && !IsSpace(lines[0][0])
    requires p != [] && AllSpace(p) && OneLine(p)
    ensures Dedent(Join(Indent(lines, p), "\n") + "\n") == Join(lines, "\n") + "\n"
  {
    var indented := Indent(lines, p) + [[]];
    var text := Join(indented, "\n");
    JoinTrailingEmpty(Indent(lines, p), "\n");
    assert text == Join(Indent(lines, p), "\n") + "\n";
    HeredocLeadingSpace(indented, lines[0], p);
    forall k | 0 <= k < |indented| ensures OneLine(indented[k]) {
      if k < |lines| { assert indented[k] == p + lines[k]; }
    }
    DedentByLines(indented, p);
    DedentIndentedLines(lines, p);
    JoinTrailingEmpty(lines, "\n");
  }

  lemma HeredocLeadingSpace(indented: seq<string>, first: string, p: string)
    requires |indented| >= 1 && indented[0] == p + first
    requires first != [] && !IsSpace(first[0]) && AllSpace(p)
    ensures LeadingSpace(Join(indented, "\n")) == p
  {
    var text := Join(indented, "\n");
    JoinStartsWithFirst(indented, "\n");
    var x := text[|p|..];
    assert text == p + x;
    assert x[0] == first[0];
    LeadingSpaceOfIndented(p, x);
  }

  lemma DedentIndentedLines(lines: seq<string>, p: string)
    ensures DedentLines(Indent(lines, p) + [[]], p) == lines + [[]] || p == []
  {
    if p != [] {
      var d := DedentLines(Indent(lines, p) + [[]], p);
      forall k | 0 <= k < |lines| ensures d[k] == lines[k] {
        assert (Indent(lines, p) + [[]])[k] == p + lines[k];
        assert (p + lines[k])[|p|..] == lines[k];
      }
      assert d[|lines|] == [];
    }
  }
}
