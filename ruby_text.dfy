/**
 * The string operations of Ruby that the matchers rely on:
 * the whitespace class `\s`, `String#split(/\s+/)` and `Array#join(" ")`.
 */
module RubyText {

  /** Ruby's `\s`: space, tab, line feed, carriage return and form feed. */
  predicate IsSpace(c: char) {
    c == ' ' || c == '\t' || c == '\n' || c == '\r' || c == '\U{000C}'
  }

  predicate NoSpace(s: string) {
    forall k :: 0 <= k < |s| ==> !IsSpace(s[k])
  }

  predicate AllSpace(s: string) {
    forall k :: 0 <= k < |s| ==> IsSpace(s[k])
  }

  /** What is left of `s` after its maximal leading run of whitespace. */
  function TrimLeft(s: string): (r: string)
    ensures |r| <= |s| && r == s[|s| - |r|..]
    ensures r == [] || !IsSpace(r[0])
  {
    if s != [] && IsSpace(s[0]) then TrimLeft(s[1..]) else s
  }

  /**
   * The fields of `s` between maximal runs of whitespace, before Ruby drops
   * the trailing empty ones. A leading run of whitespace yields an empty first
   * field; a trailing run yields an empty last field.
   */
  function Fields(s: string): (r: seq<string>)
    ensures |r| >= 1
    ensures forall k :: 0 <= k < |r| ==> NoSpace(r[k])
    ensures forall k :: 0 < k < |r| - 1 ==> r[k] != []
    ensures r[0] == [] <==> s == [] || IsSpace(s[0])
    decreases |s|
  {
    if s == [] then [[]]
    else if IsSpace(s[0]) then [[]] + Fields(TrimLeft(s))
    else
      var rest := Fields(s[1..]);
      [[s[0]] + rest[0]] + rest[1..]
  }

  /** Ruby's removal of trailing empty fields when `split` is given no limit. */
  function DropTrailingEmpty(fs: seq<string>): (r: seq<string>)
    ensures r <= fs
    ensures r == [] || r[|r| - 1] != []
    ensures forall k :: |r| <= k < |fs| ==> fs[k] == []
  {
    if fs == [] then []
    else if fs[|fs| - 1] == [] then DropTrailingEmpty(fs[..|fs| - 1])
    else fs
  }

  /**
   * `s.split(/\s+/)`: no token holds whitespace, only the first token can be
   * empty (when `s` starts with whitespace), and the last one never is.
   */
  function Split(s: string): (r: seq<string>)
    ensures forall k :: 0 <= k < |r| ==> NoSpace(r[k])
    ensures forall k :: 1 <= k < |r| ==> r[k] != []
    ensures r == [] || r[|r| - 1] != []
  {
    DropTrailingEmpty(Fields(s))
  }

  /** `ts.join(sep)`. */
  function Join(ts: seq<string>, sep: string): string {
    if ts == [] then []
    else if |ts| == 1 then ts[0]
    else ts[0] + sep + Join(ts[1..], sep)
  }

  /** Tokens that `split` can give back: non-empty and free of whitespace. */
  predicate Tokens(ts: seq<string>) {
    forall k :: 0 <= k < |ts| ==> ts[k] != [] && NoSpace(ts[k])
  }

  /** A string that is nothing but whitespace splits into no tokens at all. */
  lemma SplitAllSpace(w: string)
    requires AllSpace(w)
    ensures Split(w) == []
  {
    if w != [] {
      assert TrimLeft(w) == [];
      assert Fields(w) == [[], []];
    }
  }

  /** `split` finds no token exactly when the text is empty or only whitespace. */
  lemma SplitEmptyIffAllSpace(s: string)
    ensures Split(s) == [] <==> AllSpace(s)
  {
    if AllSpace(s) {
      SplitAllSpace(s);
    } else {
      var t := TrimLeft(s);
      if t == [] {
        TrimLeftEmpty(s);
      }
      var f := Fields(s);
      var j := if IsSpace(s[0]) then 1 else 0;
      assert f[j] != [] by {
        if IsSpace(s[0]) {
          assert f == [[]] + Fields(t);
        }
      }
    }
  }

  /** Only whitespace is trimmed away. */
  lemma {:induction false} TrimLeftEmpty(s: string)
    requires TrimLeft(s) == []
    ensures AllSpace(s)
    decreases |s|
  {
    if s != [] {
      assert IsSpace(s[0]) && TrimLeft(s[1..]) == [];
      TrimLeftEmpty(s[1..]);
      assert forall k :: 1 <= k < |s| ==> s[k] == s[1..][k - 1];
    }
  }

  /** A leading run of whitespace gives `split` an empty first token: a corollary of `SplitAfterSpace`. */
  lemma SplitLeadingSpace(w: string, s: string)
    requires w != [] && AllSpace(w) && s != [] && !IsSpace(s[0])
    ensures |Split(w + s)| >= 2 && Split(w + s)[0] == []
  {
    SplitAfterSpace(w, s);
    SplitEmptyIffAllSpace(s);
  }

  lemma {:induction false} TrimLeftSpace(w: string, s: string)
    requires AllSpace(w) && (s == [] || !IsSpace(s[0]))
    ensures TrimLeft(w + s) == s
    decreases |w|
  {
    if w != [] {
      assert (w + s)[1..] == w[1..] + s;
      TrimLeftSpace(w[1..], s);
    }
  }

  /** A whitespace-free prefix is glued onto the first field of what follows. */
  lemma {:induction false} FieldsPrepend(t: string, rest: string)
    requires NoSpace(t)
    ensures Fields(t + rest) == [t + Fields(rest)[0]] + Fields(rest)[1..]
    decreases |t|
  {
    var f := Fields(rest);
    if t == [] {
      assert t + rest == rest && t + f[0] == f[0];
      assert [f[0]] + f[1..] == f;
    } else {
      var s := t + rest;
      assert s[0] == t[0] && !IsSpace(s[0]);
      assert s[1..] == t[1..] + rest;
      FieldsPrepend(t[1..], rest);
      var r := Fields(s[1..]);
      assert r[0] == t[1..] + f[0] && r[1..] == f[1..];
      assert Fields(s) == [[s[0]] + r[0]] + r[1..];
      assert [t[0]] + (t[1..] + f[0]) == t + f[0];
    }
  }

  /** A run of whitespace and nothing else gives an empty field on each side. */
  lemma FieldsAllSpace(w: string)
    requires w != [] && AllSpace(w)
    ensures Fields(w) == [[], []]
  {
    TrimLeftSpace(w, []);
    assert w + [] == w;
  }

  /** A run of whitespace before a token (or the end) ends the current field. */
  lemma FieldsAfterSpace(w: string, x: string)
    requires w != [] && AllSpace(w) && (x == [] || !IsSpace(x[0]))
    ensures Fields(w + x) == [[]] + Fields(x)
  {
    assert (w + x)[0] == w[0];
    TrimLeftSpace(w, x);
  }

  /** Leading whitespace before a token puts one empty token in front of the others. */
  lemma SplitAfterSpace(w: string, s: string)
    requires w != [] && AllSpace(w) && s != [] && !IsSpace(s[0])
    ensures Split(w + s) == [[]] + Split(s)
  {
    FieldsAfterSpace(w, s);
    DropTrailingEmptyPrepend(Fields(s));
  }

  lemma {:induction false} DropTrailingEmptyPrepend(f: seq<string>)
    requires f != [] && f[0] != []
    ensures DropTrailingEmpty([[]] + f) == [[]] + DropTrailingEmpty(f)
    decreases |f|
  {
    var g: seq<string> := [[]] + f;
    if f[|f| - 1] == [] {
      var h := f[..|f| - 1];
      assert g[..|g| - 1] == [[]] + h;
      DropTrailingEmptyPrepend(h);
    }
  }

  /**
   * `ts[0] + ws[0] + ts[1] + ws[1] + ...`: each token followed by the run of
   * whitespace after it.
   */
  function Interleave(ts: seq<string>, ws: seq<string>): string
    requires |ws| == |ts|
  {
    if ts == [] then [] else ts[0] + ws[0] + Interleave(ts[1..], ws[1..])
  }

  /** Runs of whitespace that can separate tokens: all but the last are non-empty. */
  predicate Separators(ws: seq<string>) {
    forall k :: 0 <= k < |ws| ==> AllSpace(ws[k]) && (k < |ws| - 1 ==> ws[k] != [])
  }

  lemma InterleaveHead(ts: seq<string>, ws: seq<string>)
    requires |ws| == |ts| >= 1 && ts[0] != []
    ensures Interleave(ts, ws) != [] && Interleave(ts, ws)[0] == ts[0][0]
  {
    assert Interleave(ts, ws) == ts[0] + (ws[0] + Interleave(ts[1..], ws[1..]));
  }

  lemma FieldsInterleaveOne(t: string, w: string)
    requires t != [] && NoSpace(t) && AllSpace(w)
    ensures Fields(t + w) == [t] + (if w == [] then [] else [[]])
  {
    FieldsPrepend(t, w);
    assert t + [] == t;
    if w != [] {
      FieldsAllSpace(w);
    } else {
      assert t + w == t;
    }
  }

  lemma FieldsInterleaveStep(t: string, w: string, x: string)
    requires t != [] && NoSpace(t) && w != [] && AllSpace(w) && x != [] && !IsSpace(x[0])
    ensures Fields(t + (w + x)) == [t] + Fields(x)
  {
    FieldsPrepend(t, w + x);
    FieldsAfterSpace(w, x);
    var g := Fields(w + x);
    assert g[0] == [] && g[1..] == Fields(x);
    assert t + [] == t;
  }

  /** The fields of interleaved tokens are the tokens, plus an empty one after trailing whitespace. */
  lemma {:induction false} FieldsInterleave(ts: seq<string>, ws: seq<string>)
    requires |ws| == |ts| >= 1 && Tokens(ts) && Separators(ws)
    ensures Fields(Interleave(ts, ws)) == ts + (if ws[|ws| - 1] == [] then [] else [[]])
    decreases |ts|
  {
    var tail: seq<string> := if ws[|ws| - 1] == [] then [] else [[]];
    if |ts| == 1 {
      assert Interleave(ts, ws) == ts[0] + ws[0] by {
        assert Interleave(ts[1..], ws[1..]) == [];
      }
      FieldsInterleaveOne(ts[0], ws[0]);
    } else {
      var x := Interleave(ts[1..], ws[1..]);
      assert Interleave(ts, ws) == ts[0] + (ws[0] + x);
      InterleaveHead(ts[1..], ws[1..]);
      FieldsInterleaveStep(ts[0], ws[0], x);
      FieldsInterleave(ts[1..], ws[1..]);
      assert [ts[0]] + (ts[1..] + tail) == ts + tail;
    }
  }

  /**
   * What `split(/\s+/)` returns, in general: for any tokens separated by
   * non-empty runs of whitespace, with any whitespace before and after, the
   * tokens, preceded by an empty token when there is leading whitespace.
   */
  lemma SplitInterleave(lead: string, ts: seq<string>, ws: seq<string>)
    requires AllSpace(lead) && Tokens(ts) && |ws| == |ts| && Separators(ws)
    ensures Split(lead + Interleave(ts, ws)) == (if lead == [] || ts == [] then [] else [[]]) + ts
  {
    if ts == [] {
      assert lead + Interleave(ts, ws) == lead;
      SplitAllSpace(lead);
    } else {
      var head: seq<string> := if lead == [] then [] else [[]];
      var tail: seq<string> := if ws[|ws| - 1] == [] then [] else [[]];
      FieldsLeadInterleave(lead, ts, ws);
      assert ts[|ts| - 1] != [];
      DropTrailingEmptyAfter(head + ts, tail);
    }
  }

  lemma FieldsLeadInterleave(lead: string, ts: seq<string>, ws: seq<string>)
    requires AllSpace(lead) && Tokens(ts) && |ws| == |ts| >= 1 && Separators(ws)
    ensures Fields(lead + Interleave(ts, ws)) ==
      (if lead == [] then [] else [[]]) + ts + (if ws[|ws| - 1] == [] then [] else [[]])
  {
    if lead == [] {
      FieldsNoLeadInterleave(lead, ts, ws);
    } else {
      FieldsSpaceBeforeTokens(lead, ts, ws);
    }
  }

  lemma FieldsNoLeadInterleave(lead: string, ts: seq<string>, ws: seq<string>)
    requires lead == [] && Tokens(ts) && |ws| == |ts| >= 1 && Separators(ws)
    ensures Fields(lead + Interleave(ts, ws)) == [] + ts + (if ws[|ws| - 1] == [] then [] else [[]])
  {
    var tail: seq<string> := if ws[|ws| - 1] == [] then [] else [[]];
    FieldsInterleave(ts, ws);
    assert lead + Interleave(ts, ws) == Interleave(ts, ws);
    assert [] + ts + tail == ts + tail;
  }

  lemma FieldsSpaceBeforeTokens(lead: string, ts: seq<string>, ws: seq<string>)
    requires lead != [] && AllSpace(lead) && Tokens(ts) && |ws| == |ts| >= 1 && Separators(ws)
    ensures Fields(lead + Interleave(ts, ws)) == [[]] + ts + (if ws[|ws| - 1] == [] then [] else [[]])
  {
    var x := Interleave(ts, ws);
    var tail: seq<string> := if ws[|ws| - 1] == [] then [] else [[]];
    InterleaveHead(ts, ws);
    assert !IsSpace(x[0]) by { assert ts[0] != [] && NoSpace(ts[0]); }
    FieldsAfterSpace(lead, x);
    FieldsInterleave(ts, ws);
    assert [[]] + (ts + tail) == [[]] + ts + tail;
  }

  lemma DropTrailingEmptyAfter(fs: seq<string>, tail: seq<string>)
    requires fs != [] && fs[|fs| - 1] != [] && (tail == [] || tail == [[]])
    ensures DropTrailingEmpty(fs + tail) == fs
  {
    if tail != [] {
      assert (fs + tail)[..|fs|] == fs;
    } else {
      assert fs + tail == fs;
    }
  }

  /** The separators of `ts.join(" ") + w`: a single space, then `w` after the last token. */
  function JoinSeparators(n: nat, w: string): (ws: seq<string>)
    ensures |ws| == n
    ensures forall k :: 0 <= k < n ==> ws[k] == if k == n - 1 then w else " "
  {
    seq(n, k requires 0 <= k < n => if k == n - 1 then w else " ")
  }

  lemma {:induction false} JoinAsInterleave(ts: seq<string>, w: string)
    ensures Join(ts, " ") + w == if ts == [] then w else Interleave(ts, JoinSeparators(|ts|, w))
    decreases |ts|
  {
    if ts == [] {
      assert [] + w == w;
    } else if |ts| == 1 {
      var ws := JoinSeparators(1, w);
      assert ws[1..] == [] && ts[1..] == [];
      assert Interleave(ts, ws) == ts[0] + w + [];
    } else {
      var ws := JoinSeparators(|ts|, w);
      JoinAsInterleave(ts[1..], w);
      assert ws[1..] == JoinSeparators(|ts| - 1, w);
      assert Interleave(ts, ws) == ts[0] + " " + Interleave(ts[1..], ws[1..]);
    }
  }

  /**
   * Round trip: joining tokens with single spaces, with or without trailing
   * whitespace (a line feed, say), and splitting again gives the tokens back.
   */
  lemma SplitJoin(ts: seq<string>, w: string)
    requires Tokens(ts) && AllSpace(w)
    ensures Split(Join(ts, " ") + w) == ts
  {
    JoinAsInterleave(ts, w);
    if ts == [] {
      SplitAllSpace(w);
    } else {
      var ws := JoinSeparators(|ts|, w);
      assert Separators(ws);
      assert [] + Interleave(ts, ws) == Interleave(ts, ws);
      SplitInterleave([], ts, ws);
    }
  }

  /** The first element is where the joined string begins. */
  lemma JoinStartsWithFirst(ts: seq<string>, sep: string)
    requires |ts| >= 1
    ensures ts[0] <= Join(ts, sep)
  {
  }

  /** An empty last element leaves one separator at the end. */
  lemma JoinTrailingEmpty(ts: seq<string>, sep: string)
    requires |ts| >= 1
    ensures Join(ts + [[]], sep) == Join(ts, sep) + sep
  {
    JoinAppend(ts, [[]], sep);
    assert Join(ts, sep) + sep + [] == Join(ts, sep) + sep;
  }

  /** Joining two lists is joining each and putting the separator between. */
  lemma {:induction false} JoinAppend(a: seq<string>, b: seq<string>, sep: string)
    requires |a| >= 1 && |b| >= 1
    ensures Join(a + b, sep) == Join(a, sep) + sep + Join(b, sep)
    decreases |a|
  {
    if |a| == 1 {
      assert (a + b)[1..] == b;
    } else {
      assert (a + b)[1..] == a[1..] + b;
      JoinAppend(a[1..], b, sep);
    }
  }
}
