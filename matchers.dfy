/**
 * The boolean match logic of the custom matchers `have_dep`, `have_gem` and
 * `have_rubyopts`; the RSpec DSL around them and their failure messages are
 * not modelled.
 */
module Matchers {
  import opened RubyText
  import opened RubyArray

  // ---------------------------------------------------------------- have_dep

  /**
   * `have_dep`: the collection holds exactly one dependency and it equals the
   * one built from the matcher's arguments. Dependency equality is a
   * parameter, since how a dependency compares itself is not part of this model.
   */
  function HaveDep<D>(actual: seq<D>, dep: D, eq: (D, D) -> bool): (r: bool)
    ensures r <==> |actual| == 1 && eq(actual[0], dep)
  {
    |actual| == 1 && forall k | 0 <= k < |actual| :: eq(actual[k], dep)
  }

  /** With plain structural equality, `have_dep` means "is exactly `[dep]`". */
  lemma HaveDepIsSingleton<D>(actual: seq<D>, dep: D)
    ensures HaveDep(actual, dep, (a: D, b: D) => a == b) <==> actual == [dep]
  {
    if |actual| == 1 {
      assert actual == [actual[0]];
    }
  }

  // ---------------------------------------------------------------- have_gem

  /** The full names of the given specifications, in order. */
  function FullNames<S>(actual: seq<S>, fullName: S -> string): (r: seq<string>)
    ensures |r| == |actual|
    ensures forall k :: 0 <= k < |actual| ==> r[k] == fullName(actual[k])
  {
    seq(|actual|, k requires 0 <= k < |actual| => fullName(actual[k]))
  }

  /**
   * `have_gem`: as many specifications as expected names, and the full name
   * of each specification is among the expected names.
   */
  function HaveGem<S>(actual: seq<S>, fullName: S -> string, names: seq<string>): (r: bool)
    ensures |actual| != |names| ==> !r
    ensures |actual| == |names| ==>
      (r <==> forall k :: 0 <= k < |actual| ==> fullName(actual[k]) in names)
  {
    |actual| == |names| && forall k | 0 <= k < |actual| :: fullName(actual[k]) in names
  }

  /** Exactly the expected gems, in any order, always pass `have_gem`. */
  lemma HaveGemAcceptsExactMatch<S>(actual: seq<S>, fullName: S -> string, names: seq<string>)
    requires multiset(FullNames(actual, fullName)) == multiset(names)
    ensures HaveGem(actual, fullName, names)
  {
    var fs := FullNames(actual, fullName);
    assert |fs| == |multiset(fs)| == |multiset(names)| == |names|;
    forall k | 0 <= k < |actual| ensures fullName(actual[k]) in names {
      assert fs[k] in multiset(fs);
    }
  }

  /**
   * The converse does not hold: `have_gem` does not check that every
   * expected name is present, so one gem listed twice stands in for another.
   */
  lemma HaveGemIgnoresMultiplicity<S>(x: S, fullName: S -> string, other: string)
    requires other != fullName(x)
    ensures HaveGem([x, x], fullName, [fullName(x), other])
    ensures multiset(FullNames([x, x], fullName)) != multiset([fullName(x), other])
  {
    var fs := FullNames([x, x], fullName);
    assert fs == [fullName(x), fullName(x)];
    assert multiset(fs)[other] == 0;
  }

  // ----------------------------------------------------------- have_rubyopts

  /** An argument of `have_rubyopts`: a string or a (nested) array of them. */
  datatype Opt = Str(s: string) | Arr(items: seq<Opt>)

  /** `args.flatten`. */
  function Flatten(args: seq<Opt>): (r: seq<string>)
    ensures forall k :: 0 <= k < |args| && args[k].Str? ==> args[k].s in r
    ensures (forall k :: 0 <= k < |args| ==> args[k].Str?) ==>
      |r| == |args| && forall k :: 0 <= k < |args| ==> r[k] == args[k].s
    decreases args
  {
    if args == [] then []
    else
      (match args[0]
       case Str(s) => [s]
       case Arr(items) => Flatten(items))
      + Flatten(args[1..])
  }

  /** `flatten` distributes over concatenation. */
  lemma {:induction false} FlattenAppend(a: seq<Opt>, b: seq<Opt>)
    ensures Flatten(a + b) == Flatten(a) + Flatten(b)
    decreases |a|
  {
    if a == [] {
      assert a + b == b;
    } else {
      assert (a + b)[0] == a[0] && (a + b)[1..] == a[1..] + b;
      FlattenAppend(a[1..], b);
    }
  }

  /** A nested array is spliced in place: its strings, flattened, at its position. */
  lemma FlattenNested(xs: seq<Opt>, rest: seq<Opt>)
    ensures Flatten([Arr(xs)] + rest) == Flatten(xs) + Flatten(rest)
  {
    assert ([Arr(xs)] + rest)[1..] == rest;
  }

  /** The expected options: a lone string left after flattening is split on whitespace. */
  function ExpectedOptions(args: seq<Opt>): (r: seq<string>)
    ensures |Flatten(args)| == 1 ==> forall k :: 0 <= k < |r| ==> NoSpace(r[k])
    ensures |Flatten(args)| != 1 ==> r == Flatten(args)
  {
    var flat := Flatten(args);
    if |flat| == 1 then Split(flat[0]) else flat
  }

  /** What `have_rubyopts` is matched against: command output or an array of options. */
  datatype Actual = Text(s: string) | List(items: seq<string>)

  /** The actual options: output is split on whitespace, an array is taken as it is. */
  function ActualOptions(actual: Actual): (r: seq<string>)
    ensures actual.List? ==> r == actual.items
    ensures actual.Text? ==> (forall k :: 0 <= k < |r| ==> NoSpace(r[k])) && (r == [] <==> AllSpace(actual.s))
  {
    if actual.Text? then SplitEmptyIffAllSpace(actual.s); Split(actual.s) else actual.items
  }

  /**
   * The options taken from command output are exactly its tokens, with an
   * empty first option when the output starts with whitespace.
   */
  lemma ActualOptionsOfOutput(lead: string, ts: seq<string>, ws: seq<string>)
    requires AllSpace(lead) && Tokens(ts) && |ws| == |ts| && Separators(ws)
    ensures ActualOptions(Text(lead + Interleave(ts, ws))) == (if lead == [] || ts == [] then [] else [[]]) + ts
  {
    SplitInterleave(lead, ts, ws);
  }

  /** `have_rubyopts`: every expected option is present and `actual.uniq.size == actual.size`. */
  predicate HaveRubyopts(args: seq<Opt>, actual: Actual)
    ensures HaveRubyopts(args, actual) ==> Distinct(ActualOptions(actual))
  {
    var expected, present := ExpectedOptions(args), ActualOptions(actual);
    UniqSizeIffDistinct(present);
    (forall k | 0 <= k < |expected| :: expected[k] in present) && |Uniq(present)| == |present|
  }

  /** `have_rubyopts` passes exactly when all expected options occur and none occurs twice. */
  lemma HaveRubyoptsIff(args: seq<Opt>, actual: Actual)
    ensures var expected, present := ExpectedOptions(args), ActualOptions(actual);
      HaveRubyopts(args, actual) <==>
        (forall k :: 0 <= k < |expected| ==> expected[k] in present) && Distinct(present)
  {
    UniqSizeIffDistinct(ActualOptions(actual));
  }

  /** A repeated option makes `have_rubyopts` fail, whatever was expected. */
  lemma DuplicateOptionFails(args: seq<Opt>, actual: Actual, i: nat, j: nat)
    requires i < j < |ActualOptions(actual)|
    requires ActualOptions(actual)[i] == ActualOptions(actual)[j]
    ensures !HaveRubyopts(args, actual)
  {
    UniqSizeIffDistinct(ActualOptions(actual));
  }

  /**
   * The order of the actual options does not matter, whether they come as
   * command output (a String, split first) or as an Array.
   */
  lemma HaveRubyoptsOrderInsensitive(args: seq<Opt>, a: Actual, b: Actual)
    requires multiset(ActualOptions(a)) == multiset(ActualOptions(b))
    ensures HaveRubyopts(args, a) == HaveRubyopts(args, b)
  {
    var pa, pb := ActualOptions(a), ActualOptions(b);
    UniqSizeIffDistinct(pa);
    UniqSizeIffDistinct(pb);
    DistinctPermutation(pa, pb);
    forall x | true ensures x in pa <==> x in pb {
      assert x in pa <==> x in multiset(pa);
      assert x in pb <==> x in multiset(pb);
    }
  }

  /**
   * One expected argument, possibly wrapped in arrays, is split on
   * whitespace: any runs of whitespace between the options, before them
   * (giving an empty first option) or after them.
   */
  lemma LoneArgumentIsSplit(args: seq<Opt>, lead: string, ts: seq<string>, ws: seq<string>)
    requires AllSpace(lead) && Tokens(ts) && |ws| == |ts| && Separators(ws)
    requires Flatten(args) == [lead + Interleave(ts, ws)]
    ensures ExpectedOptions(args) == (if lead == [] || ts == [] then [] else [[]]) + ts
  {
    SplitInterleave(lead, ts, ws);
  }

  /** The case of options separated by single spaces. */
  lemma SingleArgumentIsSplit(args: seq<Opt>, options: seq<string>)
    requires Tokens(options)
    requires Flatten(args) == [Join(options, " ")]
    ensures ExpectedOptions(args) == options
  {
    SplitJoin(options, []);
    assert Join(options, " ") + [] == Join(options, " ");
  }

  /**
   * The RUBYOPT check of `bundle exec`: echoing a RUBYOPT that holds the
   * activation options once passes.
   */
  lemma RubyoptOncePasses(options: seq<string>)
    requires Tokens(options) && Distinct(options)
    ensures HaveRubyopts([Str(Join(options, " "))], Text(Join(options, " ") + "\n"))
  {
    var rubyopt := Join(options, " ");
    SingleArgumentIsSplit([Str(rubyopt)], options);
    SplitJoin(options, "\n");
    assert ActualOptions(Text(rubyopt + "\n")) == options;
    HaveRubyoptsIff([Str(rubyopt)], Text(rubyopt + "\n"));
  }

  /**
   * Echoing a RUBYOPT that holds the activation options twice (activation
   * appended to an already activated RUBYOPT instead of merging) fails.
   */
  lemma RubyoptTwiceFails(options: seq<string>)
    requires |options| >= 1 && Tokens(options)
    ensures !HaveRubyopts([Str(Join(options, " "))], Text(Join(options, " ") + " " + Join(options, " ") + "\n"))
  {
    var rubyopt := Join(options, " ");
    JoinAppend(options, options, " ");
    SplitJoin(options + options, "\n");
    var actual := Text(rubyopt + " " + rubyopt + "\n");
    assert ActualOptions(actual) == options + options;
    DuplicateOptionFails([Str(rubyopt)], actual, 0, |options|);
  }
}
