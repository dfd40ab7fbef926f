/**
 * The argument handling of `should_be_installed` (alias
 * `should_be_available`) and `should_not_be_installed`: a trailing options
 * Hash is popped off, its `:groups` entry becomes the group arguments of
 * every Ruby probe that is run, and each remaining "name version [platform]"
 * descriptor is split on whitespace. Running the probe and checking its
 * output are not modelled; each method returns the probes it would run.
 */
module Installed {
  import opened Wrappers
  import opened RubyText
  import opened RubyArray

  /** The value under `:groups`: absent, one group, or an array of groups. */
  datatype GroupsValue = NoGroups | OneGroup(group: string) | GroupList(groups: seq<string>)

  /** An options Hash: its `:groups` entry and the other entries, passed on as they are. */
  datatype Options = Options(groups: GroupsValue, others: map<string, string>)

  /** `{}`, used when no options Hash was given. */
  const NoOptions := Options(NoGroups, map[])

  /** An argument of the two methods: a descriptor string or an options Hash. */
  datatype Arg = Descriptor(text: string) | OptionsHash(opts: Options)

  /** An argument handed on to `run` after the Ruby code: a group, or the options Hash itself. */
  datatype RunArg = Group(name: string) | RunOptions(opts: Options)

  /** `Array(opts[:groups])`: nil becomes `[]`, an Array is itself, anything else is wrapped. */
  function GroupArray(g: GroupsValue): (r: seq<string>)
    ensures g.NoGroups? ==> r == []
    ensures g.OneGroup? ==> r == [g.group]
    ensures g.GroupList? ==> r == g.groups
  {
    match g
    case NoGroups => []
    case OneGroup(x) => [x]
    case GroupList(xs) => xs
  }

  /** The arguments every probe is run with: the groups, then the options Hash. */
  function RunArgs(opts: Options): (r: seq<RunArg>)
    ensures |r| == |GroupArray(opts.groups)| + 1 && r[|r| - 1] == RunOptions(opts)
    ensures forall k :: 0 <= k < |r| - 1 ==> r[k] == Group(GroupArray(opts.groups)[k])
  {
    var gs := GroupArray(opts.groups);
    seq(|gs|, k requires 0 <= k < |gs| => Group(gs[k])) + [RunOptions(opts)]
  }

  /** `names.last.is_a?(Hash) ? names.pop : {}`: the options in effect. */
  function OptionsOf(names: seq<Arg>): (r: Options)
    ensures if |Remaining(names)| < |names| then names == Remaining(names) + [OptionsHash(r)] else r == NoOptions
  {
    if names != [] && names[|names| - 1].OptionsHash? then names[|names| - 1].opts else NoOptions
  }

  /** The arguments left in `names` after the pop. */
  function Remaining(names: seq<Arg>): (r: seq<Arg>)
    ensures r <= names
    ensures |r| == |names| || (|r| == |names| - 1 && names[|names| - 1].OptionsHash?)
    ensures names != [] && names[|names| - 1].OptionsHash? ==> |r| == |names| - 1
  {
    if names != [] && names[|names| - 1].OptionsHash? then names[..|names| - 1] else names
  }

  /**
   * The texts of the descriptors before the first Hash among `args`: the
   * elements `names.each` gets through before `split` is sent to a Hash.
   */
  function LeadingDescriptors(args: seq<Arg>): (texts: seq<string>)
    ensures |texts| <= |args|
    ensures forall k :: 0 <= k < |texts| ==> args[k] == Descriptor(texts[k])
    ensures |texts| < |args| ==> args[|texts|].OptionsHash?
  {
    if args == [] || args[0].OptionsHash? then []
    else [args[0].text] + LeadingDescriptors(args[1..])
  }

  /** Which constant `should_be_installed` prints as the version of the gem. */
  datatype VersionConstant = BundlerVersion | ConstantOf(gem: Option<string>)

  /** The constant named by a probe: `Bundler::VERSION` for bundler itself. */
  function VersionConstantOf(name: Option<string>): (c: VersionConstant)
    ensures c == BundlerVersion <==> name == Some("bundler")
    ensures c.ConstantOf? ==> c.gem == name
  {
    if name == Some("bundler") then BundlerVersion else ConstantOf(name)
  }

  /** What `should_be_installed` takes out of one descriptor. */
  datatype InstalledProbe =
    InstalledProbe(name: Option<string>, version: Option<string>, platform: Option<string>, constant: VersionConstant)

  /** What `should_not_be_installed` takes out of one descriptor. */
  datatype AbsentProbe = AbsentProbe(name: Option<string>, version: Option<string>)

  /** One `run` of Ruby code probing a gem, with the arguments after the code. */
  datatype Run<P> = Run(probe: P, args: seq<RunArg>)

  /** `name, version, platform = name.split(/\s+/)`. */
  function ParseInstalled(text: string): (r: InstalledProbe)
    ensures r.name == None <==> AllSpace(text)
    ensures r.constant == VersionConstantOf(r.name)
  {
    SplitEmptyIffAllSpace(text);
    var fields := Split(text);
    InstalledProbe(Nth(fields, 0), Nth(fields, 1), Nth(fields, 2), VersionConstantOf(Nth(fields, 0)))
  }

  /** `name, version = name.split(/\s+/)`. */
  function ParseAbsent(text: string): (r: AbsentProbe)
    ensures r.name == ParseInstalled(text).name && r.version == ParseInstalled(text).version
  {
    var fields := Split(text);
    AbsentProbe(Nth(fields, 0), Nth(fields, 1))
  }

  /** `names` ends at the descriptor at `i`: either all are done or `names[i]` is a Hash. */
  lemma LeadingDescriptorsUpTo(args: seq<Arg>, i: nat)
    requires i <= |args|
    requires forall k :: 0 <= k < i ==> args[k].Descriptor?
    requires i == |args| || args[i].OptionsHash?
    ensures |LeadingDescriptors(args)| == i
  {
  }

  /** `opts = names.last.is_a?(Hash) ? names.pop : {}`, shared by both methods. */
  method PopOptions(names: seq<Arg>) returns (rest: seq<Arg>, opts: Options)
    ensures rest == Remaining(names) && opts == OptionsOf(names)
    ensures |rest| < |names| <==> names != [] && names[|names| - 1].OptionsHash?
  {
    rest, opts := names, NoOptions;
    if |rest| > 0 && rest[|rest| - 1].OptionsHash? {
      opts := rest[|rest| - 1].opts;
      rest := rest[..|rest| - 1];
    }
  }

  /** A descriptor reached by `names.each` is the next of the leading descriptors. */
  lemma DescriptorAt(args: seq<Arg>, i: nat)
    requires i <= |LeadingDescriptors(args)| && i < |args| && args[i].Descriptor?
    ensures i < |LeadingDescriptors(args)| && LeadingDescriptors(args)[i] == args[i].text
  {
  }

  /** `names.each` stops, at the end or at a Hash, just after the leading descriptors. */
  lemma DescriptorsEnd(args: seq<Arg>, i: nat)
    requires i <= |LeadingDescriptors(args)| && i <= |args|
    requires i == |args| || args[i].OptionsHash?
    ensures i == |LeadingDescriptors(args)|
  {
  }

  /**
   * `names.each do |name| ... end` over the arguments left after the pop:
   * each descriptor is parsed by `parse` and probed with `args`.
   * `noMethodError` is set when a Hash is reached, since `split` is then
   * sent to a Hash and raises. The runs are those made when every probe's
   * check passes; a failing check raises and ends the loop early.
   */
  method EachDescriptor<P>(rest: seq<Arg>, args: seq<RunArg>, parse: string -> P)
    returns (runs: seq<Run<P>>, noMethodError: bool)
    ensures var texts := LeadingDescriptors(rest);
      |runs| == |texts| &&
      forall k :: 0 <= k < |runs| ==> runs[k] == Run(parse(texts[k]), args)
    ensures noMethodError <==> |LeadingDescriptors(rest)| < |rest|
  {
    runs, noMethodError := [], false;
    ghost var texts := LeadingDescriptors(rest);
    var i := 0;
    while i < |rest|
      invariant i <= |texts| && !noMethodError
      invariant |runs| == i
      invariant forall k :: 0 <= k < i ==> runs[k] == Run(parse(texts[k]), args)
    {
      match rest[i]
      case Descriptor(text) =>
        DescriptorAt(rest, i);
        runs := runs + [Run(parse(text), args)];
        i := i + 1;
      case OptionsHash(_) =>
        noMethodError := true;
        break;
    }
    DescriptorsEnd(rest, i);
  }

  /**
   * `should_be_installed(*names)`: pops a trailing options Hash, builds the
   * group arguments with `groups << opts`, then probes each descriptor in
   * turn.
   */
  method ShouldBeInstalled(names: seq<Arg>) returns (runs: seq<Run<InstalledProbe>>, noMethodError: bool)
    ensures var texts := LeadingDescriptors(Remaining(names));
      |runs| == |texts| &&
      forall k :: 0 <= k < |runs| ==> runs[k] == Run(ParseInstalled(texts[k]), RunArgs(OptionsOf(names)))
    ensures noMethodError <==> |LeadingDescriptors(Remaining(names))| < |Remaining(names)|
  {
    var rest, opts := PopOptions(names);
    var gs := GroupArray(opts.groups);
    var groups := seq(|gs|, k requires 0 <= k < |gs| => Group(gs[k]));
    groups := groups + [RunOptions(opts)];
    assert groups == RunArgs(opts);
    runs, noMethodError := EachDescriptor(rest, groups, ParseInstalled);
  }

  /**
   * `should_not_be_installed(*names)`: pops a trailing options Hash and
   * probes each descriptor with `groups + [opts]` as arguments.
   */
  method ShouldNotBeInstalled(names: seq<Arg>) returns (runs: seq<Run<AbsentProbe>>, noMethodError: bool)
    ensures var texts := LeadingDescriptors(Remaining(names));
      |runs| == |texts| &&
      forall k :: 0 <= k < |runs| ==> runs[k] == Run(ParseAbsent(texts[k]), RunArgs(OptionsOf(names)))
    ensures noMethodError <==> |LeadingDescriptors(Remaining(names))| < |Remaining(names)|
  {
    var rest, opts := PopOptions(names);
    var gs := GroupArray(opts.groups);
    var groups := seq(|gs|, k requires 0 <= k < |gs| => Group(gs[k]));
    var args := groups + [RunOptions(opts)];
    assert args == RunArgs(opts);
    runs, noMethodError := EachDescriptor(rest, args, ParseAbsent);
  }

  // ------------------------------------------------------------- properties

  /** The descriptor arguments for the given texts. */
  function Descriptors(texts: seq<string>): (r: seq<Arg>)
    ensures |r| == |texts| && forall k :: 0 <= k < |texts| ==> r[k] == Descriptor(texts[k])
  {
    seq(|texts|, k requires 0 <= k < |texts| => Descriptor(texts[k]))
  }

  /**
   * A trailing Hash is taken as the options and never as a descriptor:
   * every descriptor before it is probed, with the Hash's groups.
   */
  lemma TrailingHashIsOptions(texts: seq<string>, opts: Options)
    ensures var names := Descriptors(texts) + [OptionsHash(opts)];
      OptionsOf(names) == opts &&
      LeadingDescriptors(Remaining(names)) == texts &&
      |LeadingDescriptors(Remaining(names))| == |Remaining(names)|
  {
    var names := Descriptors(texts) + [OptionsHash(opts)];
    assert Remaining(names) == Descriptors(texts);
    LeadingDescriptorsUpTo(Descriptors(texts), |texts|);
  }

  /** Without a trailing Hash, the options are `{}` and every descriptor is probed. */
  lemma NoHashMeansNoOptions(texts: seq<string>)
    ensures var names := Descriptors(texts);
      OptionsOf(names) == NoOptions && RunArgs(OptionsOf(names)) == [RunOptions(NoOptions)] &&
      LeadingDescriptors(Remaining(names)) == texts
  {
    LeadingDescriptorsUpTo(Descriptors(texts), |texts|);
  }

  /** A Hash anywhere but last is split like a descriptor, which raises. */
  lemma MisplacedHashRaises(names: seq<Arg>, k: nat)
    requires k < |names| - 1 && names[k].OptionsHash?
    ensures |LeadingDescriptors(Remaining(names))| < |Remaining(names)|
  {
    var rest := Remaining(names);
    assert rest[k] == names[k];
  }

  /** "name version platform" gives all three fields; bundler's own version is `Bundler::VERSION`. */
  lemma ParseFullDescriptor(name: string, version: string, platform: string)
    requires Tokens([name, version, platform])
    ensures ParseInstalled(Join([name, version, platform], " ")) ==
      InstalledProbe(Some(name), Some(version), Some(platform),
                     if name == "bundler" then BundlerVersion else ConstantOf(Some(name)))
  {
    SplitJoin([name, version, platform], []);
    assert Join([name, version, platform], " ") + [] == Join([name, version, platform], " ");
  }

  /** "name version" leaves the platform `nil`: the probe then expects no platform in its output. */
  lemma ParseShortDescriptor(name: string, version: string)
    requires Tokens([name, version])
    ensures ParseInstalled(Join([name, version], " ")).platform == None
    ensures ParseInstalled(Join([name, version], " ")).name == Some(name)
    ensures ParseInstalled(Join([name, version], " ")).version == Some(version)
    ensures ParseAbsent(Join([name, version], " ")) == AbsentProbe(Some(name), Some(version))
  {
    SplitJoin([name, version], []);
    assert Join([name, version], " ") + [] == Join([name, version], " ");
  }

  /**
   * A descriptor that starts with whitespace yields an empty name, and every
   * field shifts by one: the version is the name of the unindented text and
   * the platform its version.
   */
  lemma LeadingSpaceShiftsFields(w: string, text: string)
    requires w != [] && AllSpace(w) && text != [] && !IsSpace(text[0])
    ensures Split(w + text) == [[]] + Split(text)
    ensures ParseInstalled(w + text).name == Some([])
    ensures ParseInstalled(w + text).version == ParseInstalled(text).name
    ensures ParseInstalled(w + text).platform == ParseInstalled(text).version
    ensures ParseAbsent(w + text).name == Some([])
    ensures ParseAbsent(w + text).version == ParseAbsent(text).name
  {
    SplitAfterSpace(w, text);
  }
}
