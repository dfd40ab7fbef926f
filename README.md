# Bundler's test matchers, modelled in Dafny

This project models the custom RSpec matchers and helpers that Bundler's test
suite uses to judge `bundle exec`, `bundle install` and `bundle update`
(`spec/support/matchers.rb`). Only their boolean match logic and argument
handling are modelled:

- `have_dep`: the collection holds exactly one dependency, equal to the expected one;
- `have_gem`: as many specifications as names, each full name among the names;
- `have_rubyopts`: every expected RUBYOPT option is present and no option is repeated;
  this is what the "should not duplicate already exec'ed RUBYOPT" test of `bundle exec` relies on;
- `be_with_diff` / `lockfile_should_be`: the expected lockfile text is dedented by its
  leading whitespace, removed at every line start, and compared exactly;
- `should_be_installed` / `should_not_be_installed`: a trailing options Hash is popped,
  its `:groups` become the arguments of every probe, and each `"name version [platform]"`
  descriptor is split on whitespace.

The Ruby built-ins these rest on are modelled as well: `String#split(/\s+/)` (a leading
empty field is kept, trailing empty fields are dropped), `Array#flatten`, `Array#uniq`,
`Kernel#Array`, multiple assignment from an array, and `gsub!(/^prefix/, '')`, where a line
start is the start of the string or a position just after a line feed of the ORIGINAL string.
`Array#join(" ")` is modelled only to build the option strings that the lemmas split back;
the matchers themselves do not call it.

Modules, one per concern: `RubyText` (`ruby_text.dfy`), `RubyArray` (`ruby_array.dfy`),
`Wrappers` (`wrappers.dfy`, Ruby's `nil` as `Option`), `Matchers` (`matchers.dfy`),
`WithDiff` (`with_diff.dfy`), `Installed` (`installed.dfy`).
The match bodies are expressions in Ruby and are functions here. The helpers that change
local state are methods: `gsub!` and `names.each` are loops, proved against specification
functions, while `names.pop` and `groups << opts` are single statements in the method bodies.

## Model

| member | source | states |
|---|---|---|
| `RubyText.Split` | spec/support/matchers.rb:24 | the shape of a `split(/\s+/)` result: tokens free of whitespace, only the first may be empty and the last never is (trailing empty fields dropped); its content is stated by `SplitInterleave` |
| `RubyText.SplitInterleave` | spec/support/matchers.rb:24 | the content of `split(/\s+/)`: tokens separated by non-empty whitespace runs, with any whitespace before the first and after the last, split back into exactly those tokens, preceded by one empty token when leading whitespace is present |
| `RubyText.SplitJoin` | spec/support/matchers.rb:19 | round trip: any list of options, none included, joined by single spaces, with any trailing whitespace such as echo's line feed, splits back into exactly those options |
| `RubyText.SplitEmptyIffAllSpace` | spec/support/matchers.rb:24 | `split(/\s+/)` finds no token if and only if the text is empty or only whitespace |
| `RubyText.SplitAfterSpace` | spec/support/matchers.rb:34 | whitespace in front of a text that starts with a token adds exactly one empty token in front of the tokens of that text |
| `RubyText.SplitAllSpace` | spec/support/matchers.rb:24 | text that is only whitespace (or empty) splits into no tokens |
| `RubyText.SplitLeadingSpace` | spec/support/matchers.rb:34 | leading whitespace gives `split` an empty first token, before the non-empty ones |
| `RubyArray.Uniq` | spec/support/matchers.rb:25 | `uniq` keeps every element at least once, adds none, and leaves no repetition |
| `RubyArray.UniqSizeIffDistinct` | spec/support/matchers.rb:25 | `actual.uniq.size == actual.size` holds if and only if no element occurs twice |
| `RubyArray.DistinctIffSingleCounts` | spec/support/matchers.rb:25 | no repetition if and only if every element occurs at most once in the multiset |
| `RubyArray.DistinctPermutation` | spec/support/matchers.rb:25 | reordering elements does not change whether they are distinct |
| `RubyArray.Nth` | spec/support/matchers.rb:34 | multiple assignment gives element k when the array is long enough and nil otherwise |
| `Matchers.HaveDep` | spec/support/matchers.rb:3-9 | `have_dep` passes if and only if there is exactly one element and it equals the expected dependency |
| `Matchers.HaveDepIsSingleton` | spec/support/matchers.rb:7 | with structural equality, `have_dep` passes if and only if the collection is exactly `[dep]` |
| `Matchers.HaveGem` | spec/support/matchers.rb:11-15 | a count different from the number of names fails; with equal counts it passes if and only if every full name is among the names |
| `Matchers.HaveGemAcceptsExactMatch` | spec/support/matchers.rb:13 | specifications whose full names are the expected names in any order always pass |
| `Matchers.HaveGemIgnoresMultiplicity` | spec/support/matchers.rb:13 | the converse fails: one gem given twice passes for two different expected names |
| `Matchers.Flatten` | spec/support/matchers.rb:18 | `args.flatten` keeps every top-level string argument, and leaves a list of strings only unchanged; the splicing of nested arrays is stated by `FlattenAppend` and `FlattenNested` |
| `Matchers.FlattenAppend` | spec/support/matchers.rb:18 | `flatten` of two argument lists is the flattening of the first followed by that of the second |
| `Matchers.FlattenNested` | spec/support/matchers.rb:18 | a nested array is spliced in at its position: its own flattened strings, then the flattened rest |
| `Matchers.ExpectedOptions` | spec/support/matchers.rb:18-19 | a lone argument left after flattening is split into whitespace-free options; otherwise the flattened arguments are the expected options |
| `Matchers.ActualOptions` | spec/support/matchers.rb:24 | an Array actual is used as it is; a String actual is split into whitespace-free options, none exactly when the output is blank |
| `Matchers.ActualOptionsOfOutput` | spec/support/matchers.rb:24 | the options taken from command output are exactly its tokens, whatever whitespace separates them, with an empty first option when the output starts with whitespace |
| `Matchers.HaveRubyopts` | spec/support/matchers.rb:23-26 | the match as written; when it passes the actual options are distinct (the full characterisation is `HaveRubyoptsIff`) |
| `Matchers.HaveRubyoptsIff` | spec/support/matchers.rb:17-27 | `have_rubyopts` passes if and only if every expected option occurs among the actual ones and no actual option is repeated |
| `Matchers.DuplicateOptionFails` | spec/support/matchers.rb:25 | any repeated actual option makes the match fail, whatever was expected |
| `Matchers.HaveRubyoptsOrderInsensitive` | spec/support/matchers.rb:24-25 | reordering the actual options never changes the verdict, whether they are given as a String (command output, split first) or as an Array |
| `Matchers.LoneArgumentIsSplit` | spec/support/matchers.rb:18-19 | a single expected argument, even inside nested arrays, is split on whitespace: any separating runs, trailing whitespace, and an empty first option for leading whitespace |
| `Matchers.SingleArgumentIsSplit` | spec/support/matchers.rb:18-19 | the common case: a single argument of options joined by single spaces, even inside nested arrays, becomes exactly those options |
| `Matchers.RubyoptOncePasses` | spec/other/exec_spec.rb:81-89 | echoed RUBYOPT holding the distinct activation options once, ending in a line feed, passes |
| `Matchers.RubyoptTwiceFails` | spec/other/exec_spec.rb:91-92 | RUBYOPT holding the activation options twice (appended, not merged) fails |
| `WithDiff.LeadingSpace` | spec/support/matchers.rb:71 | the prefix is the maximal run of whitespace that starts the expected text, or empty |
| `WithDiff.StripNeverLengthens` | spec/support/matchers.rb:72 | the specification function of `gsub!(/^p/, '')`, `StripAtLineStarts`, never makes the text longer |
| `WithDiff.Dedent` | spec/support/matchers.rb:71-72 | the dedented expected text, the leading run removed at line starts, is never longer than the expected text |
| `WithDiff.DedentStartsUnindented` | spec/support/matchers.rb:71-72 | the dedented text never starts with whitespace |
| `WithDiff.GsubLineStarts` | spec/support/matchers.rb:72 | the `gsub!` loop removes the prefix at each line start, scanning left to right without overlaps, as the specification function says |
| `WithDiff.BeWithDiff` | spec/support/matchers.rb:70-82 | matches if and only if the dedented expected text equals the actual text; the dedented text is what is shown |
| `WithDiff.LockfileShouldBe` | spec/support/matchers.rb:84-87 | the lockfile's text passes if and only if it equals the dedented expected text |
| `WithDiff.StripEmptyIsIdentity` | spec/support/matchers.rb:72 | removing an empty prefix at line starts changes nothing |
| `WithDiff.DedentUnindented` | spec/support/matchers.rb:71-81 | expected text without leading whitespace is compared as it is, so the match is plain equality |
| `WithDiff.DedentIdempotent` | spec/support/matchers.rb:71-72 | dedenting an already dedented text changes nothing more |
| `WithDiff.DedentByLines` | spec/support/matchers.rb:72 | for a prefix without line feeds, each line that starts with the prefix loses it and every other character is kept |
| `WithDiff.DedentBlankFirstLine` | spec/support/matchers.rb:71-72 | for the text `"\n" + q + a + "\n" + q + b + "\n"` (a blank first line, then two lines indented by the same whitespace `q`) the prefix is `"\n" + q`; the result is `a + "\n" + q + b + "\n"`, so the second indented line keeps its indentation |
| `WithDiff.DedentIndentedHeredoc` | spec/support/matchers.rb:70-72 | round trip: lines indented uniformly by whitespace and ending in a line feed dedent back to the original lines |
| `Installed.GroupArray` | spec/support/matchers.rb:31 | `Array(opts[:groups])`: nil gives no groups, one group is wrapped, an array of groups is taken as it is |
| `Installed.OptionsOf` | spec/support/matchers.rb:30 | the options popped off: the arguments are the remaining ones followed by that Hash, or, when nothing was popped, the options are `{}` |
| `Installed.PopOptions` | spec/support/matchers.rb:30 | the statement `names.last.is_a?(Hash) ? names.pop : {}` leaves the remaining arguments and the options, and shortens the arguments exactly when the last one is a Hash |
| `Installed.VersionConstantOf` | spec/support/matchers.rb:35 | `Bundler::VERSION` is chosen exactly for the name `bundler`; the constant of any other name is that name's |
| `Installed.ParseInstalled` | spec/support/matchers.rb:34-35 | the name is nil exactly when the descriptor is blank, and the version constant is the one chosen for the name |
| `Installed.ParseAbsent` | spec/support/matchers.rb:49 | `should_not_be_installed` takes the same name and version from a descriptor as `should_be_installed` |
| `Installed.RunArgs` | spec/support/matchers.rb:31-32 | every probe runs with the `:groups` as an array, followed by the options Hash itself |
| `Installed.Remaining` | spec/support/matchers.rb:30 | the pop removes the last argument exactly when it is a Hash |
| `Installed.LeadingDescriptors` | spec/support/matchers.rb:33 | the descriptors `names.each` gets through: the longest prefix of descriptors, stopping at the first Hash |
| `Installed.EachDescriptor` | spec/support/matchers.rb:33-34 | `names.each` parses and probes exactly the leading descriptors, in order, and reports a raise exactly when it reaches a Hash before the end |
| `Installed.ShouldBeInstalled` | spec/support/matchers.rb:29-35 | one probe per leading descriptor, in order, each with its split fields, version constant and the run arguments; a Hash before the end raises |
| `Installed.ShouldNotBeInstalled` | spec/support/matchers.rb:45-50 | the same for `should_not_be_installed`, with `groups + [opts]` and name and version only |
| `Installed.TrailingHashIsOptions` | spec/support/matchers.rb:30 | a trailing Hash becomes the options and is never probed; every descriptor before it is |
| `Installed.NoHashMeansNoOptions` | spec/support/matchers.rb:30-32 | without a trailing Hash the options are `{}`, probes run with just `{}`, and all descriptors are probed |
| `Installed.MisplacedHashRaises` | spec/support/matchers.rb:33-34 | a Hash anywhere but last reaches `split`, so the helper raises |
| `Installed.ParseFullDescriptor` | spec/support/matchers.rb:34-35 | "name version platform" yields all three fields; `bundler` is checked against `Bundler::VERSION`, others against their own constant |
| `Installed.ParseShortDescriptor` | spec/support/matchers.rb:49 | "name version" yields name and version, and a nil platform in `should_be_installed` |
| `Installed.LeadingSpaceShiftsFields` | spec/support/matchers.rb:34 | a descriptor that starts with whitespace splits into an empty token followed by the tokens of the rest, so the name is empty, the version is the rest's name and the platform the rest's version |

## Left out

- Running the probes: `run`, its output `out` and the checks on it (spec/support/matchers.rb:36-39 and 50-62) spawn Ruby and compare `Gem::Version`s; the methods return the probes they would run instead.
- `Spec::Builders.constantize` is represented only by the constant's gem name; `Bundler::Dependency.new` is replaced by the expected dependency as a parameter, and its `==` by an equality parameter.
- `Gem::Specification#full_name` is a parameter of `have_gem`.
- `should_be_locked` (spec/support/matchers.rb:66-68) only tests that a file exists; `File.read` in `lockfile_should_be` becomes the lockfile's text as a parameter.
- The RSpec DSL (`RSpec::Matchers.define`, `failure_message_for_should` texts) and the alias `should_be_available` (the same method).
- Options other than `:groups` are carried as an opaque map; `Array` applied to nested arrays is not modelled (groups are a single name or a flat list).
- Ruby's `\s` is taken as space, tab, line feed, carriage return and form feed, the class of the Ruby versions this code ran on; later Ruby versions also count the vertical tab.
- `Installed.ShouldBeInstalled`: when `:groups` is an Array, `Array(opts[:groups])` returns that same Array, so `groups << opts` (spec/support/matchers.rb:31-32) also appends the Hash to its own `:groups`, making a cyclic value; the model's run arguments keep the `:groups` as given. The runs listed are those made when every check at lines 38-39 passes; a failing check raises and ends the loop there.
- `Installed.ShouldNotBeInstalled`: likewise, the runs listed are those made when every check at lines 58-61 passes. Its `groups + [opts]` builds a new Array, so it has no such aliasing.
- `WithDiff.DedentByLines`: the line-by-line account is proved only for a prefix without a line feed; a prefix with one, which arises when the first line is blank, is covered only by the example shape of `WithDiff.DedentBlankFirstLine`.
- `WithDiff.BeWithDiff`: `gsub!` also changes the caller's string object (`lockfile_should_be` passes its argument on); the model returns the new text instead of modelling that aliasing.
- The end-to-end tests (spec/update/git_spec.rb, spec/other/exec_spec.rb) drive external processes; they serve only as the source of expected behaviour, and the resolver, lockfile and activator they exercise are not part of this model.
