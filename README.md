# cmake-generator in Dafny

This project models the core of `cmake-generator`, a Python tool that reads a compiler build log and writes a
`CMakeLists.txt`. The model has four parts.

- **The log scanner** (`parse_build_log`). It walks the log line by line. A line holding `"g++ "` sends the text
  after that marker, stripped, to the g++ handler. Otherwise a line holding `"cl "` goes to the MSVC handler.
  Any other line is ignored.
- **The g++ handler** (`process_line`). It splits a command into tokens and classifies each token, in order of
  priority: `-I`, `-L`, `-l`, `-Wl,`, the warning pattern, the optimisation pattern, the `.cpp` source pattern,
  and otherwise `others`. Each value is appended to its list in the `build_data` dictionary, unless the
  module-global seen-set guarding that list already holds it.
- **The helpers of `utils.py`**: `add_unique`, `extract_option_values` and `format_for_cmake`.
- **The emitter** (`generate_cmake_content`). It renders the header, then one block per non-empty category among
  include directories, compile options, linker flags and libraries, then a fixed `add_executable` line.

Module layout:

- `wrappers.dfy`: `Option`.
- `strings.dfy`: the Python `str` operations used, over `seq<char>`.
- `utils.dfy`: the helpers of `utils.py`.
- `build_record.dfy`: the `build_data` dictionary and the six seen-sets, both as values and as classes updated in
  place.
- `gpp_parser.dfy`: the g++ handler.
- `log_parser.dfy`: the log scanner.
- `cmake_generator.dfy`: the emitter.

The g++ handler is a method with a loop over the tokens. It is proved against a pure fold: `Classify` maps a token
to an `Action`, `Apply` performs one `add_unique`, and `Run` folds the actions. The log scanner works the same
way: `ParseBuildLog` is proved against `Scan`, a fold of `Step` over the lines. The emitter method is proved
against `Content`, the join of `CmakeLines`.

## Model

| member | source | states |
|---|---|---|
| Utils.AddUnique | src/utils.py:15-19 | The item is in the new seen-set, which is the old one plus the item. A seen item leaves the list as it is. An unseen one is appended at the end. |
| Utils.AddUniqueKeepsTracking | src/utils.py:15-19 | A list holding each member of its seen-set exactly once keeps doing so after `add_unique`. |
| Utils.FreshSnoc | src/utils.py:15-19 | One more `add_unique` call appends the item exactly when neither the seen-set nor the earlier items hold it. |
| Utils.FreshAppend | src/utils.py:15-19 | Two runs of `add_unique` calls one after the other append what one run over both item lists appends: the second run sees what the first added to the seen-set. |
| Utils.FreshChain | src/utils.py:15-19 | A list and its seen-set after two runs of `add_unique` calls are as after one run over both item lists. |
| Utils.FreshElems | src/utils.py:15-19 | A run of `add_unique` calls appends exactly the items that were not in the seen-set. |
| Utils.FreshOfSeen | src/utils.py:15-19 | A run of `add_unique` calls whose items were all seen appends nothing. |
| Utils.FreshNoDuplicates | src/utils.py:15-19 | A run of `add_unique` calls never appends a value twice. |
| Utils.FreshKeepsTracking | src/utils.py:15-19 | A list in step with its seen-set stays in step after a run of `add_unique` calls. |
| Utils.FreshFirstSeenOrder | src/utils.py:15-19 | Appended values keep the order of their first occurrence among the items. |
| Utils.ExtractOptionValues | src/utils.py:21-49 | The result is `None` exactly when the index is past the end, the token lacks the prefix, or the token is the bare prefix with no next token. A glued token gives the text after the prefix. A bare prefix gives the next token. |
| Utils.GluedAndSeparatedAgree | src/utils.py:40-47 | `-Ivalue` and `-I value` yield the same value. |
| Utils.EscapeQuotes | src/utils.py:53 | Escaping keeps spaces and leaves quote-free text unchanged. The result never starts with a quote, and every quote in it follows a backslash. |
| Utils.EscapeRoundTrip | src/utils.py:53 | Escaping is undone by reading `\"` back as `"`, so it loses nothing. |
| Utils.FormatForCmake | src/utils.py:51-54 | A value holding a space gives its escaped form wrapped in double quotes. Any other value gives its escaped form alone, which never starts with a quote. So the result starts with a double quote exactly when the value holds a space, and a value with no space and no quote is returned unchanged. |
| Utils.FormatRoundTrip | src/utils.py:51-54 | The original value can be read back from the formatted one, so distinct values format differently. |
| Strings.After | src/log_parser.py:53 | `line.split(marker, 1)[1]` is the text after the first occurrence of the marker. |
| Strings.Strip | src/log_parser.py:53 | `strip()` removes leading and trailing whitespace, as Python's `isspace` defines it, and nothing else. |
| BuildRecord.Record.Put | src/parsers/gpp_parser.py:50 | Storing a list under one key changes that key only. |
| BuildRecord.BuildData.constructor | src/log_parser.py:34-45 | A new record has every list empty and `output` set to `None`. |
| BuildRecord.SeenSets.constructor | src/parsers/gpp_parser.py:33-39 | The six seen-sets start empty. |
| GppParser.WarningMatch | src/parsers/gpp_parser.py:21 | `warning_pattern.match` finds its match at the start of the token: the match is a prefix of it. |
| GppParser.WarningMatchIsLongestShapedPrefix | src/parsers/gpp_parser.py:21 | The warning pattern, matched at the start, gives the longest warning-shaped prefix of the token. It gives `None` when no prefix has that shape. |
| GppParser.OptimisationMatch | src/parsers/gpp_parser.py:22 | `optimization_pattern.match` finds its match at the start of the token: the match is a prefix of it. |
| GppParser.OptimisationMatchIsShapedPrefix | src/parsers/gpp_parser.py:22 | The optimisation pattern, matched at the start, gives a prefix of `-O` and one digit. It gives `None` when no prefix has that shape. |
| GppParser.SourceMatch | src/parsers/gpp_parser.py:23 | The group of `source_pattern.match`, anchored by `$`, is the whole token or the token minus one final newline. |
| GppParser.SourceMatchIsAnchoredShape | src/parsers/gpp_parser.py:23 | The source pattern, anchored at the end, matches exactly when the token, minus at most one final newline, is non-space text ending in `.cpp`. The group is that text. |
| GppParser.RunSnoc | src/parsers/gpp_parser.py:46 | Handling one more token applies its action to the state the earlier tokens left. |
| GppParser.RunBuckets | src/parsers/gpp_parser.py:46-72 | After a command, each list is its old contents plus the command's not-yet-seen values for it, in first-seen order. Each seen-set gains all of the command's values. |
| GppParser.RunKeepsOtherKeys | src/parsers/gpp_parser.py:46-72 | Handling tokens never changes `debug_flags`, `linker_flags` or `output`. |
| GppParser.AddToBucket | src/parsers/gpp_parser.py:50 | `add_unique` on one bucket's list and seen-set changes the record exactly as one `Add` action says. |
| GppParser.HandleToken | src/parsers/gpp_parser.py:47-72 | One iteration of the loop body changes the record and seen-sets exactly as the token's action says. |
| GppParser.ProcessLine | src/parsers/gpp_parser.py:41-72 | After `process_line`, the record and seen-sets are the fold of the tokens' actions over their old contents. |
| GppParser.LineKeepsConsistent | src/parsers/gpp_parser.py:46-72 | If every list holds each member of its seen-set exactly once, that stays true after any command. |
| GppParser.LineKeepsOtherKeys | src/parsers/gpp_parser.py:46-72 | A command never changes `debug_flags`, `linker_flags` or `output`. |
| GppParser.SkipIffLinkerPassThrough | src/parsers/gpp_parser.py:57-59 | A token is recorded nowhere exactly when it starts with `-Wl,`. |
| GppParser.OthersIffNothingMatches | src/parsers/gpp_parser.py:48-72 | A token goes to `others` exactly when no earlier test matches it, and it goes there as itself. |
| GppParser.CompilerFlagIsMatchedPrefix | src/parsers/gpp_parser.py:61-64 | A compiler flag is a warning- or optimisation-shaped prefix of its token. |
| GppParser.SpacedTokenIsNoSource | src/parsers/gpp_parser.py:23 | A token holding a space, such as a quoted path, never counts as a source. |
| GppParser.BareTrailingOptionSendsNone | src/parsers/gpp_parser.py:48-56 | A bare `-I`, `-L` or `-l` as the last token hands `None` to `add_unique` for its list. |
| GppParser.LinkerPassThroughBeatsWarning | src/parsers/gpp_parser.py:57-62 | `-Wl,-rpath` is skipped, although it is warning-shaped, because the `-Wl,` test comes first. |
| GppParser.LibraryBeatsSource | src/parsers/gpp_parser.py:54-68 | `-lm.cpp` is the library `m.cpp`, not a source, because the `-l` test comes first. |
| GppParser.IncompleteFlagsGoToOthers | src/parsers/gpp_parser.py:61-72 | `-W`, `-O` and `-Os` match neither flag pattern and go to `others`. |
| GppParser.OptimisationTakesOneDigit | src/parsers/gpp_parser.py:22 | `-O3x` yields the compiler flag `-O3`: the pattern takes one digit and ignores the rest. |
| GppParser.ExampleCommandActions | src/parsers/gpp_parser.py:46-72 | Classifies each token of `-Wall -O2 -Imyinc -lfoo main.cpp`. |
| GppParser.ExampleCommand | src/parsers/gpp_parser.py:41-72 | That command on a fresh record gives flags `-Wall, -O2`, include `myinc`, library `foo` and source `main.cpp`. |
| GppParser.SeparatedValueClassifiedTwice | src/parsers/gpp_parser.py:46-56 | In `-I /usr/include`, the separated value is an include directory and is also classified on its own, landing in `others`. |
| GppParser.LineGrowsSeen | src/parsers/gpp_parser.py:33-39 | A command only adds to the seen-sets, and afterwards they hold all of its values. |
| GppParser.LineWithNothingNew | src/parsers/gpp_parser.py:46-72 | A command whose values were all seen before changes nothing, because `add_unique` (src/utils.py:17-19) skips every seen item. |
| LogParser.DispatchPicksFirstMarker | src/log_parser.py:52-60 | `Dispatch` is the loop body's `if`/`elif` test. A line goes to g++ exactly when it holds `"g++ "`. It goes to MSVC exactly when it holds `"cl "` and not `"g++ "`. The command is the stripped text after the first occurrence of that marker. |
| LogParser.Step | src/log_parser.py:50-60 | One iteration of the loop. Once the tokenizer has raised, nothing changes. When it raises, the seen-sets are left as they were before the line. |
| LogParser.ScanAppend | src/log_parser.py:50 | Scanning a log in two pieces is scanning it whole. |
| LogParser.ScanAfterRaised | src/log_parser.py:47-64 | Once a tokenizer error is raised, later lines change nothing. |
| LogParser.ScanPrefixStep | src/log_parser.py:50-60 | The scan of the first i+1 lines is one more step after the scan of the first i lines. |
| LogParser.RaisedInPrefix | src/log_parser.py:47-64 | An error raised within a prefix of the log stops the whole scan. |
| LogParser.HandleLine | src/log_parser.py:52-60 | One iteration changes the record and seen-sets as `Step` says. A tokenizer error leaves the record and the seen-sets untouched, since `shlex.split` raises before any `add_unique`. |
| LogParser.HandleLines | src/log_parser.py:50-60 | The loop over the lines, proved against `Scan`, the fold of `Step`, leaves the record and seen-sets as the scan of all lines does, or stops where the tokenizer raises, with the seen-sets as they were then. |
| LogParser.ParseBuildLog | src/log_parser.py:24-66 | The seen-sets end as the scan leaves them. A tokenizer error propagates, and a read error gives `None`. Otherwise the result is a new record holding the scan's final contents. |
| LogParser.ScanKeepsConsistent | src/log_parser.py:47-60 | Across a whole log with no MSVC command, every list stays in step with its seen-set. |
| LogParser.ParsedBucketsHaveNoDuplicates | src/log_parser.py:24-66 | With fresh seen-sets and no MSVC command in the log, no parsed list holds a duplicate. |
| LogParser.StepBuckets | src/log_parser.py:52-54 | One line that is not an MSVC command changes each list and seen-set as a run of `add_unique` calls over the values its g++ command sends there. |
| LogParser.ScanBuckets | src/log_parser.py:47-60 | After a whole log with no MSVC command, each list is its old contents plus the log's not-yet-seen values for it, in the order they first occur across the log. Each seen-set gains all of the log's values for it. |
| LogParser.ParsedBucket | src/log_parser.py:24-66 | With fresh seen-sets and no MSVC command, each parsed list is the log's values for it, each once, in first-seen order. |
| LogParser.ParsedBucketContents | src/log_parser.py:24-66 | With fresh seen-sets and no MSVC command, a parsed list holds a value exactly when some g++ command of the log sends that value to it. |
| LogParser.ParsedBucketFirstSeenOrder | src/log_parser.py:24-66 | With fresh seen-sets and no MSVC command, a value listed before another first occurs earlier in the log. |
| LogParser.ScanKeepsOtherKeys | src/log_parser.py:34-60 | The g++ handler never writes `debug_flags`, `linker_flags` or `output`: a log with no MSVC command leaves them at their initial values. |
| LogParser.ScanWithoutGpp | src/log_parser.py:52-60 | Lines that hold no `"g++ "` and are no MSVC command change neither the record nor the seen-sets. |
| LogParser.ScanGrowsSeen | src/log_parser.py:47-60 | A scan only adds to the seen-sets. |
| LogParser.RescanAddsNothing | src/log_parser.py:47-60 | For a log with no MSVC command, scanning it again with seen-sets that hold everything from a first scan changes nothing. |
| LogParser.SecondParseRecordsNothing | src/log_parser.py:24-66 | Because the seen-sets are module globals, parsing the same log with no MSVC command a second time yields an empty record. |
| CmakeGenerator.Block | src/cmake_generator.py:31-55 | An empty category renders no line. A non-empty one renders one line per value plus an opening and a closing line. |
| CmakeGenerator.CmakeLines | src/cmake_generator.py:24-58 | `cmake_lines` always starts with the `cmake_minimum_required` and `project` lines and ends with the `add_executable` line. |
| CmakeGenerator.AppendBlock | src/cmake_generator.py:31-35 | One `if` section appends nothing for an empty category. Otherwise it appends the opening line, the value lines and `)` with a blank line. |
| CmakeGenerator.GenerateCmakeContent | src/cmake_generator.py:14-60 | The returned text is the join of the header, the four blocks in order, and the `add_executable` line. |
| CmakeGenerator.JoinAppend | src/cmake_generator.py:60 | Joining two lists of lines is joining each and concatenating. |
| CmakeGenerator.BlockText | src/cmake_generator.py:31-55 | The text of a block is empty for an empty category. Otherwise it is the opening, the value lines and `)\n\n`. |
| CmakeGenerator.ContentLayout | src/cmake_generator.py:24-60 | `Content`, the join of `CmakeLines`, is the header, then the include, compile-option, link and library blocks in that order, then the `add_executable` line. |
| CmakeGenerator.ContentStartsWithHeader | src/cmake_generator.py:27-28 | The text always starts with the `cmake_minimum_required` and `project` lines. |
| CmakeGenerator.ContentEndsWithAddExecutable | src/cmake_generator.py:58 | The text always ends with the fixed `add_executable` line, whatever sources were found. |
| CmakeGenerator.BareDocumentIffNothingRendered | src/cmake_generator.py:31-58 | The text is exactly header plus `add_executable` line if and only if the four rendered categories are empty. |
| CmakeGenerator.ContentDependsOnlyOnRenderedKeys | src/cmake_generator.py:31-55 | `library_dirs`, `sources`, `others`, `debug_flags` and `output` never affect the text. |
| CmakeGenerator.CountAppend | src/cmake_generator.py:24 | Proof helper for BlockCountMatchesCategories, about the model's own `Count` of a line in the growing `cmake_lines` list: a line's count in two joined lists is the sum of its counts in each. |
| CmakeGenerator.BlockCloses | src/cmake_generator.py:31-35 | A non-empty block has exactly one closing line, and an empty one has none. |
| CmakeGenerator.BlockCountMatchesCategories | src/cmake_generator.py:31-55 | A record with N non-empty rendered categories yields exactly N blocks. |

## Left out

- `shlex.split` is not modelled. It is a parameter `split`, where `None` stands for the `ValueError` it raises on
  an unbalanced quote. That error is not caught by `parse_build_log`, so it ends the parse (`TokenizeFailed`).
- `src/parsers/msvc_parser.py` is not part of this model. The `"cl "` branch extracts and strips its command, then
  leaves the record and the seen-sets unchanged. That handler may write any key of the record, so every lemma
  about a whole log that speaks of the record is stated for logs where no line is an MSVC command
  (`NoMsvcCommands`): LogParser.ScanKeepsConsistent, ParsedBucketsHaveNoDuplicates, ScanBuckets, ParsedBucket,
  ParsedBucketContents, ParsedBucketFirstSeenOrder, ScanKeepsOtherKeys, ScanWithoutGpp, RescanAddsNothing and
  SecondParseRecordsNothing. In particular nothing is promised about `debug_flags`, `linker_flags` and `output`,
  which only that handler can fill.
- Opening and reading the file is not modelled. A log is given as the lines read plus a flag saying whether an
  `IOError` occurred after them. The error message printed on failure is not modelled.
- The `re` engine is not modelled. Each of the three patterns in use is a hand-written matcher with its match
  stated as a predicate. The other five patterns in `gpp_parser.py` are compiled but never used, so they are left
  out.
- GppParser.WarningMatch and GppParser.OptimisationMatch take `\d` to be the ASCII digits `0`-`9` only. Python's
  `\d` also matches other Unicode decimal digits.
- Logging, `pprint`, `log_pretty` and `main.py` (argument handling and writing the output file) are not modelled.
- Utils.AddUnique works on values: it returns the new list and set, and the callers store them back into the
  record's field and the seen-set. No two lists of the record alias each other, so nothing is lost.
- Utils.ExtractOptionValues takes a `nat` index. The callers only pass indexes from `enumerate`, and Python's
  negative indexing is not modelled.
- The six module-global seen-sets are one `SeenSets` object that the caller passes to every parse, just as the
  module globals are shared by every call.

Where the code and its documented intent differ, the model follows the code:

- The seen-sets are module globals, so a second parse in the same process records nothing that the first one saw
  (LogParser.SecondParseRecordsNothing).
- A bare trailing `-I` or `-l` appends `None` to `include_dirs` or `libraries`, which the emitter prints as `None`.
  A bare trailing `-L` appends `None` to `library_dirs`, which the emitter never renders.
- The emitter does not use `format_for_cmake`: values are written unquoted, even when they hold spaces.
- A separated option value, as in `-I path`, is also classified on its own at the next index.
- The `ValueError` from the tokenizer is not recovered.
