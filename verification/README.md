# FormerlySerializedAs remover, modelled in Dafny

Unity's `[FormerlySerializedAs("oldName")]` attribute keeps serialized
data when a field is renamed. After the assets have been re-serialized,
the attribute is no longer needed. `FormerlySerializedAsRemover` strips
it from the text of a C# script. It returns the rewritten text and the
number of attributes it removed.

The remover makes one `Regex.Replace` pass over the script. The pass uses
the pattern `(\[([^\]]*)\])(\s*)(\s*//.*)?`. Each match is an attribute
list in brackets, the whitespace after it, and an optional trailing line
comment. For each match, the match evaluator:

- counts the `FormerlySerializedAs(...)` calls in the list;
- returns the match unchanged if there are none;
- otherwise deletes them in three passes and repairs the commas and
  whitespace;
- returns only the trailing comment if the list is now empty, and
  otherwise the cleaned list in brackets with the original whitespace and
  comment.

The project is made of six modules:

- `Text` (`text.dfy`): the .NET string operations the remover uses.
  These are `Trim`, `TrimStart` and `TrimEnd` by whitespace or by a
  character, `\s` as a character class, and subsequences.
- `Patterns` (`patterns.dfy`): the four fixed inner regular expressions.
  Each is a matcher that gives the length of the match at the start of a
  text. This module also holds `Regex.Replace` and `Regex.Matches(...).Count`
  as the engine's left-to-right scan.
- `AttributeCleaner` (`cleaner.dfy`): the count, the three removals and
  the comma/whitespace repair applied to the text between the brackets.
- `Remover` (`remover.dfy`): the scan for attribute spans, the evaluator,
  and the method `RemoveFormerlySerializedAs`. The method walks the
  content with a running count, as the C# closure does. It is proved
  equal to the functions `Output(Scan(content))` and
  `Removed(Scan(content))`.
- `Scenarios` (`scenarios.dfy`): each unit test of
  `CleanFormerlySerializedAsTests.cs`, stated for every argument and every
  kept attribute name of the test's shape. There are also lemmas on
  behaviour beyond the tests.
- `TargetLists` (`targets.dfy`): attribute lists beyond the tests' shapes.
  These are a list of any number of targets and nothing else, with any
  whitespace around its commas and inside its brackets, a target in last position, and a list with an empty entry after a target.

Three points about the code's behaviour:

- The rewrite is not idempotent. `Scenarios.SecondRunRemovesMore` gives an
  input whose second run removes one more attribute.
- Line 37 counts only `FormerlySerializedAs(...)` calls. A bare
  `FormerlySerializedAs` name without an argument list is neither counted
  nor removed.
- On the multi-line tests (test lines 69-90), the code drops a target line
  together with the whitespace after it, line break included. The output therefore starts
  with `[SerializeField]`. The tests' expected texts start with a line
  break, but the tests trim both texts before comparing them.

## Model

| member | source | states |
|---|---|---|
| Remover.RemoveFormerlySerializedAs | Packages/src/Editor/FormerlySerializedAsRemover.cs:15-81 | The loop's text and running count equal the rewrite `Output(Scan(content))` and the sum `Removed(Scan(content))` of the per-span counts. |
| Remover.MatchSpan | Packages/src/Editor/FormerlySerializedAsRemover.cs:26 | The span pattern `(\[([^\]]*)\])(\s*)(\s*//.*)?` tried at the start of a text. Its contract is stated by `MatchSpanSpec`, `MatchSpanShape` and `SpanMatched`. |
| Remover.SpaceAndComment | Packages/src/Editor/FormerlySerializedAsRemover.cs:32-34 | Groups 3 and 4 are read one after the other from the start of the text after the bracket. Their meaning is stated by `SpaceAndCommentSpec`. |
| Remover.MatchSpanSpec | Packages/src/Editor/FormerlySerializedAsRemover.cs:26-29 | The span pattern matches exactly where a `[` is followed later by a `]`. A match is a prefix of the text, its body holds no `]`, and groups 3 and 4 are read from the text after the bracket. |
| Remover.MatchSpanShape | Packages/src/Editor/FormerlySerializedAsRemover.cs:26-34 | A match is a well-formed span. Group 3 takes the whole whitespace run. Group 4 is empty unless `//` follows, and then runs to the end of the line. |
| Remover.SpanMatched | Packages/src/Editor/FormerlySerializedAsRemover.cs:26-29 | Converse of `MatchSpanSpec`: a well-formed span followed by text the pattern cannot take is matched as exactly that span. |
| Remover.SpaceAndCommentSpec | Packages/src/Editor/FormerlySerializedAsRemover.cs:32-34 | Group 3 is all leading whitespace. Group 4 is `//` up to the next line break, or empty, and is absent when no `//` follows. |
| Remover.Scan | Packages/src/Editor/FormerlySerializedAsRemover.cs:29 | The segments the scan cuts the text into concatenate back to the text. |
| Remover.ScanSpansWellFormed | Packages/src/Editor/FormerlySerializedAsRemover.cs:26-34 | Every span the scan matches is well formed: no `]` in its body, whitespace only in group 3, and a line comment or nothing in group 4. |
| Remover.Output | Packages/src/Editor/FormerlySerializedAsRemover.cs:29 | The text `regex.Replace` builds: copied characters, and each span's replacement. `RemoveFormerlySerializedAs` is proved to return it. |
| Remover.Removed | Packages/src/Editor/FormerlySerializedAsRemover.cs:37-38 | The sum of the per-span counts the closure adds to `totalRemovedCount`. `RemoveFormerlySerializedAs` is proved to return it. |
| Remover.Evaluate | Packages/src/Editor/FormerlySerializedAsRemover.cs:31-73 | A span without the target comes back unchanged. An emptied span leaves only its comment. A kept span becomes `[cleaned]`, then the original whitespace and comment. The comment always ends the result. |
| Remover.SpanThenRest | Packages/src/Editor/FormerlySerializedAsRemover.cs:29-74 | A span at the start of the text is rewritten on its own, its count is added, and the rewrite resumes right after it. |
| Remover.SpanDropped | Packages/src/Editor/FormerlySerializedAsRemover.cs:62-67 | A span whose list is cleaned to nothing leaves just its trailing comment. Its whitespace goes too, and the rest of the text is rewritten as before. `TargetLists.TargetsOnlySpanDropped` derives the premise for every list of plain-argument targets only, with any whitespace around its commas and just inside its brackets. |
| Remover.SpanCleaned | Packages/src/Editor/FormerlySerializedAsRemover.cs:69-73 | A span that keeps attributes becomes `[cleaned]`, then its original whitespace and comment, followed by the rewrite of the rest. |
| Remover.PlainTextCopied | Packages/src/Editor/FormerlySerializedAsRemover.cs:26-29 | Text without `[` is copied through unchanged in front of the rewrite of what follows. |
| Remover.PlainTextUncounted | Packages/src/Editor/FormerlySerializedAsRemover.cs:36-38 | Text without `[` adds nothing to the count. |
| Remover.UnclosedTextUnchanged | Packages/src/Editor/FormerlySerializedAsRemover.cs:26-29 | Text with no `]` holds no span: it comes back unchanged, with a count of 0. |
| Remover.OutputWithoutRemovals | Packages/src/Editor/FormerlySerializedAsRemover.cs:40-44 | Over segments whose counts are all 0, the output is the segments' original text. |
| Remover.NothingRemovedUnchanged | Packages/src/Editor/FormerlySerializedAsRemover.cs:40-44 | A count of 0 means the output equals the input. |
| Remover.EvaluateAsWritten | Packages/src/Editor/FormerlySerializedAsRemover.cs:72 | Line 72 as written: a kept list gets a backquote in front, and the other two cases agree with `Evaluate`. |
| Patterns.Replace | Packages/src/Editor/FormerlySerializedAsRemover.cs:49-56 | `Regex.Replace` with one of the fixed patterns. `MatchFirst`, `ScanPast`, `ReplaceWithoutMatches` and `ReplaceByNothingDeletes` state what it does. |
| Patterns.Matches | Packages/src/Editor/FormerlySerializedAsRemover.cs:37 | `Regex.Matches(...).Count`: at most one match per character. `MatchFirst`, `ScanPast` and `NoMatchesAnywhere` state what it counts. |
| Patterns.TargetLen | Packages/src/Editor/FormerlySerializedAsRemover.cs:37 | The matcher for `FormerlySerializedAs\([^)]*\)`. The match never runs past the text. `TargetLenSpec` states where it matches and how far. |
| Patterns.TargetCommaLen | Packages/src/Editor/FormerlySerializedAsRemover.cs:49 | The matcher for `FormerlySerializedAs\([^)]*\)\s*,`. A match ends with a comma and is longer than the target it starts with. |
| Patterns.CommaTargetLen | Packages/src/Editor/FormerlySerializedAsRemover.cs:51 | The matcher for `,\s*FormerlySerializedAs\([^)]*\)`. A match starts with a comma. |
| Patterns.SpacedCommaLen | Packages/src/Editor/FormerlySerializedAsRemover.cs:56 | The matcher for `\s*,\s*`. The match never runs past the text. `SpacedCommaLenSpec` states where it matches and how far. |
| Patterns.TargetLenSpec | Packages/src/Editor/FormerlySerializedAsRemover.cs:37 | `FormerlySerializedAs\([^)]*\)` matches exactly where the text starts with `FormerlySerializedAs(` and a `)` follows. The match ends at the first such `)`. |
| Patterns.TargetCommaLenSpec | Packages/src/Editor/FormerlySerializedAsRemover.cs:49 | `FormerlySerializedAs\([^)]*\)\s*,` matches only where the target matches. Its length is the target's, plus the whitespace after it, plus one for the comma. Where the target matches, it fails only if no comma follows that whitespace. |
| Patterns.CommaTargetLenSpec | Packages/src/Editor/FormerlySerializedAsRemover.cs:51 | `,\s*FormerlySerializedAs\([^)]*\)` matches exactly where a comma is followed, after whitespace, by a target call. Its length is one for the comma, plus the whitespace, plus the target's length. |
| Patterns.SpacedCommaLenSpec | Packages/src/Editor/FormerlySerializedAsRemover.cs:56 | `\s*,\s*` matches exactly where a comma follows the leading whitespace, and it takes all the whitespace after the comma. |
| Patterns.NoMatchesAnywhere | Packages/src/Editor/FormerlySerializedAsRemover.cs:37-40 | The count is 0 exactly when the pattern matches at no position of the list. |
| Patterns.ReplaceWithoutMatches | Packages/src/Editor/FormerlySerializedAsRemover.cs:49-56 | Replacing a pattern that is never found changes nothing. |
| Patterns.ReplaceByNothingDeletes | Packages/src/Editor/FormerlySerializedAsRemover.cs:49-53 | Replacing by the empty string only deletes: the result is a subsequence of the input. |
| Patterns.ScanPast | Packages/src/Editor/FormerlySerializedAsRemover.cs:37-56 | A stretch where the pattern matches at no position is copied and counts nothing. Replacement and counting go on after it. |
| Patterns.MatchFirst | Packages/src/Editor/FormerlySerializedAsRemover.cs:37-56 | A match at the start is replaced and counted once, and the scan resumes right after it. |
| AttributeCleaner.TargetCount | Packages/src/Editor/FormerlySerializedAsRemover.cs:37 | The number of target calls the scan finds in the list. `Scenarios` and `TargetLists` state it for each shape of list. |
| AttributeCleaner.StripTarget | Packages/src/Editor/FormerlySerializedAsRemover.cs:47-53 | The three removals only delete, so the attributes that remain keep their order. |
| AttributeCleaner.RemoveTargetAndComma | Packages/src/Editor/FormerlySerializedAsRemover.cs:49 | The first removal only deletes characters. |
| AttributeCleaner.RemoveCommaAndTarget | Packages/src/Editor/FormerlySerializedAsRemover.cs:51 | The second removal only deletes characters. |
| AttributeCleaner.RemoveTarget | Packages/src/Editor/FormerlySerializedAsRemover.cs:53 | The third removal only deletes characters. |
| AttributeCleaner.NormalizeCommas | Packages/src/Editor/FormerlySerializedAsRemover.cs:56 | Every comma and the whitespace around it becomes `", "`. `NormalizeSpacing`, `NormalizeWithoutEmptyEntries` and `NormalizeKeepsNonSpace` state what the result looks like. |
| AttributeCleaner.NormalizeSpacing | Packages/src/Editor/FormerlySerializedAsRemover.cs:56 | After normalization every comma is followed by exactly one space and then the end or a non-space, and whitespace stands before a comma only as the space of a `", "`. |
| AttributeCleaner.NormalizeWithoutEmptyEntries | Packages/src/Editor/FormerlySerializedAsRemover.cs:56 | If the list had no empty entry, then after normalization no comma follows another comma two characters on. |
| AttributeCleaner.NormalizeKeepsNonSpace | Packages/src/Editor/FormerlySerializedAsRemover.cs:56 | Normalization changes only whitespace: the non-whitespace characters stay the same and in order. |
| AttributeCleaner.Clean | Packages/src/Editor/FormerlySerializedAsRemover.cs:47-60 | The three removals, the comma repair and the trims, applied in the code's order. `CleanWellFormed` and `CleanKeepsEntryText` state what the result looks like. |
| AttributeCleaner.TrimList | Packages/src/Editor/FormerlySerializedAsRemover.cs:57-60 | `Trim`, `TrimEnd(',')`, `TrimStart(',')` and `Trim` again, in the code's order. `TrimKeepsEntryText` and `TrimCommasKeepEntryText` state what they keep. |
| AttributeCleaner.CleanWellFormed | Packages/src/Editor/FormerlySerializedAsRemover.cs:55-60 | If the list left after the removals has no empty entry, the cleaned list has no whitespace or comma at either end, and every comma is written as `", "` between two entries. The hypothesis is needed: `TargetLists.EmptyEntryLeavesComma` gives a list with an empty entry that is cleaned to `, n`. |
| AttributeCleaner.CleanKeepsEntryText | Packages/src/Editor/FormerlySerializedAsRemover.cs:55-60 | The repair deletes only whitespace and commas: the entries' text after the removals reaches the cleaned list unchanged and in order. |
| AttributeCleaner.TrimKeepsEntryText | Packages/src/Editor/FormerlySerializedAsRemover.cs:57 | `Trim` keeps the entries' text. |
| AttributeCleaner.TrimCommasKeepEntryText | Packages/src/Editor/FormerlySerializedAsRemover.cs:58-59 | `TrimEnd(',')` followed by `TrimStart(',')` keeps the entries' text. |
| Text.Trim | Packages/src/Editor/FormerlySerializedAsRemover.cs:57 | The result has no whitespace at either end, and it is empty only when the input was all whitespace. |
| Text.TrimSpec | Packages/src/Editor/FormerlySerializedAsRemover.cs:57 | The result is the input with its whitespace cut at both ends: a middle piece, with only whitespace before and after it. It is empty exactly when the input is all whitespace. |
| Text.TrimStart | Packages/src/Editor/FormerlySerializedAsRemover.cs:59 | The result is a suffix of the input, drops only characters of the class, and does not start with one. |
| Text.TrimEnd | Packages/src/Editor/FormerlySerializedAsRemover.cs:58 | The result is a prefix of the input, drops only characters of the class, and does not end with one. |
| Scenarios.LoneTargetBlockRemoved | Assets/Tests/CleanFormerlySerializedAsTests.cs:15-22 | `[FormerlySerializedAs(a)]` becomes the empty text, with a count of 1. |
| Scenarios.TargetThenNameBlock | Assets/Tests/CleanFormerlySerializedAsTests.cs:24-31 | `[FormerlySerializedAs(a), n]` becomes `[n]`, with a count of 1. |
| Scenarios.TargetBlockThenNameBlock | Assets/Tests/CleanFormerlySerializedAsTests.cs:33-40 | `[FormerlySerializedAs(a)] [n]` becomes `[n]`, with a count of 1. |
| Scenarios.TwoTargetBlocksThenNameBlock | Assets/Tests/CleanFormerlySerializedAsTests.cs:42-49 | Two target blocks followed by `[n]` become `[n]`, with a count of 2. |
| Scenarios.TargetThenNameWithComment | Assets/Tests/CleanFormerlySerializedAsTests.cs:51-58 | `[FormerlySerializedAs(a), n] // c` becomes `[n] // c`, with a count of 1. |
| Scenarios.MiddleTargetWithComment | Assets/Tests/CleanFormerlySerializedAsTests.cs:60-67 | `[m, FormerlySerializedAs(a), n] // c` becomes `[m, n] // c`, with a count of 1. |
| Scenarios.TargetLineThenName | Assets/Tests/CleanFormerlySerializedAsTests.cs:69-78 | A target line, then `[n]` and a declaration: the target line and its line break vanish, with a count of 1. The line break is any whitespace run, so `\n` and `\r\n` files alike. |
| Scenarios.TwoTargetLinesThenName | Assets/Tests/CleanFormerlySerializedAsTests.cs:80-90 | Two consecutive target lines vanish together, and the rest is unchanged, with a count of 2, for `\n` and `\r\n` line breaks alike. |
| Scenarios.SecondRunRemovesMore | Packages/src/Editor/FormerlySerializedAsRemover.cs:62-67 | The rewrite is not idempotent. A dropped block keeps its trailing comment, and a target inside that comment is removed by a second run. |
| Scenarios.BacktickOnKeptList | Packages/src/Editor/FormerlySerializedAsRemover.cs:72 | On the input of test lines 51-58, the evaluator as written yields `` `[n] // c ``, while the corrected evaluator yields the expected `[n] // c`. |
| TargetLists.TargetListCleaned | Packages/src/Editor/FormerlySerializedAsRemover.cs:37-60 | A list of k ≥ 1 targets `FormerlySerializedAs(a1)`, …, `FormerlySerializedAs(ak)` and nothing else, with any whitespace (line breaks included) on either side of each comma and before and after the whole list: line 37 counts all k, and the cleanup leaves nothing. |
| TargetLists.TargetListFirstRemoval | Packages/src/Editor/FormerlySerializedAsRemover.cs:49 | On such a list followed by any whitespace, line 49 removes every target but the last together with the whitespace and the comma after it. What is left is the whitespace that followed each comma, then the last target and the whitespace after it. |
| TargetLists.TargetsOnlySpanDropped | Packages/src/Editor/FormerlySerializedAsRemover.cs:62-67 | A span whose list holds only targets, separated by commas with any whitespace around them and with any whitespace just inside the brackets (`[ FormerlySerializedAs(a) ]`, a list split over lines), leaves just its trailing comment, and all k targets are counted. |
| TargetLists.TwoTargetsInOneBlock | Packages/src/Editor/FormerlySerializedAsRemover.cs:29-67 | `[FormerlySerializedAs(a) , FormerlySerializedAs(b)]`, with any whitespace or none around the comma, becomes the empty text, with a count of 2. |
| TargetLists.PaddedTargetBlock | Packages/src/Editor/FormerlySerializedAsRemover.cs:29-67 | `[ FormerlySerializedAs(a) ]`, or a target alone on a line between its brackets, with any whitespace just inside the brackets, becomes the empty text, with a count of 1. |
| TargetLists.LastTargetCleaned | Packages/src/Editor/FormerlySerializedAsRemover.cs:51 | `m, FormerlySerializedAs(a)`: line 51 takes the target with the comma before it. One target is counted and `m` is left. |
| TargetLists.LastTargetBlock | Packages/src/Editor/FormerlySerializedAsRemover.cs:51-72 | `[m, FormerlySerializedAs(a)]` becomes `[m]`, with a count of 1. |
| TargetLists.EmptyEntryLeavesComma | Packages/src/Editor/FormerlySerializedAsRemover.cs:56-60 | `FormerlySerializedAs(a),,, n` is cleaned to `, n`, with a count of 1. The cleaned list starts with a comma, so it is not well formed, although line 59's comment says a leading comma is removed. |
| TargetLists.EmptyEntryBlock | Packages/src/Editor/FormerlySerializedAsRemover.cs:29-72 | `[FormerlySerializedAs(a),,, n]` becomes `[, n]`, with a count of 1. |

## Left out

- The editor menu command (`CleanFormerlySerializedAsMenu.cs`) reads and writes script files, walks the project, and reports through Unity's UI. It is I/O and is not part of this model.
- The runtime `InspectorLinkBinder` scripts and the samples are unrelated to the rewrite and are not part of this model.
- The .NET regular-expression engine: only the five fixed patterns the remover uses are modelled, each by a hand-written matcher. The scan advances past each match, or by one character when there is none, as `Regex.Replace` and `Regex.Matches` do for these patterns, none of which matches the empty text.
- `\s`, `Trim()` and `string.IsNullOrWhiteSpace` are modelled with the ASCII whitespace characters (space, tab, line feed, vertical tab, form feed, carriage return). The Unicode space separators that .NET also treats as whitespace are not modelled.
- The commented-out collapse of blank lines (lines 76-78) is not code and is not modelled.
- Remover.RemoveFormerlySerializedAs: the count is an unbounded `nat`, so the model does not capture the wrap-around of the C# `int` counter past 2^31 - 1 attributes.
- TargetLists.TargetListCleaned, TargetLists.TargetsOnlySpanDropped: the target arguments are plain, with no parenthesis, `]`, comma or line break, as in the unit tests. An argument such as `nameof(x)` ends the patterns' `[^)]*` at its own `)`. The matchers model that, but these two lemmas say nothing about such lists.
- The match evaluator is a closure over the running count. The model passes the count explicitly through the loop, and the order of evaluation is the scan's left-to-right order.

## Findings

| source | as written | input that shows it | evidently intended | confidence | as-written member | corrected member |
|---|---|---|---|---|---|---|
| Packages/src/Editor/FormerlySerializedAsRemover.cs:72 | The interpolated string starts with a backquote, so a kept list is emitted as `` `[...] `` | `[FormerlySerializedAs("_hgo"), SerializeField] // コメント` (test lines 51-58) gives `` `[SerializeField] // コメント `` | `[SerializeField] // コメント`, as the unit tests expect | high; not executed | Remover.EvaluateAsWritten, Scenarios.BacktickOnKeptList | Remover.Evaluate |
