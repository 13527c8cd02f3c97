# Loses-in-war statistic parser in Dafny

A model of the parser of the loses-in-war statistic application. The parser
reads the daily report of the losses of the Russian army in Ukraine, either
as plain text or as the HTML of the web page. It produces one record of
thirteen counts: tanks, armoured fighting vehicles, cannons, multiple rocket
launchers, anti-air defence, planes, helicopters, drones, cruise missiles,
ships, cars and tankers, special equipment, and personnel.

`LosesInWarParser.parseLosesStatistic` works in these steps:

1. `StatisticValidator.validate` rejects null and blank input.
2. `normaliseInput` cuts every `<…>` tag.
3. The text is split into lines, and `removeBlank` trims them and drops
   the blank ones.
4. Fewer than thirteen lines give the empty record.
5. `standardizeStatisticRecords` glues each line without the long dash
   (U+2014) onto the line before it. It uses `rewriteArrayWithoutElem` to
   drop the glued line.
6. One count string per line goes into a thirteen-slot array. It is the
   first word after the dash, or the second word on the last line, where
   the personnel count follows "близько" ("about").
7. `Integer.parseInt` fills the record in category order.

The project has these modules:

- `Wrappers`: null as `Option`, and a thrown exception as `Result.Err` or
  `Outcome.Fail`.
- `JavaLang`: the `java.lang` behaviour the parser relies on:
  - `String.trim`, `isBlank`, `indexOf` and `split` with a one-character
    pattern, which drops trailing empty pieces;
  - `Integer.parseInt`, with its sign and 32-bit range.
- `Statistic`: the thirteen-count record.
- `StatisticValidator`: the guard.
- `ParserSpec`: each step as a function over values, with its properties.
- `LosesInWarParser`: the parser's methods as imperative code over
  arrays. Each is proved to compute its `ParserSpec` function.
- `ParserProperties`: theorems about whole reports:
  - a well-formed report is read back exactly;
  - so is one whose category lines are broken after the dash, or whose
    personnel remark stands on a line of its own;
  - so is such a report laid out with blank and indented lines and
    wrapped in HTML tags, like the page the HTML test parses;
  - markup is ignored;
  - the ways a malformed report fails.

## Model

| member | source | states |
|---|---|---|
| StatisticValidator.Validate | src/main/java/edu/cdu/ua/StatisticValidator.java:6-18 | passes exactly the present, non-blank strings; null throws NullPointerException; a blank string throws IllegalArgumentException with the message "Cant process empty statistic" |
| JavaLang.IsWhitespace | src/main/java/edu/cdu/ua/StatisticValidator.java:13 | Character.isWhitespace: tab through carriage return and the space are whitespace; the non-breaking spaces U+00A0, U+2007 and U+202F are not |
| JavaLang.IsBlank | src/main/java/edu/cdu/ua/StatisticValidator.java:13 | String.isBlank, defined as every character being whitespace: the empty string is blank; ParserSpec.ControlLineKeptEmpty and ParserSpec.TrimVisible relate it to trim |
| JavaLang.TrimStart | src/main/java/edu/cdu/ua/LosesInWarParser.java:81 | the leading half of trim: the result is a suffix of the input that is empty or starts above U+0020, and every character cut off is at most U+0020 |
| JavaLang.TrimEnd | src/main/java/edu/cdu/ua/LosesInWarParser.java:81 | the trailing half of trim: the result is a prefix of the input that is empty or ends above U+0020, and every character cut off is at most U+0020 |
| JavaLang.Trim | src/main/java/edu/cdu/ua/LosesInWarParser.java:81 | String.trim as TrimEnd after TrimStart, whose contracts say exactly what each end loses; the result starts and ends above U+0020 and is no longer than the input |
| JavaLang.TrimKeepsVisible | src/main/java/edu/cdu/ua/LosesInWarParser.java:81 | trimming keeps every character above U+0020 |
| JavaLang.TrimLeadingSpace | src/main/java/edu/cdu/ua/LosesInWarParser.java:38 | a leading space never survives trim |
| JavaLang.IndexOf | src/main/java/edu/cdu/ua/LosesInWarParser.java:64-65 | the first position of the character, or -1 exactly when it is absent |
| JavaLang.IndexOfFirst | src/main/java/edu/cdu/ua/LosesInWarParser.java:64-65 | indexOf returns a position exactly when the character occurs there and not before |
| JavaLang.SplitAll | src/main/java/edu/cdu/ua/LosesInWarParser.java:23 | the pieces between the delimiters, trailing empty ones included: there is at least one and none holds the delimiter; JoinSplitAll and SplitAllJoin show it is the inverse of joining |
| JavaLang.Split | src/main/java/edu/cdu/ua/LosesInWarParser.java:23 | String.split with a one-character pattern, as SplitAll followed by DropTrailingEmpty: with no delimiter the whole string comes back; no piece holds the delimiter |
| JavaLang.DropTrailingEmpty | src/main/java/edu/cdu/ua/LosesInWarParser.java:23 | the result is a prefix of the pieces that ends in a non-empty piece (or is empty), and every piece it drops is empty |
| JavaLang.SplitAllCons | src/main/java/edu/cdu/ua/LosesInWarParser.java:32 | cutting at the first delimiter peels off the text before it |
| JavaLang.JoinSplitAll | src/main/java/edu/cdu/ua/LosesInWarParser.java:23 | joining the pieces with the delimiter gives the string back |
| JavaLang.SplitAllJoin | src/main/java/edu/cdu/ua/LosesInWarParser.java:23 | splitting joined pieces gives the pieces back |
| JavaLang.JoinWithAvoids | src/main/java/edu/cdu/ua/LosesInWarParser.java:23 | joining adds no character but the delimiter |
| JavaLang.JoinWithKeeps | src/main/java/edu/cdu/ua/LosesInWarParser.java:23 | every character of every piece is in the joined string |
| JavaLang.SplitKeepsPrefix | src/main/java/edu/cdu/ua/LosesInWarParser.java:38 | dropping trailing empty pieces keeps every piece up to a non-empty one |
| JavaLang.ParseInt | src/main/java/edu/cdu/ua/LosesInWarParser.java:46-58 | a success lies in the 32-bit range and comes from digits, or from a sign followed by at least one digit; for digits alone, with "+" or with "-", the result is their decimal value, negated after "-", or NumberFormatException outside the 32-bit range; null and everything else throw NumberFormatException |
| JavaLang.ParseIntSamples | src/main/java/edu/cdu/ua/LosesInWarParser.java:46-58 | "007" reads as 7 and "-12" as -12; "x5" and a lone "-" throw NumberFormatException |
| JavaLang.DecimalValue | src/main/java/edu/cdu/ua/LosesInWarParser.java:46-58 | the digits of the decimal form of n have the value n |
| JavaLang.ParseIntDecimal | src/main/java/edu/cdu/ua/LosesInWarParser.java:46-58 | parseInt reads back the decimal form of any count up to 2^31 - 1 |
| Statistic.Empty | src/main/java/edu/cdu/ua/LosesInWarParser.java:24-26 | every count of the empty record is 0 |
| Statistic.FromCounts | src/main/java/edu/cdu/ua/LosesInWarParser.java:45-59 | the k-th category of the built record holds the k-th value |
| Statistic.FieldsDetermine | src/main/java/edu/cdu/ua/LosesInWarParser.java:45-59 | two records with the same thirteen counts are equal |
| ParserSpec.StripTags | src/main/java/edu/cdu/ua/LosesInWarParser.java:62-70 | the result holds no '<'; it is no longer than the input; a text without '<' is returned unchanged |
| ParserSpec.StripStep | src/main/java/edu/cdu/ua/LosesInWarParser.java:64-66 | one pass of the loop: when the first '>' follows the first '<', the text shrinks by exactly the length of that span |
| ParserSpec.StripStepDeletesTag | src/main/java/edu/cdu/ua/LosesInWarParser.java:63-66 | when the first '>' follows the first '<', a pass deletes exactly the span from the '<' through the '>' |
| ParserSpec.StripStepDiverges | src/main/java/edu/cdu/ua/LosesInWarParser.java:63-66 | when the first '>' is missing or comes before the first '<', a pass keeps a '<' and does not shrink the text, so the loop never ends |
| LosesInWarParser.NormaliseInput | src/main/java/edu/cdu/ua/LosesInWarParser.java:62-70 | the loop computes StripTags: no '<' is left, and text without '<' is unchanged |
| ParserSpec.KeepNonBlank | src/main/java/edu/cdu/ua/LosesInWarParser.java:77-85 | never adds lines, and every kept line is trimmed |
| ParserSpec.KeepNonBlankAppend | src/main/java/edu/cdu/ua/LosesInWarParser.java:77-85 | blank removal works line by line and keeps the order |
| ParserSpec.KeepNonBlankVisible | src/main/java/edu/cdu/ua/LosesInWarParser.java:80-81 | without control characters every kept line is non-blank |
| ParserSpec.TrimVisible | src/main/java/edu/cdu/ua/LosesInWarParser.java:80-81 | a non-blank line without control characters stays non-blank when trimmed |
| ParserSpec.ControlLineKeptEmpty | src/main/java/edu/cdu/ua/LosesInWarParser.java:80-81 | a line holding only U+0001 is not blank, so it is kept, but it trims to "" |
| ParserSpec.KeepNonBlankIdentity | src/main/java/edu/cdu/ua/LosesInWarParser.java:77-85 | lines that are already trimmed and non-blank pass through unchanged |
| LosesInWarParser.RemoveBlank | src/main/java/edu/cdu/ua/LosesInWarParser.java:77-85 | the new array holds KeepNonBlank of the split lines |
| ParserSpec.KeptBefore | src/main/java/edu/cdu/ua/LosesInWarParser.java:100-105 | what the copy loop has written after looking at i elements: its length is i, or i - 1 once the left-out index has been passed |
| ParserSpec.KeptBeforeNext | src/main/java/edu/cdu/ua/LosesInWarParser.java:101-104 | one more step copies the element unless it is the left-out one |
| ParserSpec.KeptBeforeDone | src/main/java/edu/cdu/ua/LosesInWarParser.java:100 | when the loop stops, every element but the left-out one is kept; with the index out of range, every element but the last |
| ParserSpec.MultisetWithoutAt | src/main/java/edu/cdu/ua/LosesInWarParser.java:98-108 | leaving out one element takes exactly that element from the multiset |
| LosesInWarParser.RewriteArrayWithoutElem | src/main/java/edu/cdu/ua/LosesInWarParser.java:98-108 | returns a new array one shorter that holds every element but the one at elemIndex, in order and as a permutation less that element; an index outside the array drops the last element |
| ParserSpec.Glue | src/main/java/edu/cdu/ua/LosesInWarParser.java:90-91 | gluing line i onto line i - 1 leaves one line fewer |
| ParserSpec.MergeFrom | src/main/java/edu/cdu/ua/LosesInWarParser.java:87-96 | the merge can fail only with ArrayIndexOutOfBoundsException |
| ParserSpec.GlueKeepsText | src/main/java/edu/cdu/ua/LosesInWarParser.java:90-91 | gluing keeps the concatenated text |
| ParserSpec.ConcatGlue | src/main/java/edu/cdu/ua/LosesInWarParser.java:90 | writing x + y as one line or as two lines gives the same text |
| ParserSpec.MergeFromKeepsText | src/main/java/edu/cdu/ua/LosesInWarParser.java:88-93 | past index 0 the merge cannot fail, never adds lines and keeps the text |
| ParserSpec.Merge | src/main/java/edu/cdu/ua/LosesInWarParser.java:87-96 | standardizeStatisticRecords fails, with ArrayIndexOutOfBoundsException, exactly when the first line lacks the dash; otherwise it keeps the text and adds no line |
| ParserSpec.MergeFromDelimited | src/main/java/edu/cdu/ua/LosesInWarParser.java:88-89 | lines that all carry the dash are left alone |
| ParserSpec.MergeDelimitsEveryLine | src/main/java/edu/cdu/ua/LosesInWarParser.java:87-96 | if the first line has the dash and no two lines in a row lack it, the merge succeeds and every merged line carries the dash |
| ParserSpec.MergeFromDelimitsEveryLine | src/main/java/edu/cdu/ua/LosesInWarParser.java:88-93 | the same from index i, once every line before i carries the dash |
| ParserSpec.GlueKeepsDash | src/main/java/edu/cdu/ua/LosesInWarParser.java:90-91 | gluing a continuation line onto a labelled line keeps the lines up to i labelled |
| ParserSpec.MergeSkipsSlidLine | src/main/java/edu/cdu/ua/LosesInWarParser.java:88-92 | after a merge the index moves past the line that slid into its place: ["a—", "b", "c"] merges to ["a—b", "c"] |
| ParserSpec.FirstUndelimited | src/main/java/edu/cdu/ua/LosesInWarParser.java:89 | the first index without the dash: every line before it has the dash |
| ParserSpec.InPlaceEffect | src/main/java/edu/cdu/ua/LosesInWarParser.java:90-91 | only the first merge writes into the caller's array; the array keeps its length |
| ParserSpec.GlueInPlace | src/main/java/edu/cdu/ua/LosesInWarParser.java:90-91 | writing line i - 1 in place and then copying without line i gives the glued lines |
| ParserSpec.InPlaceEffectAt | src/main/java/edu/cdu/ua/LosesInWarParser.java:88-90 | the caller's array changes at the first line without the dash |
| LosesInWarParser.MergeIntoPrevious | src/main/java/edu/cdu/ua/LosesInWarParser.java:90-91 | appends line i to line i - 1 in the array itself and returns a new array of the glued lines |
| LosesInWarParser.StandardizeStatisticRecords | src/main/java/edu/cdu/ua/LosesInWarParser.java:87-96 | succeeds exactly when Merge does, returns the merged lines, throws only ArrayIndexOutOfBoundsException, and leaves the caller's array as InPlaceEffect says |
| ParserSpec.LineCount | src/main/java/edu/cdu/ua/LosesInWarParser.java:32-42 | a line without the dash yields "0"; any line but the last yields a count; a failure is ArrayIndexOutOfBoundsException |
| ParserSpec.CountAfterDash | src/main/java/edu/cdu/ua/LosesInWarParser.java:37-42 | the first token always exists; only the last line can miss its second token |
| ParserSpec.FirstTokenExists | src/main/java/edu/cdu/ua/LosesInWarParser.java:41 | splitting a trimmed string on ' ' gives at least one piece |
| ParserSpec.DashAtEndYieldsZero | src/main/java/edu/cdu/ua/LosesInWarParser.java:32-35 | a line that ends in its only dash yields "0" |
| ParserSpec.ExtractLoop | src/main/java/edu/cdu/ua/LosesInWarParser.java:30-43 | a success holds thirteen slots; a failure is ArrayIndexOutOfBoundsException |
| ParserSpec.ExtractLoopStep | src/main/java/edu/cdu/ua/LosesInWarParser.java:31-43 | a line within the thirteen slots writes its count and moves on |
| ParserSpec.ExtractLoopPastEnd | src/main/java/edu/cdu/ua/LosesInWarParser.java:30-43 | a fourteenth line writes past the array and throws |
| ParserSpec.ExtractLoopLineFails | src/main/java/edu/cdu/ua/LosesInWarParser.java:38-39 | a last line without its second token throws |
| ParserSpec.ExtractLoopFits | src/main/java/edu/cdu/ua/LosesInWarParser.java:30-43 | with at most thirteen lines the loop fails exactly when the last line lacks its second token; otherwise slot k holds line k's count and the other slots stay as they were |
| ParserSpec.NoCounts | src/main/java/edu/cdu/ua/LosesInWarParser.java:30 | the new counts array has thirteen slots, all null |
| ParserSpec.ExtractLoopOverflows | src/main/java/edu/cdu/ua/LosesInWarParser.java:30-43 | more than thirteen lines always throw ArrayIndexOutOfBoundsException |
| ParserSpec.ExtractCounts | src/main/java/edu/cdu/ua/LosesInWarParser.java:30-43 | the loop over all lines: more than thirteen lines throw; up to thirteen throw exactly when the last line lacks its second token; a success holds thirteen slots; every failure is ArrayIndexOutOfBoundsException |
| LosesInWarParser.ExtractStatisticCounts | src/main/java/edu/cdu/ua/LosesInWarParser.java:30-43 | fills a new thirteen-slot array exactly as ExtractCounts does, or throws exactly when it does |
| ParserSpec.ParseCounts | src/main/java/edu/cdu/ua/LosesInWarParser.java:46-58 | succeeds exactly when every count parses, and then holds each parsed count at its index |
| ParserSpec.BuildStatistic | src/main/java/edu/cdu/ua/LosesInWarParser.java:45-59 | succeeds exactly when all thirteen slots parse; category k then holds slot k's value; a failure is NumberFormatException |
| ParserSpec.CleanLines | src/main/java/edu/cdu/ua/LosesInWarParser.java:14-23 | the lines after stripping tags, splitting at line breaks and removing blanks: every line is trimmed, and there are no more of them than pieces of the split |
| ParserSpec.ParseSpec | src/main/java/edu/cdu/ua/LosesInWarParser.java:11-60 | null throws NullPointerException; blank throws IllegalArgumentException; fewer than thirteen clean lines give the empty record |
| LosesInWarParser.ParseLosesStatistic | src/main/java/edu/cdu/ua/LosesInWarParser.java:11-60 | the pipeline of methods computes ParseSpec |
| ParserProperties.DashSplit | src/main/java/edu/cdu/ua/LosesInWarParser.java:32 | "label— rest" splits on the dash into the label, which keeps whatever precedes the dash (a space or "&nbsp;"), and " rest" |
| ParserProperties.DashLineCount | src/main/java/edu/cdu/ua/LosesInWarParser.java:32-42 | the count of "label — rest" is read from rest alone |
| ParserProperties.CountIsFirstToken | src/main/java/edu/cdu/ua/LosesInWarParser.java:41 | the count comes before a remark such as "(+19)" |
| ParserProperties.CountIsSecondToken | src/main/java/edu/cdu/ua/LosesInWarParser.java:38-39 | after "близько " the count is the second token |
| ParserProperties.SecondTokenCount | src/main/java/edu/cdu/ua/LosesInWarParser.java:37-39 | the last line reads the count after the word |
| ParserProperties.CategoryLineCount | src/test/java/edu/cdu/ua/LosesInWarParserTest.java:190-227 | a category line with or without a remark yields its digits, and "label —" yields "0" |
| ParserProperties.PersonnelLineCount | src/test/java/edu/cdu/ua/LosesInWarParserTest.java:140-161 | the personnel line "label — близько count remark" yields the count |
| ParserProperties.CategoryLineClean | src/main/java/edu/cdu/ua/LosesInWarParser.java:77-96 | a category line passes removeBlank and the merge unchanged |
| ParserProperties.PersonnelLineClean | src/main/java/edu/cdu/ua/LosesInWarParser.java:77-96 | so does the personnel line |
| ParserProperties.SplitReportText | src/main/java/edu/cdu/ua/LosesInWarParser.java:23 | a report text splits back into its lines |
| ParserProperties.CleanLinesOfReport | src/main/java/edu/cdu/ua/LosesInWarParser.java:12-28 | a report of clean lines passes validation, has no tags, comes through removeBlank as its lines, and is not merged |
| ParserProperties.ExtractThirteen | src/main/java/edu/cdu/ua/LosesInWarParser.java:30-43 | thirteen lines that each yield a count fill the thirteen slots in order |
| ParserProperties.CountTextParses | src/main/java/edu/cdu/ua/LosesInWarParser.java:46-58 | a count string of the report parses to its value, and a missing one to 0 |
| ParserProperties.BuildReport | src/main/java/edu/cdu/ua/LosesInWarParser.java:45-59 | the builder turns the report's count strings into the record of its values |
| ParserProperties.ParseWellFormedReport | src/test/java/edu/cdu/ua/LosesInWarParserTest.java:62-227 | any report of thirteen lines "label— count remark" in category order, with "label— word count remark" last, parses to exactly its counts; a line "label—" gives 0 |
| ParserProperties.CleanLinesOfKept | src/main/java/edu/cdu/ua/LosesInWarParser.java:12-23 | lines that are trimmed, not blank and free of "<" and line breaks, written one per line, pass validation, hold no tag and come back from split and removeBlank as themselves |
| ParserProperties.ParseOfMerged | src/main/java/edu/cdu/ua/LosesInWarParser.java:28-59 | once the clean lines merge and the extraction succeeds, the result is the record built from the merged lines' counts |
| ParserProperties.ParseSingleLine | src/main/java/edu/cdu/ua/LosesInWarParser.java:23-26 | a non-blank text of one line without tags gives the empty record |
| ParserProperties.ParseTextWithoutStatistic | src/test/java/edu/cdu/ua/LosesInWarParserTest.java:54-60 | "some long text without statistic data" gives the empty record |
| ParserProperties.ParseFirstLineWithoutDash | src/main/java/edu/cdu/ua/LosesInWarParser.java:88-90 | thirteen or more lines whose first line lacks the dash throw ArrayIndexOutOfBoundsException |
| ParserProperties.ParseOfMergedLines | src/main/java/edu/cdu/ua/LosesInWarParser.java:28-59 | after merging, more than thirteen lines throw; a last line without its second token throws; otherwise the record is built from each line's count |
| ParserProperties.SlotCounts | src/main/java/edu/cdu/ua/LosesInWarParser.java:30-43 | slot k holds line k's count, and the slots past the lines stay null |
| ParserProperties.ParseMissingLines | src/main/java/edu/cdu/ua/LosesInWarParser.java:30-58 | fewer than thirteen lines after merging always throw: the personnel slot stays null, and parseInt(null) throws |
| ParserProperties.BuildWithoutPersonnel | src/main/java/edu/cdu/ua/LosesInWarParser.java:58 | a null personnel slot makes the builder throw NumberFormatException |
| ParserProperties.StripTagsKeepsChars | src/main/java/edu/cdu/ua/LosesInWarParser.java:62-70 | stripping tags adds no character |
| ParserProperties.StrippedNotBlank | src/main/java/edu/cdu/ua/LosesInWarParser.java:12-14 | a text that is not blank once stripped was not blank before |
| ParserProperties.ParseIgnoresMarkup | src/main/java/edu/cdu/ua/LosesInWarParser.java:12-14 | a text that still holds a visible character once its tags are gone parses exactly as that text without tags |

| ParserProperties.MergeFromRecord | src/main/java/edu/cdu/ua/LosesInWarParser.java:88-92 | a record broken over two lines, a labelled line and a line without the dash, is glued into one line, and the index moves past it when the next line has the dash |
| ParserProperties.MergeFromRecords | src/main/java/edu/cdu/ua/LosesInWarParser.java:88-93 | from any index, the merge of the physical lines of well-broken records is the records glued back together |
| ParserProperties.MergeRecords | src/main/java/edu/cdu/ua/LosesInWarParser.java:87-96 | standardizeStatisticRecords succeeds on the physical lines of well-broken records and gives one line per record |
| ParserProperties.GluedLineCount | src/main/java/edu/cdu/ua/LosesInWarParser.java:32-41 | a glued line "label—" + "count remark", with no space after the dash, still yields the count |
| ParserProperties.ParseRecordsIn | src/main/java/edu/cdu/ua/LosesInWarParser.java:11-59 | any text whose clean lines are thirteen well-broken records, each yielding its count once glued, parses to exactly those counts |
| ParserProperties.ParseRecords | src/main/java/edu/cdu/ua/LosesInWarParser.java:11-59 | the same for the text of those records written one physical line per line |
| ParserProperties.ParseBrokenReport | src/test/java/edu/cdu/ua/LosesInWarParserTest.java:283-290 | a well-formed report in which any category line is broken after its dash and the personnel remark may stand on a line of its own parses to exactly its counts |
| ParserProperties.TrimIndented | src/main/java/edu/cdu/ua/LosesInWarParser.java:81 | trim takes off indentation by spaces and keeps the trimmed line |
| ParserProperties.KeepNonBlankLayout | src/main/java/edu/cdu/ua/LosesInWarParser.java:77-85 | removeBlank drops the blank lines of a page and un-indents the others, in order |
| ParserProperties.CleanLinesOfLayout | src/main/java/edu/cdu/ua/LosesInWarParser.java:12-23 | a page of blank lines and indented report lines passes validation, holds no tag and cleans to its report lines |
| ParserProperties.ParseLaidOutReport | src/test/java/edu/cdu/ua/LosesInWarParserTest.java:271-296 | a broken report laid out with blank lines and indentation parses to exactly its counts |
| ParserProperties.StripTagsPrefix | src/main/java/edu/cdu/ua/LosesInWarParser.java:62-70 | text without angle brackets in front of tagged text is kept by the tag loop, which ends whenever it ends on the tagged text |
| ParserProperties.StripMarkup | src/main/java/edu/cdu/ua/LosesInWarParser.java:62-70 | on visible pieces and tags "<name>" with no angle bracket in the name, the tag loop ends and leaves exactly the visible pieces |
| ParserProperties.ParseMarkup | src/main/java/edu/cdu/ua/LosesInWarParser.java:12-14 | such a page, once its visible text is not blank, parses exactly as that text |
| ParserProperties.ParseReportPage | src/test/java/edu/cdu/ua/LosesInWarParserTest.java:268-315 | an HTML page whose visible text is a laid-out broken report (tags anywhere, blank and indented lines, a category line broken after its dash, the personnel remark on its own line) parses to exactly the report's counts, as the HTML test expects |

## Left out

- `recodeStringToUTF8` (`LosesInWarParser.java:72-75`) is taken as the identity. Byte encodings are not modelled, and the exception it catches and prints is not modelled either.
- `Main.java` is left out. It parses one built-in report and prints the result's `asPrintVersion()` to standard output.
- `LosesStatistic` is not part of this model. Only its thirteen counts and the fields its builder fills are modelled. Its `equals`, `toString` and `asPrintVersion` are left out.
- `String.split` is modelled only for a one-character literal pattern, which is all the parser uses. General regular expressions are left out.
- `Integer.parseInt` accepts only ASCII digits here. Java also accepts other Unicode decimal digits.
- Strings are sequences of code points, not of UTF-16 units. Characters outside the Basic Multilingual Plane are therefore one element each.
- LosesInWarParser.NormaliseInput: requires that the tag loop ends (`TagsTerminate`). On text where the first `>` is missing or comes before the first `<`, the Java loop never ends. `ParserSpec.StripStepDiverges` proves this, so such input is excluded rather than modelled.
- LosesInWarParser.ParseLosesStatistic: requires `TagsTerminate` for the same reason.
- LosesInWarParser.RewriteArrayWithoutElem: requires a non-empty array. On an empty one Java throws NegativeArraySizeException. The parser never passes an empty array, because index i ≥ 1 exists.
- trim and isBlank look at different characters. `String.trim` removes everything up to U+0020, while `isBlank` uses `Character.isWhitespace`. A line of control characters is therefore kept as an empty line. This behaviour is modelled, and `ParserSpec.ControlLineKeptEmpty` shows it.
- The extraction loop (`LosesInWarParser.java:30-43`) is written as the method `ExtractStatisticCounts`. The glue step (`LosesInWarParser.java:90-91`) is written as the method `MergeIntoPrevious`. Both are helpers of the methods they come from.
- ParserProperties.ParseReportPage: covers pages that are indented with spaces only, whose tags hold no angle bracket, and whose text ends with a line break after a last line that is not empty. A record is broken over at most two lines. Other pages are still parsed by `ParseSpec`, but no theorem states their result.
