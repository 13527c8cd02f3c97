/** What parseLosesStatistic does with whole reports: the report format the
    parser is written for, read back line by line and as a whole, and the
    ways a report that does not fit the format fails. */
module ParserProperties {
  import opened Wrappers
  import opened JavaLang
  import opened Statistic
  import opened StatisticValidator
  import opened ParserSpec

  // ---------------------------------------------------------------------
  // The report format
  // ---------------------------------------------------------------------

  /** The long dash and the space after it. What stands before the dash,
      a space as in "Танки — 5877" or "&nbsp;" as in
      "Танки&nbsp;— 2848", belongs to the label. */
  const Dash: string := [RecordDelimiter, ' ']

  /** Text with no dash, no markup and no line break. */
  predicate PlainText(s: string) {
    RecordDelimiter !in s && '<' !in s && '\n' !in s
  }

  /** A category label with what precedes the dash, such as "Танки " or
      "Кораблі (катери)&nbsp;". */
  predicate ValidLabel(name: string) {
    |name| > 0 && name[0] > ' ' && PlainText(name)
  }

  /** What may follow a count: nothing, or a remark after a space such as
      " (+19)" or " осіб (+760)", ending in a visible character. */
  predicate ValidSuffix(suffix: string) {
    suffix == [] || (suffix[0] == ' ' && suffix[|suffix| - 1] > ' ' && PlainText(suffix))
  }

  /** The one word before the personnel count, "близько" ("about"). */
  predicate ValidWord(word: string) {
    |word| > 0 && word[0] > ' ' && ' ' !in word && PlainText(word)
  }

  /** The count string a report line carries: its digits, or "0" where the
      line has the dash and nothing after it. */
  function CountText(value: Option<nat>): (r: string)
    ensures |r| > 0 && AllDigits(r)
  {
    match value
    case Some(v) => Decimal(v)
    case None => "0"
  }

  function ValueOrZero(value: Option<nat>): nat {
    match value
    case Some(v) => v
    case None => 0
  }

  /** A category line: "label — count remark", or "label —" without a
      count. */
  function CategoryLine(name: string, value: Option<nat>, suffix: string): string {
    match value
    case Some(v) => name + Dash + Decimal(v) + suffix
    case None => name + [RecordDelimiter]
  }

  /** The personnel line: "label — word count remark", or "label —". */
  function PersonnelLine(name: string, word: string, value: Option<nat>, suffix: string): string {
    match value
    case Some(v) => name + Dash + word + " " + Decimal(v) + suffix
    case None => name + [RecordDelimiter]
  }

  /** Twelve category lines and the personnel line, in category order. */
  function ReportLines(names: seq<string>, values: seq<Option<nat>>, suffixes: seq<string>, word: string)
    : (r: seq<string>)
    requires |names| == |values| == |suffixes| == FieldCount
    ensures |r| == FieldCount
    ensures forall k :: 0 <= k < FieldCount - 1 ==>
              r[k] == CategoryLine(names[k], values[k], suffixes[k])
    ensures r[FieldCount - 1] ==
              PersonnelLine(names[FieldCount - 1], word, values[FieldCount - 1],
                            suffixes[FieldCount - 1])
  {
    seq(FieldCount, k requires 0 <= k < FieldCount =>
      if k < FieldCount - 1 then CategoryLine(names[k], values[k], suffixes[k])
      else PersonnelLine(names[k], word, values[k], suffixes[k]))
  }

  /** The lines as a text block: every line followed by a line break. */
  function ReportText(lines: seq<string>): string {
    JoinWith(lines + [""], '\n')
  }

  /** The counts a report with these values carries, a missing one as 0. */
  function ReportCounts(values: seq<Option<nat>>): (r: seq<int>)
    requires |values| == FieldCount
    ensures |r| == FieldCount
    ensures forall k :: 0 <= k < FieldCount ==> r[k] == ValueOrZero(values[k])
  {
    seq(FieldCount, k requires 0 <= k < FieldCount => ValueOrZero(values[k]))
  }

  // ---------------------------------------------------------------------
  // Reading one line
  // ---------------------------------------------------------------------

  /** Splitting "label — rest" on the dash gives "label " and " rest". */
  lemma DashSplit(name: string, rest: string)
    requires RecordDelimiter !in name && RecordDelimiter !in rest
    ensures Split(name + Dash + rest, RecordDelimiter) == [name, " " + rest]
  {
    var line := name + Dash + rest;
    assert line == name + [RecordDelimiter] + (" " + rest);
    SplitAllCons(name, " " + rest, RecordDelimiter);
    SplitAllNone(" " + rest, RecordDelimiter);
    assert line[|name|] == RecordDelimiter;
  }

  lemma PlainTextConcat(a: string, b: string)
    requires PlainText(a) && PlainText(b)
    ensures PlainText(a + b)
  {
  }

  lemma DigitIsVisible(c: char)
    requires IsDigit(c)
    ensures c > ' ' && !IsWhitespace(c)
  {
  }

  /** Digits are plain text and hold no space. */
  lemma DigitsArePlain(count: string)
    requires AllDigits(count)
    ensures PlainText(count) && ' ' !in count
  {
    forall k | 0 <= k < |count|
      ensures count[k] != RecordDelimiter && count[k] != '<' && count[k] != '\n' && count[k] != ' '
    {
      assert IsDigit(count[k]);
    }
  }

  /** The text after the dash, trimmed, is the count and its remark. */
  lemma TrimCountText(count: string, suffix: string)
    requires |count| > 0 && AllDigits(count) && ValidSuffix(suffix)
    ensures IsTrimmed(count + suffix)
    ensures Trim(" " + (count + suffix)) == count + suffix
  {
    var t := count + suffix;
    assert IsDigit(count[0]) && IsDigit(count[|count| - 1]);
    assert t[0] == count[0];
    if suffix == [] {
      assert t == count;
    } else {
      assert t[|t| - 1] == suffix[|suffix| - 1];
    }
    TrimLeadingSpace(t);
    TrimOfTrimmed(t);
  }

  /** The count comes first when the text after the dash is split on
      spaces; a remark like "(+19)" comes after it. */
  lemma CountIsFirstToken(count: string, suffix: string)
    requires |count| > 0 && AllDigits(count) && ValidSuffix(suffix)
    ensures |Split(count + suffix, ' ')| >= 1 && Split(count + suffix, ' ')[0] == count
  {
    DigitsArePlain(count);
    if suffix == [] {
      assert count + suffix == count;
    } else {
      SplitAllHead(count, suffix, ' ');
      SplitKeepsPrefix(count + suffix, ' ', 0);
    }
  }

  /** After "word " the count is the second token. */
  lemma CountIsSecondToken(word: string, count: string, suffix: string)
    requires ValidWord(word) && |count| > 0 && AllDigits(count) && ValidSuffix(suffix)
    ensures |Split(word + [' '] + (count + suffix), ' ')| >= 2
    ensures Split(word + [' '] + (count + suffix), ' ')[1] == count
  {
    var t := word + [' '] + (count + suffix);
    DigitsArePlain(count);
    SplitAllCons(word, count + suffix, ' ');
    if suffix == [] {
      assert count + suffix == count;
      SplitAllNone(count, ' ');
    } else {
      SplitAllHead(count, suffix, ' ');
    }
    assert SplitAll(t, ' ')[1] == count;
    SplitKeepsPrefix(t, ' ', 1);
  }

  /** On "label — rest" the count is read from rest alone. */
  lemma DashLineCount(name: string, rest: string, isLast: bool)
    requires RecordDelimiter !in name && RecordDelimiter !in rest && IsTrimmed(rest)
    ensures LineCount(name + Dash + rest, isLast) == CountAfterDash(rest, isLast)
  {
    DashSplit(name, rest);
    TrimLeadingSpace(rest);
    TrimOfTrimmed(rest);
  }

  /** "label — count remark" yields the count, as any line but the last. */
  lemma ValuedCategoryLineCount(name: string, count: string, suffix: string)
    requires ValidLabel(name) && |count| > 0 && AllDigits(count) && ValidSuffix(suffix)
    ensures LineCount(name + Dash + (count + suffix), false) == Ok(count)
  {
    ValuedTextClean(count, suffix);
    DashLineCount(name, count + suffix, false);
    CountIsFirstToken(count, suffix);
  }

  /** "label — word count remark" yields the count, as the last line. */
  lemma ValuedPersonnelLineCount(name: string, word: string, count: string, suffix: string)
    requires ValidLabel(name) && ValidWord(word) && |count| > 0 && AllDigits(count) && ValidSuffix(suffix)
    ensures LineCount(name + Dash + (word + [' '] + (count + suffix)), true) == Ok(count)
  {
    var rest := word + [' '] + (count + suffix);
    WordTextClean(word, count, suffix);
    DashLineCount(name, rest, true);
    SecondTokenCount(word, count, suffix);
  }

  /** The last line's reading of "word count remark" is the count. */
  lemma SecondTokenCount(word: string, count: string, suffix: string)
    requires ValidWord(word) && |count| > 0 && AllDigits(count) && ValidSuffix(suffix)
    requires IsTrimmed(word + [' '] + (count + suffix))
    ensures CountAfterDash(word + [' '] + (count + suffix), true) == Ok(count)
  {
    CountIsSecondToken(word, count, suffix);
    DigitIsVisible(count[0]);
    DigitIsVisible(count[|count| - 1]);
    TrimOfTrimmed(count);
  }

  /** "label —" yields "0" wherever it stands. */
  lemma BareLineCount(name: string, isLast: bool)
    requires ValidLabel(name)
    ensures LineCount(name + [RecordDelimiter], isLast) == Ok("0")
  {
    DashAtEndYieldsZero(name, isLast);
  }

  /** A category line that is not the last one yields its count, whatever
      remark follows it. */
  lemma CategoryLineCount(name: string, value: Option<nat>, suffix: string)
    requires ValidLabel(name) && ValidSuffix(suffix)
    ensures LineCount(CategoryLine(name, value, suffix), false) == Ok(CountText(value))
  {
    match value
    case None =>
      BareLineCount(name, false);
    case Some(v) =>
      assert CategoryLine(name, value, suffix) == name + Dash + (Decimal(v) + suffix);
      ValuedCategoryLineCount(name, Decimal(v), suffix);
  }

  /** The personnel line, read as the last line, yields the count after
      the word. */
  lemma PersonnelLineCount(name: string, word: string, value: Option<nat>, suffix: string)
    requires ValidLabel(name) && ValidWord(word) && ValidSuffix(suffix)
    ensures LineCount(PersonnelLine(name, word, value, suffix), true) == Ok(CountText(value))
  {
    match value
    case None =>
      BareLineCount(name, true);
    case Some(v) =>
      assert PersonnelLine(name, word, value, suffix) ==
               name + Dash + (word + [' '] + (Decimal(v) + suffix));
      ValuedPersonnelLineCount(name, word, Decimal(v), suffix);
  }

  // ---------------------------------------------------------------------
  // Reading a whole report
  // ---------------------------------------------------------------------

  /** A line removeBlank keeps as it is and standardizeStatisticRecords
      leaves alone: trimmed, not blank, with the dash, and with no markup
      and no line break. */
  predicate CleanReportLine(line: string) {
    KeptLine(line) && RecordDelimiter in line
  }

  /** "label — rest" is clean when rest is plain, trimmed and holds a
      visible character. */
  lemma DashLineClean(name: string, rest: string, j: nat)
    requires ValidLabel(name) && PlainText(rest) && IsTrimmed(rest)
    requires j < |rest| && !IsWhitespace(rest[j])
    ensures CleanReportLine(name + Dash + rest)
  {
    var line := name + Dash + rest;
    assert '<' !in Dash && '\n' !in Dash;
    assert line[|name|] == RecordDelimiter;
    assert line[|name| + 2 + j] == rest[j];
    assert line[0] == name[0];
    assert line[|line| - 1] == rest[|rest| - 1];
  }

  /** "label —" is clean. */
  lemma BareLineClean(name: string)
    requires ValidLabel(name)
    ensures CleanReportLine(name + [RecordDelimiter])
  {
    var line := name + [RecordDelimiter];
    assert line[|name|] == RecordDelimiter && !IsWhitespace(RecordDelimiter);
    assert line[0] == name[0];
  }

  /** What follows the dash on a line with a count: plain, trimmed and
      starting with a visible character at position j. */
  lemma ValuedTextClean(count: string, suffix: string)
    requires |count| > 0 && AllDigits(count) && ValidSuffix(suffix)
    ensures PlainText(count + suffix) && IsTrimmed(count + suffix) && !IsWhitespace((count + suffix)[0])
  {
    var t := count + suffix;
    DigitsArePlain(count);
    TrimCountText(count, suffix);
    if suffix == [] {
      assert t == count;
    } else {
      PlainTextConcat(count, suffix);
    }
    assert t[0] == count[0];
    DigitIsVisible(count[0]);
  }

  lemma WordTextClean(word: string, count: string, suffix: string)
    requires ValidWord(word) && |count| > 0 && AllDigits(count) && ValidSuffix(suffix)
    ensures var rest := word + [' '] + (count + suffix);
            PlainText(rest) && IsTrimmed(rest) && !IsWhitespace(rest[|word| + 1])
  {
    var tail := count + suffix;
    var rest := word + [' '] + tail;
    ValuedTextClean(count, suffix);
    assert rest[0] == word[0];
    assert rest[|rest| - 1] == tail[|tail| - 1];
    assert rest[|word| + 1] == tail[0];
  }

  lemma CategoryLineClean(name: string, value: Option<nat>, suffix: string)
    requires ValidLabel(name) && ValidSuffix(suffix)
    ensures CleanReportLine(CategoryLine(name, value, suffix))
  {
    match value
    case None =>
      BareLineClean(name);
    case Some(v) =>
      assert CategoryLine(name, value, suffix) == name + Dash + (Decimal(v) + suffix);
      ValuedTextClean(Decimal(v), suffix);
      DashLineClean(name, Decimal(v) + suffix, 0);
  }

  lemma PersonnelLineClean(name: string, word: string, value: Option<nat>, suffix: string)
    requires ValidLabel(name) && ValidWord(word) && ValidSuffix(suffix)
    ensures CleanReportLine(PersonnelLine(name, word, value, suffix))
  {
    match value
    case None =>
      BareLineClean(name);
    case Some(v) =>
      var rest := word + [' '] + (Decimal(v) + suffix);
      assert PersonnelLine(name, word, value, suffix) == name + Dash + rest;
      WordTextClean(word, Decimal(v), suffix);
      DashLineClean(name, rest, |word| + 1);
  }

  /** The text block splits back into its lines. */
  lemma SplitReportText(lines: seq<string>)
    requires |lines| >= 1 && lines[|lines| - 1] != ""
    requires forall k :: 0 <= k < |lines| ==> '\n' !in lines[k]
    ensures Split(ReportText(lines), '\n') == lines
  {
    var parts := lines + [""];
    AppendEmptyAvoids(lines, '\n');
    SplitAllJoin(parts, '\n');
    JoinWithHead(parts, '\n');
    DropFinalEmpty(lines);
  }

  /** Only the empty piece that ReportText appends is dropped by split. */
  lemma DropFinalEmpty(lines: seq<string>)
    requires |lines| >= 1 && lines[|lines| - 1] != ""
    ensures DropTrailingEmpty(lines + [""]) == lines
  {
    assert (lines + [""])[..|lines|] == lines;
  }

  /** The empty piece that ReportText appends holds no character. */
  lemma AppendEmptyAvoids(lines: seq<string>, c: char)
    requires forall k :: 0 <= k < |lines| ==> c !in lines[k]
    ensures forall k :: 0 <= k < |lines + [""]| ==> c !in (lines + [""])[k]
  {
    forall k | 0 <= k < |lines + [""]| ensures c !in (lines + [""])[k] {
      if k < |lines| {
        assert (lines + [""])[k] == lines[k];
      }
    }
  }

  /** The text block holds no markup. */
  lemma ReportTextPlain(lines: seq<string>)
    requires forall k :: 0 <= k < |lines| ==> '<' !in lines[k]
    ensures '<' !in ReportText(lines)
  {
    AppendEmptyAvoids(lines, '<');
    JoinWithAvoids(lines + [""], '\n', '<');
  }

  /** The text block is not blank when its first line is not. */
  lemma ReportTextNotBlank(lines: seq<string>)
    requires |lines| >= 1 && !IsBlank(lines[0])
    ensures !IsBlank(ReportText(lines))
  {
    var parts := lines + [""];
    var text := ReportText(lines);
    JoinWithHead(parts, '\n');
    assert parts[0] == lines[0];
    var j :| 0 <= j < |lines[0]| && !IsWhitespace(lines[0][j]);
    assert text[..|lines[0]|][j] == text[j];
  }

  /** A block of lines removeBlank keeps as they are passes validation,
      has no tags and comes back line for line. */
  lemma CleanLinesOfKept(lines: seq<string>)
    requires |lines| >= 1
    requires forall k :: 0 <= k < |lines| ==> KeptLine(lines[k])
    ensures TagsTerminate(ReportText(lines))
    ensures Validate(Some(ReportText(lines))) == Pass
    ensures CleanLines(ReportText(lines)) == lines
  {
    assert lines[|lines| - 1] != "" by {
      assert !IsBlank(lines[|lines| - 1]);
    }
    SplitReportText(lines);
    ReportTextPlain(lines);
    ReportTextNotBlank(lines);
    KeepNonBlankIdentity(lines);
  }

  /** The lines of a well-formed report survive cleaning and merging
      unchanged. */
  lemma CleanLinesOfReport(lines: seq<string>)
    requires |lines| >= 1
    requires forall k :: 0 <= k < |lines| ==> CleanReportLine(lines[k])
    ensures TagsTerminate(ReportText(lines))
    ensures Validate(Some(ReportText(lines))) == Pass
    ensures CleanLines(ReportText(lines)) == lines
    ensures Merge(lines) == Ok(lines)
  {
    CleanLinesOfKept(lines);
    MergeFromDelimited(lines, 0);
  }

  /** Every line of a well-formed report is clean and yields its count. */
  lemma ReportLineFacts(names: seq<string>, values: seq<Option<nat>>, suffixes: seq<string>, word: string)
    requires |names| == |values| == |suffixes| == FieldCount
    requires forall k :: 0 <= k < FieldCount ==> ValidLabel(names[k]) && ValidSuffix(suffixes[k])
    requires ValidWord(word)
    ensures var lines := ReportLines(names, values, suffixes, word);
            forall k :: 0 <= k < FieldCount ==>
              CleanReportLine(lines[k]) &&
              LineCount(lines[k], k == FieldCount - 1) == Ok(CountText(values[k]))
  {
    var lines := ReportLines(names, values, suffixes, word);
    forall k | 0 <= k < FieldCount
      ensures CleanReportLine(lines[k])
      ensures LineCount(lines[k], k == FieldCount - 1) == Ok(CountText(values[k]))
    {
      if k < FieldCount - 1 {
        CategoryLineClean(names[k], values[k], suffixes[k]);
        CategoryLineCount(names[k], values[k], suffixes[k]);
      } else {
        PersonnelLineClean(names[k], word, values[k], suffixes[k]);
        PersonnelLineCount(names[k], word, values[k], suffixes[k]);
      }
    }
  }

  /** Thirteen lines that each yield a count fill the thirteen slots in
      order. */
  lemma ExtractThirteen(lines: seq<string>, counts: seq<string>)
    requires |lines| == |counts| == FieldCount
    requires forall k :: 0 <= k < FieldCount ==>
               LineCount(lines[k], k == FieldCount - 1) == Ok(counts[k])
    ensures ExtractCounts(lines).Ok?
    ensures forall k :: 0 <= k < FieldCount ==> ExtractCounts(lines).value[k] == Some(counts[k])
  {
    ExtractLoopFits(lines, 0, NoCounts());
    assert LineCount(lines[FieldCount - 1], true).Ok?;
  }

  /** A count string of the report reads back as its value, 0 where the
      count is missing. */
  lemma CountTextParses(value: Option<nat>)
    requires ValueOrZero(value) <= IntMax
    ensures ParseInt(Some(CountText(value))) == Ok(ValueOrZero(value))
  {
    ParseIntDecimal(ValueOrZero(value));
    assert Decimal(0) == "0";
  }

  /** The builder turns the report's count strings into its counts. */
  lemma BuildReport(counts: seq<Option<string>>, values: seq<Option<nat>>)
    requires |counts| == |values| == FieldCount
    requires forall k :: 0 <= k < FieldCount ==>
               counts[k] == Some(CountText(values[k])) && ValueOrZero(values[k]) <= IntMax
    ensures BuildStatistic(counts) == Ok(FromCounts(ReportCounts(values)))
  {
    forall k | 0 <= k < FieldCount
      ensures ParseInt(counts[k]) == Ok(ValueOrZero(values[k]))
    {
      CountTextParses(values[k]);
    }
    FieldsDetermine(BuildStatistic(counts).value, FromCounts(ReportCounts(values)));
  }

  /** parseLosesStatistic reads a well-formed report back: thirteen lines
      "label — count remark" in category order, the last one
      "label — word count remark", a line "label —" without a count giving
      0, yields exactly the counts written. */
  lemma ParseWellFormedReport(names: seq<string>, values: seq<Option<nat>>, suffixes: seq<string>, word: string)
    requires |names| == |values| == |suffixes| == FieldCount
    requires forall k :: 0 <= k < FieldCount ==> ValidLabel(names[k]) && ValidSuffix(suffixes[k])
    requires forall k :: 0 <= k < FieldCount ==> ValueOrZero(values[k]) <= IntMax
    requires ValidWord(word)
    ensures var text := ReportText(ReportLines(names, values, suffixes, word));
            TagsTerminate(text) && ParseSpec(Some(text)) == Ok(FromCounts(ReportCounts(values)))
  {
    var lines := ReportLines(names, values, suffixes, word);
    ReportLineFacts(names, values, suffixes, word);
    CleanLinesOfReport(lines);
    var counts := seq(FieldCount, k requires 0 <= k < FieldCount => CountText(values[k]));
    ExtractThirteen(lines, counts);
    BuildReport(ExtractCounts(lines).value, values);
    ParseOfMerged(ReportText(lines), lines, lines);
  }

  /** A text whose thirteen or more cleaned lines merge without error is
      parsed from the counts of the merged lines. */
  lemma ParseOfMerged(text: string, lines: seq<string>, merged: seq<string>)
    requires TagsTerminate(text) && !IsBlank(text)
    requires CleanLines(text) == lines && |lines| >= FieldCount && Merge(lines) == Ok(merged)
    requires ExtractCounts(merged).Ok?
    ensures ParseSpec(Some(text)) == BuildStatistic(ExtractCounts(merged).value)
  {
  }

  // ---------------------------------------------------------------------
  // Records broken over two lines
  // ---------------------------------------------------------------------

  /** A record as it stands in the text: one line, or a line followed by a
      continuation line. */
  datatype Record = Line(line: string) | Continued(first: string, next: string)

  /** The physical lines of one record. */
  function RecordLines(record: Record): seq<string> {
    match record
    case Line(t) => [t]
    case Continued(a, b) => [a, b]
  }

  /** The physical lines of the records, in order. */
  function Physical(records: seq<Record>): (r: seq<string>)
    ensures |r| >= |records|
  {
    if records == [] then [] else RecordLines(records[0]) + Physical(records[1..])
  }

  /** A record written on one line: the continuation appended to its first
      line. */
  function Joined(record: Record): string {
    match record
    case Line(t) => t
    case Continued(a, b) => a + b
  }

  function JoinedAll(records: seq<Record>): seq<string> {
    seq(|records|, k requires 0 <= k < |records| => Joined(records[k]))
  }

  /** A line removeBlank keeps as it is: trimmed and not blank, with no
      markup and no line break. */
  predicate KeptLine(line: string) {
    IsTrimmed(line) && !IsBlank(line) && '<' !in line && '\n' !in line
  }

  /** A record opens with a clean line that holds the dash; its
      continuation line, if any, is kept as it is and has no dash. */
  predicate WellBroken(record: Record) {
    match record
    case Line(t) => CleanReportLine(t)
    case Continued(a, b) => CleanReportLine(a) && KeptLine(b) && RecordDelimiter !in b
  }

  lemma WellBrokenRest(records: seq<Record>)
    requires records != [] && forall k :: 0 <= k < |records| ==> WellBroken(records[k])
    ensures forall k :: 0 <= k < |records[1..]| ==> WellBroken(records[1..][k])
  {
    forall k | 0 <= k < |records[1..]| ensures WellBroken(records[1..][k]) {
      assert records[1..][k] == records[k + 1];
    }
  }

  /** Every physical line of well-broken records is kept as it is. */
  lemma {:induction false} PhysicalLinesKept(records: seq<Record>)
    requires forall k :: 0 <= k < |records| ==> WellBroken(records[k])
    ensures forall j :: 0 <= j < |Physical(records)| ==> KeptLine(Physical(records)[j])
  {
    if records != [] {
      WellBrokenRest(records);
      PhysicalLinesKept(records[1..]);
      var head, rest := RecordLines(records[0]), Physical(records[1..]);
      assert forall j :: 0 <= j < |head| ==> KeptLine(head[j]);
      forall j | 0 <= j < |Physical(records)| ensures KeptLine(Physical(records)[j]) {
        if j >= |head| {
          assert Physical(records)[j] == rest[j - |head|];
        }
      }
    }
  }

  /** The first physical line of well-broken records holds the dash. */
  lemma PhysicalStartsDelimited(records: seq<Record>)
    requires forall k :: 0 <= k < |records| ==> WellBroken(records[k])
    ensures Physical(records) == [] || RecordDelimiter in Physical(records)[0]
  {
    if records != [] {
      assert Physical(records)[0] == RecordLines(records[0])[0];
    }
  }

  lemma JoinedAllCons(records: seq<Record>)
    requires records != []
    ensures JoinedAll(records) == [Joined(records[0])] + JoinedAll(records[1..])
  {
  }

  /** From index |done| on, the merge glues every continuation line back
      onto the line before it and passes over every other line. */
  lemma {:induction false} MergeFromRecords(done: seq<string>, records: seq<Record>)
    requires forall k :: 0 <= k < |records| ==> WellBroken(records[k])
    ensures MergeFrom(done + Physical(records), |done|) == Ok(done + JoinedAll(records))
    decreases |records|
  {
    if records == [] {
      assert done + Physical(records) == done + JoinedAll(records);
    } else {
      var rest := records[1..];
      var next := done + [Joined(records[0])];
      WellBrokenRest(records);
      MergeFromRecords(next, rest);
      PhysicalStartsDelimited(rest);
      MergeFromRecord(done, records[0], Physical(rest));
      RecordStep(done, records);
    }
  }

  /** The arrays before and after one record is merged, written in the
      shapes the induction above uses. */
  lemma RecordStep(done: seq<string>, records: seq<Record>)
    requires records != []
    ensures done + Physical(records) == done + RecordLines(records[0]) + Physical(records[1..])
    ensures done + [Joined(records[0])] + Physical(records[1..]) ==
              (done + [Joined(records[0])]) + Physical(records[1..])
    ensures (done + [Joined(records[0])]) + JoinedAll(records[1..]) == done + JoinedAll(records)
  {
    JoinedAllCons(records);
  }

  /** One record: its first line is passed over, its continuation line
      glued onto it. */
  lemma MergeFromRecord(done: seq<string>, record: Record, rest: seq<string>)
    requires WellBroken(record) && (rest == [] || RecordDelimiter in rest[0])
    ensures MergeFrom(done + RecordLines(record) + rest, |done|) ==
              MergeFrom(done + [Joined(record)] + rest, |done| + 1)
  {
    var i := |done|;
    match record
    case Line(t) =>
      SlotsAround(done, [t], rest);
      MergeFromPasses(done + [t] + rest, i);
    case Continued(a, b) =>
      var lines := done + [a, b] + rest;
      var glued := done + [a + b] + rest;
      SlotsAround(done, [a, b], rest);
      MergeFromPasses(lines, i);
      GlueAt(done, a, b, rest);
      if rest != [] {
        SlotsAround(done, [a + b], rest);
        MergeFromPasses(glued, i + 1);
      }
  }

  /** The loop passes over a line with the dash. */
  lemma MergeFromPasses(lines: seq<string>, i: nat)
    requires i < |lines| && RecordDelimiter in lines[i]
    ensures MergeFrom(lines, i) == MergeFrom(lines, i + 1)
  {
  }

  /** The lines of a record in the middle of the array, and the one after
      it; sequence arithmetic in a small context of its own. */
  lemma SlotsAround(done: seq<string>, mid: seq<string>, rest: seq<string>)
    ensures forall k :: 0 <= k < |mid| ==> (done + mid + rest)[|done| + k] == mid[k]
    ensures rest != [] ==> (done + mid + rest)[|done| + |mid|] == rest[0]
  {
  }

  /** Gluing the second line of a two-line record onto its first. */
  lemma GlueAt(done: seq<string>, a: string, b: string, rest: seq<string>)
    ensures Glue(done + [a, b] + rest, |done| + 1) == done + [a + b] + rest
  {
    var lines := done + [a, b] + rest;
    assert lines[..|done|] == done && lines[|done| + 2..] == rest;
  }

  /** standardizeStatisticRecords turns the physical lines back into the
      records, one line each. */
  lemma MergeRecords(records: seq<Record>)
    requires forall k :: 0 <= k < |records| ==> WellBroken(records[k])
    ensures Merge(Physical(records)) == Ok(JoinedAll(records))
  {
    MergeFromRecords([], records);
    assert [] + Physical(records) == Physical(records);
    assert [] + JoinedAll(records) == JoinedAll(records);
  }

  /** parseLosesStatistic reads thirteen records, some of them broken over
      two lines, as the counts their joined lines yield. */
  lemma ParseRecords(records: seq<Record>, values: seq<Option<nat>>)
    requires |records| == |values| == FieldCount
    requires forall k :: 0 <= k < FieldCount ==> WellBroken(records[k])
    requires forall k :: 0 <= k < FieldCount ==>
               LineCount(Joined(records[k]), k == FieldCount - 1) == Ok(CountText(values[k]))
    requires forall k :: 0 <= k < FieldCount ==> ValueOrZero(values[k]) <= IntMax
    ensures var text := ReportText(Physical(records));
            TagsTerminate(text) && ParseSpec(Some(text)) == Ok(FromCounts(ReportCounts(values)))
  {
    PhysicalLinesKept(records);
    CleanLinesOfKept(Physical(records));
    ParseRecordsIn(ReportText(Physical(records)), records, values);
  }

  /** Any text whose cleaned lines are the physical lines of thirteen
      records is read as the counts the records yield. */
  lemma ParseRecordsIn(text: string, records: seq<Record>, values: seq<Option<nat>>)
    requires TagsTerminate(text) && !IsBlank(text) && CleanLines(text) == Physical(records)
    requires |records| == |values| == FieldCount
    requires forall k :: 0 <= k < FieldCount ==> WellBroken(records[k])
    requires forall k :: 0 <= k < FieldCount ==>
               LineCount(Joined(records[k]), k == FieldCount - 1) == Ok(CountText(values[k]))
    requires forall k :: 0 <= k < FieldCount ==> ValueOrZero(values[k]) <= IntMax
    ensures ParseSpec(Some(text)) == Ok(FromCounts(ReportCounts(values)))
  {
    MergeRecords(records);
    ReadRecords(records, values);
    ParseOfMerged(text, Physical(records), JoinedAll(records));
  }

  /** The joined records fill the thirteen slots with their counts, and
      the builder turns these into the values. */
  lemma ReadRecords(records: seq<Record>, values: seq<Option<nat>>)
    requires |records| == |values| == FieldCount
    requires forall k :: 0 <= k < FieldCount ==>
               LineCount(Joined(records[k]), k == FieldCount - 1) == Ok(CountText(values[k]))
    requires forall k :: 0 <= k < FieldCount ==> ValueOrZero(values[k]) <= IntMax
    ensures ExtractCounts(JoinedAll(records)).Ok?
    ensures BuildStatistic(ExtractCounts(JoinedAll(records)).value) == Ok(FromCounts(ReportCounts(values)))
  {
    var merged := JoinedAll(records);
    var counts := seq(FieldCount, k requires 0 <= k < FieldCount => CountText(values[k]));
    ExtractThirteen(merged, counts);
    BuildReport(ExtractCounts(merged).value, values);
  }

  /** Splitting "label —rest" on the dash gives "label " and "rest". */
  lemma GluedSplit(name: string, rest: string)
    requires RecordDelimiter !in name && RecordDelimiter !in rest && rest != []
    ensures Split(name + [RecordDelimiter] + rest, RecordDelimiter) == [name, rest]
  {
    SplitAllCons(name, rest, RecordDelimiter);
    SplitAllNone(rest, RecordDelimiter);
    assert (name + [RecordDelimiter] + rest)[|name|] == RecordDelimiter;
  }

  /** A category line broken right after its dash reads, once glued back
      without a space, "label —count remark", and still yields its count. */
  lemma GluedLineCount(name: string, count: string, suffix: string)
    requires ValidLabel(name) && |count| > 0 && AllDigits(count) && ValidSuffix(suffix)
    ensures LineCount(name + [RecordDelimiter] + (count + suffix), false) == Ok(count)
  {
    ValuedTextClean(count, suffix);
    GluedSplit(name, count + suffix);
    TrimOfTrimmed(count + suffix);
    CountIsFirstToken(count, suffix);
  }

  /** A remark standing on a line of its own, such as "(+510)". */
  predicate ValidRemark(remark: string) {
    IsTrimmed(remark) && !IsBlank(remark) && PlainText(remark)
  }

  /** A report laid out over more lines: category line k is broken after
      its dash where breaks[k] holds and it has a count, and a non-empty
      remark follows the personnel line on a line of its own. */
  function BrokenReport(names: seq<string>, values: seq<Option<nat>>, suffixes: seq<string>,
                        word: string, breaks: seq<bool>, remark: string): (r: seq<Record>)
    requires |names| == |values| == |suffixes| == FieldCount && |breaks| == FieldCount - 1
    ensures |r| == FieldCount
  {
    seq(FieldCount, k requires 0 <= k < FieldCount =>
      if k < FieldCount - 1 then
        if breaks[k] && values[k].Some? then
          Continued(names[k] + [RecordDelimiter], Decimal(values[k].value) + suffixes[k])
        else
          Line(CategoryLine(names[k], values[k], suffixes[k]))
      else if remark == [] then
        Line(PersonnelLine(names[k], word, values[k], suffixes[k]))
      else
        Continued(PersonnelLine(names[k], word, values[k], suffixes[k]), remark))
  }

  /** A category line broken after its dash is a well-broken record that
      yields its count. */
  lemma BrokenCategoryRecord(name: string, v: nat, suffix: string)
    requires ValidLabel(name) && ValidSuffix(suffix)
    ensures var record := Continued(name + [RecordDelimiter], Decimal(v) + suffix);
            WellBroken(record) && LineCount(Joined(record), false) == Ok(Decimal(v))
  {
    var next := Decimal(v) + suffix;
    BareLineClean(name);
    ValuedTextClean(Decimal(v), suffix);
    assert !IsBlank(next) by {
      assert !IsWhitespace(next[0]);
    }
    GluedLineCount(name, Decimal(v), suffix);
  }

  /** The personnel line followed by its remark is a well-broken record
      that yields the personnel count. */
  lemma RemarkRecord(name: string, word: string, v: nat, suffix: string, remark: string)
    requires ValidLabel(name) && ValidWord(word) && ValidSuffix(suffix) && suffix != []
    requires ValidRemark(remark)
    ensures var record := Continued(PersonnelLine(name, word, Some(v), suffix), remark);
            WellBroken(record) && LineCount(Joined(record), true) == Ok(Decimal(v))
  {
    PersonnelLineClean(name, word, Some(v), suffix);
    assert remark != [];
    assert ValidSuffix(suffix + remark) by {
      assert (suffix + remark)[0] == suffix[0];
      assert (suffix + remark)[|suffix + remark| - 1] == remark[|remark| - 1];
      PlainTextConcat(suffix, remark);
    }
    assert PersonnelLine(name, word, Some(v), suffix) + remark ==
             PersonnelLine(name, word, Some(v), suffix + remark);
    PersonnelLineCount(name, word, Some(v), suffix + remark);
  }

  /** Every record of a broken report is well broken and yields the count
      written in it. */
  lemma BrokenReportFacts(names: seq<string>, values: seq<Option<nat>>, suffixes: seq<string>,
                          word: string, breaks: seq<bool>, remark: string)
    requires |names| == |values| == |suffixes| == FieldCount && |breaks| == FieldCount - 1
    requires forall k :: 0 <= k < FieldCount ==> ValidLabel(names[k]) && ValidSuffix(suffixes[k])
    requires ValidWord(word)
    requires remark != [] ==>
               values[FieldCount - 1].Some? && suffixes[FieldCount - 1] != [] && ValidRemark(remark)
    ensures var records := BrokenReport(names, values, suffixes, word, breaks, remark);
            forall k :: 0 <= k < FieldCount ==>
              WellBroken(records[k]) &&
              LineCount(Joined(records[k]), k == FieldCount - 1) == Ok(CountText(values[k]))
  {
    var records := BrokenReport(names, values, suffixes, word, breaks, remark);
    forall k | 0 <= k < FieldCount
      ensures WellBroken(records[k])
      ensures LineCount(Joined(records[k]), k == FieldCount - 1) == Ok(CountText(values[k]))
    {
      if k < FieldCount - 1 {
        if breaks[k] && values[k].Some? {
          BrokenCategoryRecord(names[k], values[k].value, suffixes[k]);
        } else {
          CategoryLineClean(names[k], values[k], suffixes[k]);
          CategoryLineCount(names[k], values[k], suffixes[k]);
        }
      } else if remark == [] {
        PersonnelLineClean(names[k], word, values[k], suffixes[k]);
        PersonnelLineCount(names[k], word, values[k], suffixes[k]);
      } else {
        RemarkRecord(names[k], word, values[k].value, suffixes[k], remark);
      }
    }
  }

  /** parseLosesStatistic reads a report whose records are broken over
      two lines back as the counts written, as if each record stood on one
      line. */
  lemma ParseBrokenReport(names: seq<string>, values: seq<Option<nat>>, suffixes: seq<string>,
                          word: string, breaks: seq<bool>, remark: string)
    requires |names| == |values| == |suffixes| == FieldCount && |breaks| == FieldCount - 1
    requires forall k :: 0 <= k < FieldCount ==> ValidLabel(names[k]) && ValidSuffix(suffixes[k])
    requires forall k :: 0 <= k < FieldCount ==> ValueOrZero(values[k]) <= IntMax
    requires ValidWord(word)
    requires remark != [] ==>
               values[FieldCount - 1].Some? && suffixes[FieldCount - 1] != [] && ValidRemark(remark)
    ensures var text := ReportText(Physical(BrokenReport(names, values, suffixes, word, breaks, remark)));
            TagsTerminate(text) && ParseSpec(Some(text)) == Ok(FromCounts(ReportCounts(values)))
  {
    BrokenReportFacts(names, values, suffixes, word, breaks, remark);
    ParseRecords(BrokenReport(names, values, suffixes, word, breaks, remark), values);
  }

  // ---------------------------------------------------------------------
  // Page layout
  // ---------------------------------------------------------------------

  /** A line of the page: a blank spacer, such as what is left of a line
      that held only tags, or a report line indented by spaces. */
  datatype PageLine = Spacer(blank: string) | Indented(indent: nat, text: string)

  function Spaces(n: nat): (r: string)
    ensures |r| == n && forall k :: 0 <= k < n ==> r[k] == ' '
  {
    if n == 0 then "" else " " + Spaces(n - 1)
  }

  function PageLineText(line: PageLine): string {
    match line
    case Spacer(b) => b
    case Indented(n, t) => Spaces(n) + t
  }

  function PageLines(layout: seq<PageLine>): seq<string> {
    seq(|layout|, k requires 0 <= k < |layout| => PageLineText(layout[k]))
  }

  /** The report lines the page holds, in order. */
  function Contents(layout: seq<PageLine>): seq<string> {
    if layout == [] then []
    else
      match layout[0]
      case Spacer(_) => Contents(layout[1..])
      case Indented(_, t) => [t] + Contents(layout[1..])
  }

  /** A spacer is blank; an indented line is kept as it is once trimmed;
      neither holds markup or a line break. */
  predicate WellLaidOut(line: PageLine) {
    match line
    case Spacer(b) => IsBlank(b) && '<' !in b && '\n' !in b
    case Indented(_, t) => KeptLine(t)
  }

  /** trim removes the indentation. */
  lemma TrimIndented(n: nat, t: string)
    requires IsTrimmed(t)
    ensures Trim(Spaces(n) + t) == t
  {
    TrimStartIndented(n, t);
    TrimOfTrimmed(t);
  }

  /** The leading half of trim alone takes the indentation off. */
  lemma {:induction false} TrimStartIndented(n: nat, t: string)
    requires t == [] || t[0] > ' '
    ensures TrimStart(Spaces(n) + t) == t
  {
    if n == 0 {
      assert Spaces(0) + t == t;
    } else {
      SpacesShift(n, t);
      TrimStartIndented(n - 1, t);
    }
  }

  /** Sequence arithmetic in a small context of its own, to keep the
      solver's search short: the first space comes off the indentation. */
  lemma SpacesShift(n: nat, t: string)
    requires n > 0
    ensures var s := Spaces(n) + t; |s| > 0 && s[0] == ' ' && s[1..] == Spaces(n - 1) + t
  {
    assert Spaces(n) == " " + Spaces(n - 1);
  }

  /** An indented line with a visible character is not blank. */
  lemma IndentedNotBlank(n: nat, t: string)
    requires !IsBlank(t)
    ensures !IsBlank(Spaces(n) + t)
  {
    var k :| 0 <= k < |t| && !IsWhitespace(t[k]);
    assert (Spaces(n) + t)[n + k] == t[k];
  }

  lemma WellLaidOutRest(layout: seq<PageLine>)
    requires layout != [] && forall k :: 0 <= k < |layout| ==> WellLaidOut(layout[k])
    ensures forall k :: 0 <= k < |layout[1..]| ==> WellLaidOut(layout[1..][k])
  {
    forall k | 0 <= k < |layout[1..]| ensures WellLaidOut(layout[1..][k]) {
      assert layout[1..][k] == layout[k + 1];
    }
  }

  /** One page line through removeBlank: a spacer is dropped, an indented
      line comes out as its text. */
  lemma KeepPageLine(line: PageLine)
    requires WellLaidOut(line)
    ensures KeepNonBlank([PageLineText(line)]) ==
              match line
              case Spacer(_) => []
              case Indented(_, t) => [t]
  {
    assert [PageLineText(line)][..0] == [];
    match line
    case Spacer(b) =>
    case Indented(n, t) =>
      IndentedNotBlank(n, t);
      TrimIndented(n, t);
  }

  /** removeBlank turns the page's lines into the report lines it holds. */
  lemma {:induction false} KeepNonBlankLayout(layout: seq<PageLine>)
    requires forall k :: 0 <= k < |layout| ==> WellLaidOut(layout[k])
    ensures KeepNonBlank(PageLines(layout)) == Contents(layout)
  {
    if layout != [] {
      var head := PageLineText(layout[0]);
      assert PageLines(layout) == [head] + PageLines(layout[1..]);
      KeepNonBlankAppend([head], PageLines(layout[1..]));
      WellLaidOutRest(layout);
      KeepNonBlankLayout(layout[1..]);
      KeepPageLine(layout[0]);
    }
  }

  /** Some page line holds a report line when the page holds any. */
  lemma {:induction false} ContentsFrom(layout: seq<PageLine>)
    requires Contents(layout) != []
    ensures exists k :: 0 <= k < |layout| && layout[k].Indented?
  {
    if !layout[0].Indented? {
      ContentsFrom(layout[1..]);
      var k :| 0 <= k < |layout[1..]| && layout[1..][k].Indented?;
      assert layout[k + 1] == layout[1..][k];
    }
  }

  /** A laid-out page with a report line in it passes validation, has no
      tags, and its cleaned lines are its report lines. */
  lemma CleanLinesOfLayout(layout: seq<PageLine>)
    requires |layout| >= 1 && PageLineText(layout[|layout| - 1]) != ""
    requires forall k :: 0 <= k < |layout| ==> WellLaidOut(layout[k])
    requires Contents(layout) != []
    ensures TagsTerminate(ReportText(PageLines(layout)))
    ensures !IsBlank(ReportText(PageLines(layout)))
    ensures CleanLines(ReportText(PageLines(layout))) == Contents(layout)
  {
    var lines := PageLines(layout);
    PageLinesPlain(layout);
    SplitReportText(lines);
    ReportTextPlain(lines);
    KeepNonBlankLayout(layout);
    LayoutNotBlank(layout);
  }

  /** The page text holds the visible character of some report line. */
  lemma LayoutNotBlank(layout: seq<PageLine>)
    requires forall k :: 0 <= k < |layout| ==> WellLaidOut(layout[k])
    requires Contents(layout) != []
    ensures !IsBlank(ReportText(PageLines(layout)))
  {
    var lines := PageLines(layout);
    ContentsFrom(layout);
    var k :| 0 <= k < |layout| && layout[k].Indented?;
    var c := IndentedVisible(layout[k]);
    PageLineAt(layout, k);
    JoinWithKeeps(lines + [""], '\n', k, c);
    HoldsVisible(ReportText(lines), c);
  }

  /** Sequence arithmetic in a small context of its own, to keep the
      solver's search short: line k of the page text. */
  lemma PageLineAt(layout: seq<PageLine>, k: nat)
    requires k < |layout|
    ensures k < |PageLines(layout) + [""]| && (PageLines(layout) + [""])[k] == PageLineText(layout[k])
  {
  }

  /** A character of an indented line that is not whitespace. */
  lemma IndentedVisible(line: PageLine) returns (c: char)
    requires line.Indented? && WellLaidOut(line)
    ensures c in PageLineText(line) && !IsWhitespace(c)
  {
    var n, t := line.indent, line.text;
    var j :| 0 <= j < |t| && !IsWhitespace(t[j]);
    c := t[j];
    assert (Spaces(n) + t)[n + j] == c;
  }

  /** A string holding a character that is not whitespace is not blank. */
  lemma HoldsVisible(s: string, c: char)
    requires c in s && !IsWhitespace(c)
    ensures !IsBlank(s)
  {
    var j :| 0 <= j < |s| && s[j] == c;
  }

  /** No page line holds markup or a line break, and the last one is the
      last line of the layout. */
  lemma PageLinesPlain(layout: seq<PageLine>)
    requires |layout| >= 1
    requires forall k :: 0 <= k < |layout| ==> WellLaidOut(layout[k])
    ensures var lines := PageLines(layout);
            |lines| == |layout| && lines[|lines| - 1] == PageLineText(layout[|layout| - 1])
    ensures forall k :: 0 <= k < |PageLines(layout)| ==>
              '<' !in PageLines(layout)[k] && '\n' !in PageLines(layout)[k]
  {
    forall k | 0 <= k < |layout|
      ensures '<' !in PageLines(layout)[k] && '\n' !in PageLines(layout)[k]
    {
      match layout[k]
      case Spacer(b) =>
      case Indented(n, t) =>
        assert ' ' != '<' && ' ' != '\n';
    }
  }

  /** parseLosesStatistic reads a report laid out on a page, with
      indentation, blank lines between its lines and records broken over
      two lines, as the counts written. */
  lemma ParseLaidOutReport(layout: seq<PageLine>, names: seq<string>, values: seq<Option<nat>>,
                           suffixes: seq<string>, word: string, breaks: seq<bool>, remark: string)
    requires |names| == |values| == |suffixes| == FieldCount && |breaks| == FieldCount - 1
    requires forall k :: 0 <= k < FieldCount ==> ValidLabel(names[k]) && ValidSuffix(suffixes[k])
    requires forall k :: 0 <= k < FieldCount ==> ValueOrZero(values[k]) <= IntMax
    requires ValidWord(word)
    requires remark != [] ==>
               values[FieldCount - 1].Some? && suffixes[FieldCount - 1] != [] && ValidRemark(remark)
    requires |layout| >= 1 && PageLineText(layout[|layout| - 1]) != ""
    requires forall k :: 0 <= k < |layout| ==> WellLaidOut(layout[k])
    requires Contents(layout) == Physical(BrokenReport(names, values, suffixes, word, breaks, remark))
    ensures var text := ReportText(PageLines(layout));
            TagsTerminate(text) && ParseSpec(Some(text)) == Ok(FromCounts(ReportCounts(values)))
  {
    var records := BrokenReport(names, values, suffixes, word, breaks, remark);
    CleanLinesOfLayout(layout);
    BrokenReportFacts(names, values, suffixes, word, breaks, remark);
    ParseRecordsIn(ReportText(PageLines(layout)), records, values);
  }

  // ---------------------------------------------------------------------
  // Texts that do not fit the format
  // ---------------------------------------------------------------------

  /** A text of one line, like "some long text without statistic data",
      gives the empty record. */
  lemma ParseSingleLine(text: string)
    requires '<' !in text && '\n' !in text && !IsBlank(text)
    ensures TagsTerminate(text) && ParseSpec(Some(text)) == Ok(Empty())
  {
    assert |CleanLines(text)| <= 1;
  }

  /** The text of the test that expects the empty record for a text
      without statistic. */
  const TextWithoutStatistic: string := "some long text without statistic data"

  lemma ParseTextWithoutStatistic()
    ensures TagsTerminate(TextWithoutStatistic) && ParseSpec(Some(TextWithoutStatistic)) == Ok(Empty())
  {
    NoMarkupWithoutStatistic();
    NoBreakWithoutStatistic();
    assert !IsWhitespace(TextWithoutStatistic[0]);
    ParseSingleLine(TextWithoutStatistic);
  }

  lemma NoMarkupWithoutStatistic()
    ensures '<' !in TextWithoutStatistic
  {
  }

  lemma NoBreakWithoutStatistic()
    ensures '\n' !in TextWithoutStatistic
  {
  }

  /** Thirteen or more lines whose first one lacks the dash throw: the
      merge would write to index -1. */
  lemma ParseFirstLineWithoutDash(text: string)
    requires TagsTerminate(text) && !IsBlank(text)
    requires |CleanLines(text)| >= FieldCount && RecordDelimiter !in CleanLines(text)[0]
    ensures ParseSpec(Some(text)) == Err(ArrayIndexOutOfBoundsException)
  {
  }

  /** Once merged, more than thirteen lines throw, at most thirteen lines
      throw when the last one lacks its second token, and otherwise slot k
      holds line k's count, the missing slots none. */
  lemma ParseOfMergedLines(text: string)
    requires TagsTerminate(text) && !IsBlank(text)
    requires |CleanLines(text)| >= FieldCount && Merge(CleanLines(text)).Ok?
    ensures var merged := Merge(CleanLines(text)).value;
            |merged| > FieldCount ==> ParseSpec(Some(text)) == Err(ArrayIndexOutOfBoundsException)
    ensures var merged := Merge(CleanLines(text)).value;
            0 < |merged| <= FieldCount && LineCount(merged[|merged| - 1], true).Err? ==>
              ParseSpec(Some(text)) == Err(ArrayIndexOutOfBoundsException)
    ensures var merged := Merge(CleanLines(text)).value;
            |merged| <= FieldCount && (merged == [] || LineCount(merged[|merged| - 1], true).Ok?) ==>
              ParseSpec(Some(text)) == BuildStatistic(SlotCounts(merged))
  {
    var merged := Merge(CleanLines(text)).value;
    if |merged| > FieldCount {
      ExtractLoopOverflows(merged, 0, NoCounts());
    } else {
      ExtractLoopFits(merged, 0, NoCounts());
      if merged == [] || LineCount(merged[|merged| - 1], true).Ok? {
        assert ExtractCounts(merged).value == SlotCounts(merged);
      }
    }
  }

  /** The thirteen slots filled from at most thirteen lines. */
  function SlotCounts(lines: seq<string>): (r: seq<Option<string>>)
    requires |lines| <= FieldCount
    ensures |r| == FieldCount
    ensures forall k :: 0 <= k < |lines| ==> r[k] == SlotCount(lines, k)
    ensures forall k :: |lines| <= k < FieldCount ==> r[k] == None
  {
    seq(FieldCount, k requires 0 <= k < FieldCount =>
      if k < |lines| then SlotCount(lines, k) else None)
  }

  /** Fewer than thirteen lines after merging always throw: the personnel
      slot stays null, and parseInt(null) throws if nothing fails before. */
  lemma ParseMissingLines(text: string)
    requires TagsTerminate(text) && !IsBlank(text)
    requires |CleanLines(text)| >= FieldCount && Merge(CleanLines(text)).Ok?
    requires |Merge(CleanLines(text)).value| < FieldCount
    ensures ParseSpec(Some(text)).Err?
    ensures ParseSpec(Some(text)).error == ArrayIndexOutOfBoundsException
              || ParseSpec(Some(text)).error == NumberFormatException
  {
    var merged := Merge(CleanLines(text)).value;
    ParseOfMergedLines(text);
    if merged == [] || LineCount(merged[|merged| - 1], true).Ok? {
      BuildWithoutPersonnel(SlotCounts(merged));
    }
  }

  /** An empty personnel slot makes the builder chain throw. */
  lemma BuildWithoutPersonnel(counts: seq<Option<string>>)
    requires |counts| == FieldCount && counts[FieldCount - 1] == None
    ensures BuildStatistic(counts) == Err(NumberFormatException)
  {
    assert ParseInt(counts[FieldCount - 1]).Err?;
  }

  // ---------------------------------------------------------------------
  // Markup
  // ---------------------------------------------------------------------

  /** Stripping tags adds no character. */
  lemma {:induction false} StripTagsKeepsChars(s: string, c: char)
    requires TagsTerminate(s) && c in StripTags(s)
    ensures c in s
    decreases |s|
  {
    if '<' in s {
      StripStepDeletesTag(s);
      StripTagsKeepsChars(StripStep(s), c);
      var i, j := IndexOf(s, '<'), IndexOf(s, '>');
      if c in s[..i] {
        var k :| 0 <= k < i && s[..i][k] == c;
        assert s[k] == c;
      } else {
        var k :| 0 <= k < |s[j + 1..]| && s[j + 1..][k] == c;
        assert s[j + 1 + k] == c;
      }
    }
  }

  /** A text that still holds a visible character once its tags are gone
      parses as its text without tags: the markup of a web page changes
      nothing. */
  lemma ParseIgnoresMarkup(text: string)
    requires TagsTerminate(text) && !IsBlank(StripTags(text))
    ensures TagsTerminate(StripTags(text))
    ensures ParseSpec(Some(text)) == ParseSpec(Some(StripTags(text)))
  {
    StrippedNotBlank(text);
    assert CleanLines(StripTags(text)) == CleanLines(text);
  }

  /** A visible character left after stripping was in the text. */
  lemma StrippedNotBlank(text: string)
    requires TagsTerminate(text) && !IsBlank(StripTags(text))
    ensures !IsBlank(text)
  {
    var plain := StripTags(text);
    var k :| 0 <= k < |plain| && !IsWhitespace(plain[k]);
    StripTagsKeepsChars(text, plain[k]);
    var m :| 0 <= m < |text| && text[m] == plain[k];
  }

  /** One piece of a marked-up page: text, or a tag written `<name>`. */
  datatype Markup = Text(text: string) | Tag(name: string)

  /** The page as written. */
  function Render(page: seq<Markup>): string {
    if page == [] then ""
    else
      match page[0]
      case Text(s) => s + Render(page[1..])
      case Tag(t) => "<" + t + ">" + Render(page[1..])
  }

  /** The page with every tag taken out. */
  function Visible(page: seq<Markup>): string {
    if page == [] then ""
    else
      match page[0]
      case Text(s) => s + Visible(page[1..])
      case Tag(_) => Visible(page[1..])
  }

  /** No text piece and no tag name holds an angle bracket of its own. */
  predicate WellFormedMarkup(page: seq<Markup>) {
    forall k :: 0 <= k < |page| ==>
      match page[k]
      case Text(s) => '<' !in s && '>' !in s
      case Tag(t) => '<' !in t && '>' !in t
  }

  /** A pass removes a tag that follows text without angle brackets. */
  lemma StripStepAt(p: string, t: string, s: string)
    requires '<' !in p && '>' !in p && '>' !in t
    ensures var x := p + "<" + t + ">" + s;
            '<' in x && TagClosed(x) && StripStep(x) == p + s
  {
    var x := p + "<" + t + ">" + s;
    var j := |p| + 1 + |t|;
    assert x[..|p|] == p && x[|p|] == '<';
    IndexOfFirst(x, '<', |p|);
    assert x[..j] == p + "<" + t && x[j] == '>';
    IndexOfFirst(x, '>', j);
    assert x[j + 1..] == s;
  }

  /** Text without angle brackets in front of a string passes through the
      loop untouched. */
  lemma {:induction false} StripTagsPrefix(q: string, x: string)
    requires '<' !in q && '>' !in q && TagsTerminate(x)
    ensures TagsTerminate(q + x) && StripTags(q + x) == q + StripTags(x)
    decreases |x|
  {
    if '<' in x {
      StripStepDeletesTag(x);
      StripStepPrefix(q, x);
      StripTagsPrefix(q, StripStep(x));
    } else {
      assert '<' !in q + x;
    }
  }

  /** A pass over such a string removes the same tag as a pass over the
      string alone. */
  lemma StripStepPrefix(q: string, x: string)
    requires '<' !in q && '>' !in q && '<' in x && TagClosed(x)
    ensures '<' in q + x && TagClosed(q + x) && StripStep(q + x) == q + StripStep(x)
  {
    TagClosedPrefix(q, x);
    StripStepShift(q, x, IndexOf(x, '<'), IndexOf(x, '>'));
  }

  /** A pass over q + x cuts at the positions it cuts x at, shifted. */
  lemma StripStepShift(q: string, x: string, i: nat, j: nat)
    requires '<' in x && '<' in q + x && i <= j < |x|
    requires i == IndexOf(x, '<') && j == IndexOf(x, '>')
    requires IndexOf(q + x, '<') == |q| + i && IndexOf(q + x, '>') == |q| + j
    ensures StripStep(q + x) == q + StripStep(x)
  {
    StripStepCuts(x, i, j);
    StripStepCuts(q + x, |q| + i, |q| + j);
    PrefixCuts(q, x, i, j);
  }

  /** The first tag of q + x is the first tag of x, shifted by |q|. */
  lemma TagClosedPrefix(q: string, x: string)
    requires '<' !in q && '>' !in q && '<' in x && TagClosed(x)
    ensures '<' in q + x && TagClosed(q + x)
    ensures IndexOf(q + x, '<') == |q| + IndexOf(x, '<')
    ensures IndexOf(q + x, '>') == |q| + IndexOf(x, '>')
  {
    IndexOfAfter(q, x, '<');
    IndexOfAfter(q, x, '>');
  }

  /** A pass, written with the positions of the first '<' and '>'. */
  lemma StripStepCuts(s: string, i: int, j: int)
    requires '<' in s && i == IndexOf(s, '<') && j == IndexOf(s, '>')
    ensures StripStep(s) == s[..i] + s[j + 1..]
  {
  }

  /** Cutting q + x around positions inside x; sequence arithmetic kept in
      a small context of its own so the solver's search stays short. */
  lemma PrefixCuts(q: string, x: string, i: nat, j: nat)
    requires i <= j < |x|
    ensures (q + x)[..|q| + i] + (q + x)[|q| + j + 1..] == q + (x[..i] + x[j + 1..])
  {
    assert (q + x)[..|q| + i] == q + x[..i];
    assert (q + x)[|q| + j + 1..] == x[j + 1..];
  }

  /** A character absent from q is found in q + x where it is found in x,
      shifted by |q|. */
  lemma IndexOfAfter(q: string, x: string, c: char)
    requires c !in q && c in x
    ensures IndexOf(q + x, c) == |q| + IndexOf(x, c)
  {
    var i := IndexOf(x, c);
    assert (q + x)[..|q| + i] == q + x[..i] && (q + x)[|q| + i] == c;
    IndexOfFirst(q + x, c, |q| + i);
  }

  /** A leading tag is dropped and the rest goes on through the loop. */
  lemma StripLeadingTag(t: string, s: string)
    requires '<' !in t && '>' !in t && TagsTerminate(s)
    ensures TagsTerminate("<" + t + ">" + s)
    ensures StripTags("<" + t + ">" + s) == StripTags(s)
  {
    StripStepAt("", t, s);
    assert "" + "<" + t + ">" + s == "<" + t + ">" + s;
    assert "" + s == s;
  }

  /** Stripping tags from a well-formed page leaves exactly its text. */
  lemma {:induction false} StripMarkup(page: seq<Markup>)
    requires WellFormedMarkup(page)
    ensures TagsTerminate(Render(page)) && StripTags(Render(page)) == Visible(page)
  {
    if page != [] {
      assert WellFormedMarkup(page[1..]) by {
        forall k | 0 <= k < |page[1..]|
          ensures match page[1..][k]
                  case Text(s) => '<' !in s && '>' !in s
                  case Tag(t) => '<' !in t && '>' !in t
        {
          assert page[1..][k] == page[k + 1];
        }
      }
      StripMarkup(page[1..]);
      assert 0 < |page|;
      match page[0]
      case Text(s) => StripTagsPrefix(s, Render(page[1..]));
      case Tag(t) => StripLeadingTag(t, Render(page[1..]));
    }
  }

  /** A well-formed page whose text holds a visible character parses as its
      text alone. */
  lemma ParseMarkup(page: seq<Markup>)
    requires WellFormedMarkup(page) && !IsBlank(Visible(page))
    ensures TagsTerminate(Render(page)) && StripTags(Render(page)) == Visible(page)
    ensures ParseSpec(Some(Render(page))) == ParseSpec(Some(Visible(page)))
  {
    StripMarkup(page);
    ParseIgnoresMarkup(Render(page));
  }

  /** parseLosesStatistic reads a web page carrying the report back as the
      counts written: its lines wrapped in tags, tags inside them, the
      indentation and the blank lines the markup leaves, a category line
      broken after its dash and a remark on a line of its own. */
  lemma ParseReportPage(page: seq<Markup>, layout: seq<PageLine>, names: seq<string>,
                        values: seq<Option<nat>>, suffixes: seq<string>, word: string,
                        breaks: seq<bool>, remark: string)
    requires |names| == |values| == |suffixes| == FieldCount && |breaks| == FieldCount - 1
    requires forall k :: 0 <= k < FieldCount ==> ValidLabel(names[k]) && ValidSuffix(suffixes[k])
    requires forall k :: 0 <= k < FieldCount ==> ValueOrZero(values[k]) <= IntMax
    requires ValidWord(word)
    requires remark != [] ==>
               values[FieldCount - 1].Some? && suffixes[FieldCount - 1] != [] && ValidRemark(remark)
    requires |layout| >= 1 && PageLineText(layout[|layout| - 1]) != ""
    requires forall k :: 0 <= k < |layout| ==> WellLaidOut(layout[k])
    requires Contents(layout) == Physical(BrokenReport(names, values, suffixes, word, breaks, remark))
    requires WellFormedMarkup(page) && Visible(page) == ReportText(PageLines(layout))
    ensures TagsTerminate(Render(page))
    ensures ParseSpec(Some(Render(page))) == Ok(FromCounts(ReportCounts(values)))
  {
    ParseLaidOutReport(layout, names, values, suffixes, word, breaks, remark);
    ParseMarkup(page);
  }
}
