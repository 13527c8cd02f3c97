/** LosesInWarParser: the parse pipeline as the Java code runs it, loop by
    loop, each method proved to compute its function in ParserSpec. */
module LosesInWarParser {
  import opened Wrappers
  import opened JavaLang
  import opened Statistic
  import opened StatisticValidator
  import opened ParserSpec

  /** normaliseInput: cut the span from the first '<' through the first '>'
      while a '<' is left. */
  method NormaliseInput(input: string) returns (r: string)
    requires TagsTerminate(input)
    ensures r == StripTags(input)
    ensures '<' !in r
    ensures '<' !in input ==> r == input
  {
    r := input;
    while '<' in r
      invariant TagsTerminate(r)
      invariant StripTags(r) == StripTags(input)
      decreases |r|
    {
      var startTagIndex := IndexOf(r, '<');
      var finishTagIndex := IndexOf(r, '>');
      r := r[..startTagIndex] + r[finishTagIndex + 1..];
    }
  }

  /** removeBlank: collect the trimmed non-blank lines in a list, then copy
      the list into a new array. */
  method RemoveBlank(split: seq<string>) returns (r: array<string>)
    ensures fresh(r)
    ensures r[..] == KeepNonBlank(split)
  {
    var withoutBlank: seq<string> := [];
    for k := 0 to |split|
      invariant withoutBlank == KeepNonBlank(split[..k])
    {
      var s := split[k];
      assert split[..k + 1][..k] == split[..k];
      if !IsBlank(s) {
        withoutBlank := withoutBlank + [Trim(s)];
      }
    }
    assert split[..|split|] == split;
    r := new string[|withoutBlank|](j => if 0 <= j < |withoutBlank| then withoutBlank[j] else "");
  }

  /** rewriteArrayWithoutElem: copy every element but the one at elemIndex
      into an array one shorter. An index outside the array drops the last
      element instead, because the copy stops when the new array is full. */
  method RewriteArrayWithoutElem(a: array<string>, elemIndex: int) returns (newArray: array<string>)
    requires a.Length >= 1
    ensures fresh(newArray)
    ensures newArray.Length == a.Length - 1
    ensures 0 <= elemIndex < a.Length ==> newArray[..] == a[..elemIndex] + a[elemIndex + 1..]
    ensures 0 <= elemIndex < a.Length ==> multiset(newArray[..]) + multiset{a[elemIndex]} == multiset(a[..])
    ensures !(0 <= elemIndex < a.Length) ==> newArray[..] == a[..a.Length - 1]
  {
    newArray := new string[a.Length - 1](_ => "");
    ghost var src := a[..];
    var i, j := 0, 0;
    while j < newArray.Length && i < a.Length
      invariant 0 <= i <= a.Length && a[..] == src
      invariant j == |KeptBefore(src, elemIndex, i)| <= newArray.Length
      invariant newArray[..j] == KeptBefore(src, elemIndex, i)
    {
      KeptBeforeNext(src, elemIndex, i);
      if i == elemIndex {
        i := i + 1;
        continue;
      }
      newArray[j] := a[i];
      j := j + 1;
      i := i + 1;
    }
    assert newArray[..] == newArray[..j];
    KeptBeforeDone(src, elemIndex, i);
    if 0 <= elemIndex < a.Length {
      MultisetWithoutAt(src, elemIndex);
    }
  }

  /** The body of the merge step: line i is appended to line i - 1 in the
      array itself, then a copy without line i replaces the array. */
  method MergeIntoPrevious(records: array<string>, i: int) returns (shorter: array<string>)
    requires 1 <= i < records.Length
    modifies records
    ensures records[..] == old(records[..])[i - 1 := old(records[i - 1]) + old(records[i])]
    ensures fresh(shorter) && shorter[..] == Glue(old(records[..]), i)
  {
    ghost var before := records[..];
    records[i - 1] := records[i - 1] + records[i];
    assert records[..] == before[i - 1 := before[i - 1] + before[i]];
    shorter := RewriteArrayWithoutElem(records, i);
    GlueInPlace(before, i);
  }

  /** standardizeStatisticRecords: a line without the dash is appended to
      the line before it, in that array, and removed by swapping in a copy
      without it; the index then moves on past the line that slid into its
      place. At index 0 the write to index -1 throws. */
  method StandardizeStatisticRecords(records: array<string>) returns (r: Result<array<string>, Exception>)
    modifies records
    ensures r.Ok? <==> Merge(old(records[..])).Ok?
    ensures r.Ok? ==> r.value[..] == Merge(old(records[..])).value
    ensures r.Err? ==> r.error == ArrayIndexOutOfBoundsException
    ensures records[..] == InPlaceEffect(old(records[..]))
  {
    ghost var initial := records[..];
    ghost var current := initial;
    ghost var merged := false;
    var a := records;
    var i := 0;
    while i < a.Length
      invariant a[..] == current && 0 <= i <= |current| + 1
      invariant MergeFrom(current, i) == Merge(initial)
      invariant !merged ==> a == records && current == initial && i <= FirstUndelimited(initial)
      invariant merged ==> fresh(a) && records[..] == InPlaceEffect(initial)
      decreases |current| + 1 - i
    {
      if RecordDelimiter !in a[i] {
        if i == 0 {
          return Err(ArrayIndexOutOfBoundsException);
        }
        if !merged {
          InPlaceEffectAt(initial, i);
        }
        a := MergeIntoPrevious(a, i);
        current := Glue(current, i);
        merged := true;
      }
      i := i + 1;
    }
    r := Ok(a);
  }

  /** The loop of parseLosesStatistic that picks one count string per line
      into the 13-slot array: the text after the dash, its first word, or on
      the last line its second word (the personnel count follows a
      qualifier); a line without the dash counts "0". A 14th line writes
      past the array and throws. */
  method ExtractStatisticCounts(lines: array<string>) returns (r: Result<array<Option<string>>, Exception>)
    ensures r.Ok? <==> ExtractCounts(lines[..]).Ok?
    ensures r.Ok? ==> fresh(r.value) && r.value[..] == ExtractCounts(lines[..]).value
    ensures r.Err? ==> r.error == ArrayIndexOutOfBoundsException
  {
    ghost var lineSeq := lines[..];
    ghost var target := ExtractCounts(lineSeq);
    var counts := new Option<string>[FieldCount](_ => None);
    ghost var slots := NoCounts();
    assert counts[..] == slots;
    var i := 0;
    while i < lines.Length
      invariant 0 <= i <= lines.Length
      invariant counts[..] == slots && |slots| == FieldCount
      invariant ExtractLoop(lineSeq, i, slots) == target
    {
      var step := LineCount(lines[i], i == lines.Length - 1);
      if step.Err? {
        ExtractLoopLineFails(lineSeq, i, slots);
        return Err(step.error);
      }
      var count := step.value;
      if i >= counts.Length {
        ExtractLoopPastEnd(lineSeq, i, slots);
        return Err(ArrayIndexOutOfBoundsException);
      }
      ExtractLoopStep(lineSeq, i, slots, count);
      counts[i] := Some(count);
      slots := slots[i := Some(count)];
      i := i + 1;
    }
    r := Ok(counts);
  }

  /** parseLosesStatistic: validate, strip the tags, drop blank lines,
      return the empty record below 13 lines, merge continuation lines,
      pick one count string per line into a 13-slot array, and parse the
      slots into the builder in category order. */
  method ParseLosesStatistic(input: Option<string>) returns (r: Result<LosesStatistic, Exception>)
    requires input.Some? ==> TagsTerminate(input.value)
    ensures r == ParseSpec(input)
  {
    var validation := Validate(input);
    if validation.Fail? {
      return Err(validation.error);
    }
    var text := NormaliseInput(input.value);
    // recodeStringToUTF8 is taken as the identity
    var statisticLines := RemoveBlank(Split(text, '\n'));
    if statisticLines.Length < FieldCount {
      return Ok(Empty());
    }
    var merged := StandardizeStatisticRecords(statisticLines);
    if merged.Err? {
      return Err(merged.error);
    }
    var lines := merged.value;
    var counts :- ExtractStatisticCounts(lines);
    r := BuildStatistic(counts[..]);
  }
}
