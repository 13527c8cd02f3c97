/** What each step of LosesInWarParser computes, as functions over values,
    and the properties of each step. The methods in module LosesInWarParser
    are proved to compute these functions. */
module ParserSpec {
  import opened Wrappers
  import opened JavaLang
  import opened Statistic
  import opened StatisticValidator

  /** The long dash (U+2014) between a label and its value. */
  const RecordDelimiter: char := '\U{2014}'

  // ---------------------------------------------------------------------
  // normaliseInput: tag stripping
  // ---------------------------------------------------------------------

  /** The first '>' comes after the first '<'. */
  predicate TagClosed(s: string)
    requires '<' in s
  {
    IndexOf(s, '<') < IndexOf(s, '>')
  }

  /** One pass of the loop: keep what precedes the first '<' and what
      follows the first '>'. When '>' is missing indexOf gives -1 and the
      whole string is appended. */
  function StripStep(s: string): (r: string)
    requires '<' in s
    ensures TagClosed(s) ==> |r| == |s| - (IndexOf(s, '>') - IndexOf(s, '<') + 1)
  {
    s[..IndexOf(s, '<')] + s[IndexOf(s, '>') + 1..]
  }

  /** The loop ends: every pass it makes finds a '>' after the '<'. */
  predicate TagsTerminate(s: string)
    decreases |s|
  {
    '<' !in s || (TagClosed(s) && TagsTerminate(StripStep(s)))
  }

  /** The string the loop leaves behind. */
  function StripTags(s: string): (r: string)
    requires TagsTerminate(s)
    ensures '<' !in r
    ensures |r| <= |s|
    ensures '<' !in s ==> r == s
    decreases |s|
  {
    if '<' !in s then s else StripTags(StripStep(s))
  }

  /** A pass deletes exactly the span from the first '<' through the first
      '>' when that '>' comes later. */
  lemma StripStepDeletesTag(s: string)
    requires '<' in s && TagClosed(s)
    ensures var i, j := IndexOf(s, '<'), IndexOf(s, '>');
            0 <= i < j < |s| && s[i] == '<' && s[j] == '>'
            && StripStep(s) == s[..i] + s[j + 1..]
            && |StripStep(s)| < |s|
  {
  }

  /** When the first '>' is missing or precedes the first '<', a pass keeps
      a '<', does not shrink the string and leaves the same situation
      behind: the loop never ends. */
  lemma StripStepDiverges(s: string)
    requires '<' in s && !TagClosed(s)
    ensures '<' in StripStep(s) && !TagClosed(StripStep(s))
    ensures |StripStep(s)| >= |s|
    ensures !TagsTerminate(s)
  {
    var i, j := IndexOf(s, '<'), IndexOf(s, '>');
    var r := StripStep(s);
    assert r == s[..i] + s[j + 1..];
    StripStepKeepsOpen(s, i, j, r);
    if j >= 0 {
      IndexOfAtMost(r, '>', j);
    } else {
      assert '>' !in s[..i] && '>' !in s[j + 1..];
    }
  }

  /** The text before the first '<' is kept and the '<' reappears after it. */
  lemma StripStepKeepsOpen(s: string, i: int, j: int, r: string)
    requires 0 <= i < |s| && s[i] == '<' && '<' !in s[..i] && -1 <= j < i
    requires r == s[..i] + s[j + 1..]
    ensures '<' in r && i <= IndexOf(r, '<') && |r| >= |s|
  {
    assert r[2 * i - j - 1] == s[i];
  }

  /** A character at position j is found at j or earlier. */
  lemma IndexOfAtMost(s: string, c: char, j: nat)
    requires j < |s| && s[j] == c
    ensures 0 <= IndexOf(s, c) <= j
  {
  }

  // ---------------------------------------------------------------------
  // removeBlank
  // ---------------------------------------------------------------------

  /** The trimmed form of every non-blank line, in order. */
  function KeepNonBlank(lines: seq<string>): (r: seq<string>)
    ensures |r| <= |lines|
    ensures forall k :: 0 <= k < |r| ==> IsTrimmed(r[k])
  {
    if lines == [] then []
    else
      var last := lines[|lines| - 1];
      KeepNonBlank(lines[..|lines| - 1]) + (if IsBlank(last) then [] else [Trim(last)])
  }

  /** Blank removal works line by line and keeps the order. */
  lemma {:induction false} KeepNonBlankAppend(a: seq<string>, b: seq<string>)
    ensures KeepNonBlank(a + b) == KeepNonBlank(a) + KeepNonBlank(b)
    decreases |b|
  {
    if b == [] {
      assert a + b == a;
    } else {
      var b' := b[..|b| - 1];
      assert (a + b)[..|a + b| - 1] == a + b';
      KeepNonBlankAppend(a, b');
    }
  }

  /** Characters below U+0020 that are not whitespace: trim removes them
      although isBlank does not count them as blank. */
  predicate NoControlChars(s: string) {
    forall k :: 0 <= k < |s| ==> s[k] > ' ' || IsWhitespace(s[k])
  }

  /** A kept line is blank only if its source held control characters. */
  lemma {:induction false} KeepNonBlankVisible(lines: seq<string>)
    requires forall k :: 0 <= k < |lines| ==> NoControlChars(lines[k])
    ensures forall k :: 0 <= k < |KeepNonBlank(lines)| ==> !IsBlank(KeepNonBlank(lines)[k])
  {
    if lines != [] {
      var last := lines[|lines| - 1];
      KeepNonBlankVisible(lines[..|lines| - 1]);
      if !IsBlank(last) {
        TrimVisible(last);
      }
    }
  }

  lemma TrimVisible(line: string)
    requires NoControlChars(line) && !IsBlank(line)
    ensures !IsBlank(Trim(line))
  {
    var k :| 0 <= k < |line| && !IsWhitespace(line[k]);
    TrimKeepsVisible(line, k);
    var t := Trim(line);
    var m :| 0 <= m < |t| && t[m] == line[k];
  }

  /** A line of control characters alone is kept, and kept empty. */
  lemma ControlLineKeptEmpty()
    ensures KeepNonBlank(["\U{0001}"]) == [""]
  {
    assert !IsBlank("\U{0001}");
    assert Trim("\U{0001}") == "";
  }

  /** Lines already trimmed and not blank pass through unchanged. */
  lemma {:induction false} KeepNonBlankIdentity(lines: seq<string>)
    requires forall k :: 0 <= k < |lines| ==> !IsBlank(lines[k]) && IsTrimmed(lines[k])
    ensures KeepNonBlank(lines) == lines
  {
    if lines != [] {
      var front, last := lines[..|lines| - 1], lines[|lines| - 1];
      KeepNonBlankIdentity(front);
      KeepNonBlankLast(lines);
      TrimOfTrimmed(last);
      SplitOffLast(lines);
    }
  }

  /** Sequence arithmetic in a small context of its own, to keep the solver's search short. */
  lemma SplitOffLast(lines: seq<string>)
    requires lines != []
    ensures lines[..|lines| - 1] + [lines[|lines| - 1]] == lines
  {
  }

  /** A non-blank last line is kept, trimmed, after the lines before it. */
  lemma KeepNonBlankLast(lines: seq<string>)
    requires lines != [] && !IsBlank(lines[|lines| - 1])
    ensures KeepNonBlank(lines) == KeepNonBlank(lines[..|lines| - 1]) + [Trim(lines[|lines| - 1])]
  {
  }

  // ---------------------------------------------------------------------
  // rewriteArrayWithoutElem
  // ---------------------------------------------------------------------

  /** The elements before position i, leaving out position e: what the copy
      loop has written once it has looked at i elements. */
  function KeptBefore(s: seq<string>, e: int, i: nat): (r: seq<string>)
    requires i <= |s|
    ensures |r| == if 0 <= e < i then i - 1 else i
  {
    if 0 <= e < i then s[..e] + s[e + 1..i] else s[..i]
  }

  /** Looking at one more element copies it, unless it is the one left out. */
  lemma KeptBeforeNext(s: seq<string>, e: int, i: nat)
    requires i < |s|
    ensures KeptBefore(s, e, i + 1) ==
              if i == e then KeptBefore(s, e, i) else KeptBefore(s, e, i) + [s[i]]
  {
    assert s[..i + 1] == s[..i] + [s[i]];
    if 0 <= e < i {
      assert s[e + 1..i + 1] == s[e + 1..i] + [s[i]];
    }
  }

  /** When the copy loop stops, the kept elements are all but position e,
      or all but the last one when e is outside the sequence. */
  lemma KeptBeforeDone(s: seq<string>, e: int, i: nat)
    requires 1 <= |s| && i <= |s|
    requires |KeptBefore(s, e, i)| <= |s| - 1
    requires i == |s| || |KeptBefore(s, e, i)| == |s| - 1
    ensures 0 <= e < |s| ==> KeptBefore(s, e, i) == s[..e] + s[e + 1..]
    ensures !(0 <= e < |s|) ==> KeptBefore(s, e, i) == s[..|s| - 1]
  {
    if 0 <= e < |s| && e >= i {
      assert i == e == |s| - 1;
      assert s[e + 1..] == [];
    }
  }

  /** Leaving out one element takes exactly that element from the bag. */
  lemma MultisetWithoutAt(s: seq<string>, k: nat)
    requires k < |s|
    ensures multiset(s[..k] + s[k + 1..]) + multiset{s[k]} == multiset(s)
  {
    assert s == s[..k] + [s[k]] + s[k + 1..];
  }

  // ---------------------------------------------------------------------
  // standardizeStatisticRecords
  // ---------------------------------------------------------------------

  /** Line i appended to line i - 1, in place of both. */
  function Glue(lines: seq<string>, i: nat): (r: seq<string>)
    requires 1 <= i < |lines|
    ensures |r| == |lines| - 1
  {
    lines[..i - 1] + [lines[i - 1] + lines[i]] + lines[i + 1..]
  }

  /** The loop from index i on: a line at i without the dash is appended to
      line i - 1 and removed; i then moves on, so the line that slid into
      slot i is never looked at. At i == 0 the write to index -1 throws. */
  function MergeFrom(lines: seq<string>, i: nat): (r: Result<seq<string>, Exception>)
    ensures r.Err? ==> r.error == ArrayIndexOutOfBoundsException
    decreases |lines| - i
  {
    if i >= |lines| then Ok(lines)
    else if RecordDelimiter in lines[i] then MergeFrom(lines, i + 1)
    else if i == 0 then Err(ArrayIndexOutOfBoundsException)
    else MergeFrom(Glue(lines, i), i + 1)
  }

  /** standardizeStatisticRecords on the whole array. It fails exactly when
      the first line has no dash; otherwise it keeps the text and never adds
      lines. */
  function Merge(lines: seq<string>): (r: Result<seq<string>, Exception>)
    ensures r.Err? <==> |lines| > 0 && RecordDelimiter !in lines[0]
    ensures r.Err? ==> r.error == ArrayIndexOutOfBoundsException
    ensures r.Ok? ==> |r.value| <= |lines| && Concat(r.value) == Concat(lines)
  {
    if |lines| > 0 && RecordDelimiter in lines[0] then
      MergeFromKeepsText(lines, 1);
      MergeFrom(lines, 0)
    else
      MergeFrom(lines, 0)
  }

  /** All lines written one after another. */
  function Concat(lines: seq<string>): string {
    if lines == [] then "" else lines[0] + Concat(lines[1..])
  }

  lemma {:induction false} ConcatGlue(a: seq<string>, x: string, y: string, b: seq<string>)
    ensures Concat(a + [x + y] + b) == Concat(a + [x, y] + b)
  {
    if a == [] {
      assert a + [x + y] + b == [x + y] + b;
      assert a + [x, y] + b == [x] + ([y] + b);
      assert ([x] + ([y] + b))[1..] == [y] + b;
      assert ([y] + b)[1..] == b;
      assert ([x + y] + b)[1..] == b;
    } else {
      ConcatGlue(a[1..], x, y, b);
      assert (a + [x + y] + b)[1..] == a[1..] + [x + y] + b;
      assert (a + [x, y] + b)[1..] == a[1..] + [x, y] + b;
    }
  }

  /** Gluing line i onto line i - 1 keeps the text and drops one line. */
  lemma GlueKeepsText(lines: seq<string>, i: nat)
    requires 1 <= i < |lines|
    ensures Concat(Glue(lines, i)) == Concat(lines)
  {
    PairAt(lines, i);
    ConcatGlue(lines[..i - 1], lines[i - 1], lines[i], lines[i + 1..]);
  }

  /** A sequence cut around positions i - 1 and i: sequence arithmetic in a
      small context of its own, to keep the solver's search short. */
  lemma PairAt(lines: seq<string>, i: nat)
    requires 1 <= i < |lines|
    ensures lines == lines[..i - 1] + [lines[i - 1], lines[i]] + lines[i + 1..]
  {
    assert lines[..i + 1] == lines[..i - 1] + [lines[i - 1], lines[i]];
    assert lines == lines[..i + 1] + lines[i + 1..];
  }

  /** Past index 0 the merge cannot fail; it keeps the text and never adds
      lines. */
  lemma {:induction false} MergeFromKeepsText(lines: seq<string>, i: nat)
    requires i >= 1
    ensures MergeFrom(lines, i).Ok?
    ensures |MergeFrom(lines, i).value| <= |lines|
    ensures Concat(MergeFrom(lines, i).value) == Concat(lines)
    decreases |lines| - i
  {
    if i < |lines| {
      if RecordDelimiter in lines[i] {
        MergeFromKeepsText(lines, i + 1);
      } else {
        var glued := Glue(lines, i);
        GlueKeepsText(lines, i);
        MergeFromKeepsText(glued, i + 1);
      }
    }
  }

  /** No two lines in a row lack the dash: every continuation line
      follows a line with a label. */
  predicate NoAdjacentUndelimited(lines: seq<string>) {
    forall k :: 0 <= k < |lines| - 1 ==> RecordDelimiter in lines[k] || RecordDelimiter in lines[k + 1]
  }

  /** When the first line has the dash and continuation lines never come
      two in a row, the merge leaves the dash on every line. */
  lemma MergeDelimitsEveryLine(lines: seq<string>)
    requires |lines| > 0 ==> RecordDelimiter in lines[0]
    requires NoAdjacentUndelimited(lines)
    ensures Merge(lines).Ok?
    ensures forall k :: 0 <= k < |Merge(lines).value| ==> RecordDelimiter in Merge(lines).value[k]
  {
    if |lines| > 0 {
      MergeFromDelimitsEveryLine(lines, 1);
    }
  }

  lemma {:induction false} MergeFromDelimitsEveryLine(lines: seq<string>, i: nat)
    requires 1 <= i
    requires forall k :: 0 <= k < i && k < |lines| ==> RecordDelimiter in lines[k]
    requires forall k :: i <= k < |lines| - 1 ==> RecordDelimiter in lines[k] || RecordDelimiter in lines[k + 1]
    ensures MergeFrom(lines, i).Ok?
    ensures forall k :: 0 <= k < |MergeFrom(lines, i).value| ==> RecordDelimiter in MergeFrom(lines, i).value[k]
    decreases |lines| - i
  {
    if i < |lines| {
      if RecordDelimiter in lines[i] {
        MergeFromDelimitsEveryLine(lines, i + 1);
      } else {
        var glued := Glue(lines, i);
        GlueKeepsDash(lines, i);
        MergeFromDelimitsEveryLine(glued, i + 1);
      }
    }
  }

  /** Gluing a continuation line onto a labelled one keeps every line up to
      the one that slides into its place labelled, and shifts the rest. */
  lemma GlueKeepsDash(lines: seq<string>, i: nat)
    requires 1 <= i < |lines| && RecordDelimiter !in lines[i]
    requires forall k :: 0 <= k < i ==> RecordDelimiter in lines[k]
    requires forall k :: i <= k < |lines| - 1 ==> RecordDelimiter in lines[k] || RecordDelimiter in lines[k + 1]
    ensures forall k :: 0 <= k < i + 1 && k < |Glue(lines, i)| ==> RecordDelimiter in Glue(lines, i)[k]
    ensures forall k :: i + 1 <= k < |Glue(lines, i)| - 1 ==>
              RecordDelimiter in Glue(lines, i)[k] || RecordDelimiter in Glue(lines, i)[k + 1]
  {
    var glued := Glue(lines, i);
    assert forall k :: i <= k < |glued| ==> glued[k] == lines[k + 1];
    assert forall k :: 0 <= k < i - 1 ==> glued[k] == lines[k];
    assert glued[i - 1] == lines[i - 1] + lines[i];
  }

  /** Lines that all carry the dash are left alone. */
  lemma {:induction false} MergeFromDelimited(lines: seq<string>, i: nat)
    requires forall k :: 0 <= k < |lines| ==> RecordDelimiter in lines[k]
    ensures MergeFrom(lines, i) == Ok(lines)
    decreases |lines| - i
  {
    if i < |lines| {
      MergeFromDelimited(lines, i + 1);
    }
  }

  /** After a merge the next line is skipped: in ["a—", "b", "c"], "b" is
      glued onto "a—" and "c" stays a line of its own. */
  lemma MergeSkipsSlidLine()
    ensures Merge(["a\U{2014}", "b", "c"]) == Ok(["a\U{2014}b", "c"])
  {
    var lines := ["a\U{2014}", "b", "c"];
    assert RecordDelimiter in lines[0];
    assert RecordDelimiter !in lines[1];
    var glued := ["a\U{2014}b", "c"];
    assert lines[0] + lines[1] == "a\U{2014}b";
    assert lines[..0] + [lines[0] + lines[1]] + lines[2..] == glued;
    assert MergeFrom(lines, 1) == MergeFrom(glued, 2);
  }

  /** The first line the loop finds without a dash, or |lines|. */
  function FirstUndelimited(lines: seq<string>): (j: nat)
    ensures j <= |lines|
    ensures forall k :: 0 <= k < j ==> RecordDelimiter in lines[k]
    ensures j < |lines| ==> RecordDelimiter !in lines[j]
  {
    if lines == [] || RecordDelimiter !in lines[0] then 0
    else 1 + FirstUndelimited(lines[1..])
  }

  /** What becomes of the caller's own array: only the first merge writes
      into it; every later one writes into a fresh copy. */
  function InPlaceEffect(lines: seq<string>): (r: seq<string>)
    ensures |r| == |lines|
  {
    var j := FirstUndelimited(lines);
    if 1 <= j < |lines| then lines[j - 1 := lines[j - 1] + lines[j]] else lines
  }

  /** Gluing line i onto line i - 1 in place and then dropping line i. */
  lemma GlueInPlace(lines: seq<string>, i: nat)
    requires 1 <= i < |lines|
    ensures var glued := lines[i - 1 := lines[i - 1] + lines[i]];
            glued[..i] + glued[i + 1..] == Glue(lines, i)
  {
  }

  /** The first merge happens at the first line without a dash. */
  lemma InPlaceEffectAt(lines: seq<string>, i: nat)
    requires 1 <= i < |lines| && RecordDelimiter !in lines[i]
    requires forall k :: 0 <= k < i ==> RecordDelimiter in lines[k]
    ensures InPlaceEffect(lines) == lines[i - 1 := lines[i - 1] + lines[i]]
  {
    assert FirstUndelimited(lines) == i;
  }

  // ---------------------------------------------------------------------
  // Extraction of the counts
  // ---------------------------------------------------------------------

  /** The count string a line yields: "0" when splitting on the dash gives
      fewer than two parts; otherwise the first space-separated token after
      the dash, or the second one on the last line. A missing token is an
      index out of bounds. */
  function LineCount(line: string, isLast: bool): (r: Result<string, Exception>)
    ensures RecordDelimiter !in line ==> r == Ok("0")
    ensures !isLast ==> r.Ok?
    ensures r.Err? ==> r.error == ArrayIndexOutOfBoundsException
  {
    var lineElements := Split(line, RecordDelimiter);
    if |lineElements| < 2 then Ok("0") else CountAfterDash(Trim(lineElements[1]), isLast)
  }

  /** The count in the trimmed text after the dash: its first
      space-separated token, or on the last line its second one, trimmed. */
  function CountAfterDash(text: string, isLast: bool): (r: Result<string, Exception>)
    requires IsTrimmed(text)
    ensures !isLast ==> r.Ok?
    ensures r.Err? ==> r.error == ArrayIndexOutOfBoundsException
  {
    var parts := Split(text, ' ');
    if isLast then
      if |parts| < 2 then Err(ArrayIndexOutOfBoundsException) else Ok(Trim(parts[1]))
    else
      FirstTokenExists(text);
      Ok(parts[0])
  }

  /** Splitting a trimmed string on ' ' always yields a first token. */
  lemma FirstTokenExists(t: string)
    requires IsTrimmed(t)
    ensures |Split(t, ' ')| >= 1
  {
    if ' ' in t {
      SplitKeepsPrefix(t, ' ', 0);
    }
  }

  /** A line ending in its only dash yields "0": split drops the empty
      piece after the dash. */
  lemma DashAtEndYieldsZero(name: string, isLast: bool)
    requires RecordDelimiter !in name
    ensures LineCount(name + [RecordDelimiter], isLast) == Ok("0")
  {
    var line := name + [RecordDelimiter];
    assert line == name + [RecordDelimiter] + "";
    SplitAllCons(name, "", RecordDelimiter);
    assert SplitAll(line, RecordDelimiter) == [name, ""];
    assert RecordDelimiter in line;
    assert DropTrailingEmpty([name, ""]) == DropTrailingEmpty([name]);
  }

  /** The counts array after the loop has run from index i on. Writing
      past the 13 slots throws. */
  function ExtractLoop(lines: seq<string>, i: nat, counts: seq<Option<string>>)
    : (r: Result<seq<Option<string>>, Exception>)
    requires |counts| == FieldCount
    ensures r.Ok? ==> |r.value| == FieldCount
    ensures r.Err? ==> r.error == ArrayIndexOutOfBoundsException
    decreases |lines| - i
  {
    if i >= |lines| then Ok(counts)
    else
      var count :- LineCount(lines[i], i == |lines| - 1);
      if i >= FieldCount then Err(ArrayIndexOutOfBoundsException)
      else ExtractLoop(lines, i + 1, counts[i := Some(count)])
  }

  /** One turn of the loop: line i's count goes into slot i. */
  lemma ExtractLoopStep(lines: seq<string>, i: nat, counts: seq<Option<string>>, count: string)
    requires |counts| == FieldCount && i < |lines| && i < FieldCount
    requires LineCount(lines[i], i == |lines| - 1) == Ok(count)
    ensures ExtractLoop(lines, i, counts) == ExtractLoop(lines, i + 1, counts[i := Some(count)])
  {
  }

  /** The write past the last slot throws. */
  lemma ExtractLoopPastEnd(lines: seq<string>, i: nat, counts: seq<Option<string>>)
    requires |counts| == FieldCount && FieldCount <= i < |lines|
    requires LineCount(lines[i], i == |lines| - 1).Ok?
    ensures ExtractLoop(lines, i, counts) == Err(ArrayIndexOutOfBoundsException)
  {
  }

  /** A line whose count cannot be read stops the loop. */
  lemma ExtractLoopLineFails(lines: seq<string>, i: nat, counts: seq<Option<string>>)
    requires |counts| == FieldCount && i < |lines|
    requires LineCount(lines[i], i == |lines| - 1).Err?
    ensures ExtractLoop(lines, i, counts) == Err(ArrayIndexOutOfBoundsException)
  {
  }

  /** The counts array of new String[13], all null. */
  function NoCounts(): (r: seq<Option<string>>)
    ensures |r| == FieldCount
    ensures forall k :: 0 <= k < FieldCount ==> r[k] == None
  {
    seq(FieldCount, _ => None)
  }

  /** The loop run over all lines on a fresh array of nulls. More than 13
      lines always throw; up to 13 throw exactly when the last line lacks
      its second token. */
  function ExtractCounts(lines: seq<string>): (r: Result<seq<Option<string>>, Exception>)
    ensures r.Ok? ==> |r.value| == FieldCount
    ensures r.Err? ==> r.error == ArrayIndexOutOfBoundsException
    ensures |lines| > FieldCount ==> r.Err?
    ensures |lines| <= FieldCount ==> (r.Err? <==> |lines| > 0 && LineCount(lines[|lines| - 1], true).Err?)
  {
    if |lines| > FieldCount then
      ExtractLoopOverflows(lines, 0, NoCounts());
      ExtractLoop(lines, 0, NoCounts())
    else
      ExtractLoopFits(lines, 0, NoCounts());
      ExtractLoop(lines, 0, NoCounts())
  }

  /** The count line k yields in a group of n lines. */
  function SlotCount(lines: seq<string>, k: nat): Option<string>
    requires k < |lines|
  {
    match LineCount(lines[k], k == |lines| - 1)
    case Ok(c) => Some(c)
    case Err(_) => None
  }

  /** With at most 13 lines the loop fails only on a last line lacking its
      second token; otherwise slot k < |lines| holds line k's count and the
      other slots keep what they held. */
  lemma {:induction false} ExtractLoopFits(lines: seq<string>, i: nat, counts: seq<Option<string>>)
    requires |counts| == FieldCount && |lines| <= FieldCount && i <= |lines|
    ensures ExtractLoop(lines, i, counts).Err? <==>
              i < |lines| && LineCount(lines[|lines| - 1], true).Err?
    ensures ExtractLoop(lines, i, counts).Ok? ==>
              forall k :: 0 <= k < FieldCount ==>
                ExtractLoop(lines, i, counts).value[k] ==
                  if i <= k < |lines| then SlotCount(lines, k) else counts[k]
    decreases |lines| - i
  {
    if i < |lines| {
      var c := LineCount(lines[i], i == |lines| - 1);
      if c.Ok? {
        ExtractLoopFits(lines, i + 1, counts[i := Some(c.value)]);
      }
    }
  }

  /** With more than 13 lines the write to counts[13] always throws. */
  lemma {:induction false} ExtractLoopOverflows(lines: seq<string>, i: nat, counts: seq<Option<string>>)
    requires |counts| == FieldCount && |lines| > FieldCount && i <= FieldCount
    ensures ExtractLoop(lines, i, counts) == Err(ArrayIndexOutOfBoundsException)
    decreases FieldCount - i
  {
    if i < FieldCount {
      var c := LineCount(lines[i], false);
      ExtractLoopOverflows(lines, i + 1, counts[i := Some(c.value)]);
    }
  }

  // ---------------------------------------------------------------------
  // The builder chain
  // ---------------------------------------------------------------------

  /** Integer.parseInt of each count, first to last; the first failure
      propagates. */
  function ParseCounts(counts: seq<Option<string>>): (r: Result<seq<int>, Exception>)
    ensures r.Ok? <==> forall k :: 0 <= k < |counts| ==> ParseInt(counts[k]).Ok?
    ensures r.Ok? ==> |r.value| == |counts|
    ensures r.Ok? ==> forall k :: 0 <= k < |counts| ==> r.value[k] == ParseInt(counts[k]).value
    ensures r.Err? ==> r.error == NumberFormatException
  {
    if counts == [] then Ok([])
    else
      var first :- ParseInt(counts[0]);
      var rest :- ParseCounts(counts[1..]);
      Ok([first] + rest)
  }

  /** The builder chain: counts[k] parsed into the k-th slot in category
      order (tanks, armoured fighting vehicles, cannons, multiple rocket
      launchers, anti-air defence, planes, helicopters, drones, cruise
      missiles, ships, cars and tankers, special equipment, personnel). */
  function BuildStatistic(counts: seq<Option<string>>): (r: Result<LosesStatistic, Exception>)
    requires |counts| == FieldCount
    ensures r.Ok? <==> forall k :: 0 <= k < FieldCount ==> ParseInt(counts[k]).Ok?
    ensures r.Ok? ==> forall k :: 0 <= k < FieldCount ==> r.value.Field(k) == ParseInt(counts[k]).value
    ensures r.Err? ==> r.error == NumberFormatException
  {
    var values :- ParseCounts(counts);
    Ok(FromCounts(values))
  }

  // ---------------------------------------------------------------------
  // parseLosesStatistic
  // ---------------------------------------------------------------------

  /** The non-blank lines of the text once its tags are stripped. */
  function CleanLines(text: string): (r: seq<string>)
    requires TagsTerminate(text)
    ensures |r| <= |Split(StripTags(text), '\n')|
    ensures forall k :: 0 <= k < |r| ==> IsTrimmed(r[k])
  {
    KeepNonBlank(Split(StripTags(text), '\n'))
  }

  /** The whole pipeline: validate, strip tags, drop blank lines, give up
      with the empty record below 13 lines, merge continuation lines,
      extract the counts, parse them. */
  function ParseSpec(input: Option<string>): (r: Result<LosesStatistic, Exception>)
    requires input.Some? ==> TagsTerminate(input.value)
    ensures input.None? ==> r == Err(NullPointerException)
    ensures input.Some? && IsBlank(input.value) ==>
              r == Err(IllegalArgumentException(EmptyStatisticMessage))
    ensures input.Some? && !IsBlank(input.value) && |CleanLines(input.value)| < FieldCount ==>
              r == Ok(Empty())
  {
    match Validate(input)
    case Fail(e) => Err(e)
    case Pass =>
      var lines := CleanLines(input.value);
      if |lines| < FieldCount then Ok(Empty())
      else
        var merged :- Merge(lines);
        var counts :- ExtractCounts(merged);
        BuildStatistic(counts)
  }
}
