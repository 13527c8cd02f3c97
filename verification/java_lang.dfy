/** The pieces of java.lang that the parser calls: the exceptions it can
    throw, Character.isWhitespace, String.isBlank, String.trim,
    String.indexOf, String.split on a single literal character and
    Integer.parseInt. Strings are sequences of code points. */
module JavaLang {
  import opened Wrappers

  datatype Exception =
    | NullPointerException
    | IllegalArgumentException(message: string)
    | ArrayIndexOutOfBoundsException
    | NumberFormatException

  // ---------------------------------------------------------------------
  // Character.isWhitespace, String.isBlank and String.trim
  // ---------------------------------------------------------------------

  /** Character.isWhitespace: the ASCII separators and the Unicode space,
      line and paragraph separators other than the non-breaking ones
      (U+00A0, U+2007, U+202F). */
  predicate IsWhitespace(c: char)
    ensures ('\t' <= c <= '\r') || c == ' ' ==> IsWhitespace(c)
    ensures IsWhitespace(c) ==> c != '\U{00A0}' && c != '\U{2007}' && c != '\U{202F}'
  {
    ('\t' <= c <= '\r') || ('\U{001C}' <= c <= ' ') || c == '\U{1680}'
    || ('\U{2000}' <= c <= '\U{2006}') || ('\U{2008}' <= c <= '\U{200A}')
    || c == '\U{2028}' || c == '\U{2029}' || c == '\U{205F}' || c == '\U{3000}'
  }

  /** String.isBlank: empty or whitespace only. */
  predicate IsBlank(s: string)
    ensures s == [] ==> IsBlank(s)
  {
    forall k :: 0 <= k < |s| ==> IsWhitespace(s[k])
  }

  /** String.trim strips every character up to U+0020 from both ends, a
      different set from the one isBlank looks at. */
  predicate IsTrimmed(s: string) {
    s == [] || (s[0] > ' ' && s[|s| - 1] > ' ')
  }

  function TrimStart(s: string): (r: string)
    ensures |r| <= |s| && r == s[|s| - |r|..]
    ensures forall k :: 0 <= k < |s| - |r| ==> s[k] <= ' '
    ensures r == [] || r[0] > ' '
  {
    if |s| > 0 && s[0] <= ' ' then TrimStart(s[1..]) else s
  }

  function TrimEnd(s: string): (r: string)
    ensures |r| <= |s| && r == s[..|r|]
    ensures forall k :: |r| <= k < |s| ==> s[k] <= ' '
    ensures r == [] || r[|r| - 1] > ' '
  {
    if |s| > 0 && s[|s| - 1] <= ' ' then TrimEnd(s[..|s| - 1]) else s
  }

  /** String.trim */
  function Trim(s: string): (r: string)
    ensures IsTrimmed(r)
    ensures |r| <= |s|
  {
    TrimEnd(TrimStart(s))
  }

  /** Trimming keeps every character above U+0020. */
  lemma TrimKeepsVisible(s: string, k: nat)
    requires k < |s| && s[k] > ' '
    ensures s[k] in Trim(s)
  {
    var t := TrimStart(s);
    var off := |s| - |t|;
    assert t[k - off] == s[k];
    var u := TrimEnd(t);
    assert u[k - off] == t[k - off];
  }

  lemma TrimOfTrimmed(s: string)
    requires IsTrimmed(s)
    ensures Trim(s) == s
  {
  }

  /** A leading space never survives trimming. */
  lemma TrimLeadingSpace(s: string)
    ensures Trim(" " + s) == Trim(s)
  {
    assert (" " + s)[1..] == s;
  }

  // ---------------------------------------------------------------------
  // String.indexOf and String.split
  // ---------------------------------------------------------------------

  /** String.indexOf(c): the first position of c, or -1. */
  function IndexOf(s: string, c: char): (r: int)
    ensures -1 <= r < |s|
    ensures r == -1 <==> c !in s
    ensures 0 <= r ==> s[r] == c && c !in s[..r]
  {
    if |s| == 0 then -1
    else if s[0] == c then 0
    else
      var k := IndexOf(s[1..], c);
      if k == -1 then -1
      else
        assert s[..k + 1] == [s[0]] + s[1..][..k];
        k + 1
  }

  /** indexOf finds the first occurrence and no other. */
  lemma IndexOfFirst(s: string, c: char, i: nat)
    requires i < |s| && s[i] == c && c !in s[..i]
    ensures IndexOf(s, c) == i
  {
    assert s[i] in s;
  }

  /** Every piece of s cut at each d, trailing empty pieces included. */
  function SplitAll(s: string, d: char): (parts: seq<string>)
    ensures |parts| >= 1
    ensures forall k :: 0 <= k < |parts| ==> d !in parts[k]
    decreases |s|
  {
    var i := IndexOf(s, d);
    if i < 0 then [s] else [s[..i]] + SplitAll(s[i + 1..], d)
  }

  /** The pieces written back with d between them. */
  function JoinWith(parts: seq<string>, d: char): string
    requires |parts| >= 1
  {
    if |parts| == 1 then parts[0] else parts[0] + [d] + JoinWith(parts[1..], d)
  }

  function DropTrailingEmpty(parts: seq<string>): (r: seq<string>)
    ensures |r| <= |parts| && r == parts[..|r|]
    ensures r == [] || r[|r| - 1] != ""
    ensures forall k :: |r| <= k < |parts| ==> parts[k] == ""
  {
    if parts == [] || parts[|parts| - 1] != "" then parts
    else DropTrailingEmpty(parts[..|parts| - 1])
  }

  /** String.split with a one-character literal pattern and limit 0: with
      no match the whole string, otherwise the pieces without the empty
      ones at the end. */
  function Split(s: string, d: char): (parts: seq<string>)
    ensures d !in s ==> parts == [s]
    ensures forall k :: 0 <= k < |parts| ==> d !in parts[k]
  {
    if d !in s then [s] else DropTrailingEmpty(SplitAll(s, d))
  }

  lemma {:induction false} SplitAllNone(s: string, d: char)
    requires d !in s
    ensures SplitAll(s, d) == [s]
  {
  }

  /** Cutting at the first delimiter peels off the text before it. */
  lemma SplitAllCons(a: string, b: string, d: char)
    requires d !in a
    ensures SplitAll(a + [d] + b, d) == [a] + SplitAll(b, d)
  {
    var s := a + [d] + b;
    assert s[..|a|] == a;
    IndexOfFirst(s, d, |a|);
    assert s[|a| + 1..] == b;
  }

  /** The first piece of a + b is a when b is empty or starts with d. */
  lemma SplitAllHead(a: string, b: string, d: char)
    requires d !in a
    requires b == [] || b[0] == d
    ensures SplitAll(a + b, d)[0] == a
  {
    if b == [] {
      assert a + b == a;
    } else {
      assert a + b == a + [d] + b[1..];
      SplitAllCons(a, b[1..], d);
    }
  }

  /** Joining the pieces gives the string back. */
  lemma {:induction false} JoinSplitAll(s: string, d: char)
    ensures JoinWith(SplitAll(s, d), d) == s
    decreases |s|
  {
    var i := IndexOf(s, d);
    if i >= 0 {
      var head, rest := s[..i], s[i + 1..];
      var tail := SplitAll(rest, d);
      assert SplitAll(s, d) == [head] + tail;
      JoinSplitAll(rest, d);
      assert JoinWith([head] + tail, d) == head + [d] + JoinWith(tail, d) by {
        assert ([head] + tail)[1..] == tail;
      }
      CutAt(s, i);
    }
  }

  /** Sequence arithmetic in a small context of its own, to keep the solver's search short. */
  lemma CutAt(s: string, i: nat)
    requires i < |s|
    ensures s == s[..i] + [s[i]] + s[i + 1..]
  {
  }

  /** Splitting the joined pieces gives the pieces back. */
  lemma {:induction false} SplitAllJoin(parts: seq<string>, d: char)
    requires |parts| >= 1
    requires forall k :: 0 <= k < |parts| ==> d !in parts[k]
    ensures SplitAll(JoinWith(parts, d), d) == parts
  {
    if |parts| == 1 {
      SplitAllNone(parts[0], d);
    } else {
      SplitAllJoin(parts[1..], d);
      SplitAllCons(parts[0], JoinWith(parts[1..], d), d);
      assert parts == [parts[0]] + parts[1..];
    }
  }

  /** Joining adds no character other than the delimiter. */
  lemma {:induction false} JoinWithAvoids(parts: seq<string>, d: char, c: char)
    requires |parts| >= 1 && c != d
    requires forall k :: 0 <= k < |parts| ==> c !in parts[k]
    ensures c !in JoinWith(parts, d)
  {
    if |parts| > 1 {
      JoinWithAvoids(parts[1..], d, c);
    }
  }

  /** Every character of a piece is in the joined string. */
  lemma {:induction false} JoinWithKeeps(parts: seq<string>, d: char, k: nat, c: char)
    requires k < |parts| && c in parts[k]
    ensures c in JoinWith(parts, d)
  {
    if |parts| > 1 {
      if k == 0 {
        JoinWithHead(parts, d);
        var j :| 0 <= j < |parts[0]| && parts[0][j] == c;
        assert JoinWith(parts, d)[..|parts[0]|][j] == c;
      } else {
        JoinWithKeeps(parts[1..], d, k - 1, c);
      }
    }
  }

  /** The joined string starts with the first piece, followed by the
      delimiter when there are more. */
  lemma JoinWithHead(parts: seq<string>, d: char)
    requires |parts| >= 2
    ensures |JoinWith(parts, d)| > |parts[0]|
    ensures JoinWith(parts, d)[..|parts[0]|] == parts[0]
    ensures JoinWith(parts, d)[|parts[0]|] == d
  {
  }

  /** A non-empty piece keeps itself and every piece before it in split's
      result. */
  lemma SplitKeepsPrefix(s: string, d: char, k: nat)
    requires k < |SplitAll(s, d)| && SplitAll(s, d)[k] != ""
    ensures k < |Split(s, d)| && Split(s, d)[..k + 1] == SplitAll(s, d)[..k + 1]
  {
    if d !in s {
      SplitAllNone(s, d);
    }
  }

  // ---------------------------------------------------------------------
  // Integer.parseInt
  // ---------------------------------------------------------------------

  const IntMin: int := -0x8000_0000
  const IntMax: int := 0x7fff_ffff

  predicate IsDigit(c: char) {
    '0' <= c <= '9'
  }

  predicate AllDigits(s: string) {
    forall k :: 0 <= k < |s| ==> IsDigit(s[k])
  }

  function DigitValue(c: char): nat
    requires IsDigit(c)
  {
    c as int - '0' as int
  }

  function DigitsValue(s: string): nat
    requires AllDigits(s)
  {
    if |s| == 0 then 0 else DigitsValue(s[..|s| - 1]) * 10 + DigitValue(s[|s| - 1])
  }

  /** Integer.parseInt in base 10: an optional sign and at least one digit,
      in the range of a 32-bit int; null and anything else throw. */
  function ParseInt(s: Option<string>): (r: Result<int, Exception>)
    ensures r.Ok? ==> IntMin <= r.value <= IntMax
    ensures r.Ok? ==>
              s.Some? && |s.value| > 0 &&
              (AllDigits(s.value) || ((s.value[0] == '+' || s.value[0] == '-') && |s.value| > 1 && AllDigits(s.value[1..])))
    ensures s.Some? && |s.value| > 0 && AllDigits(s.value) ==>
              r == if DigitsValue(s.value) <= IntMax then Ok(DigitsValue(s.value)) else Err(NumberFormatException)
    ensures s.Some? && |s.value| > 1 && s.value[0] == '+' && AllDigits(s.value[1..]) ==>
              r == if DigitsValue(s.value[1..]) <= IntMax then Ok(DigitsValue(s.value[1..])) else Err(NumberFormatException)
    ensures s.Some? && |s.value| > 1 && s.value[0] == '-' && AllDigits(s.value[1..]) ==>
              r == if DigitsValue(s.value[1..]) <= -IntMin then Ok(0 - DigitsValue(s.value[1..]) as int) else Err(NumberFormatException)
    ensures r.Err? ==> r.error == NumberFormatException
  {
    if s.None? || |s.value| == 0 then Err(NumberFormatException)
    else
      var t := s.value;
      var digits := if t[0] == '-' || t[0] == '+' then t[1..] else t;
      if |digits| == 0 || !AllDigits(digits) then Err(NumberFormatException)
      else
        var n: int := if t[0] == '-' then 0 - DigitsValue(digits) as int else DigitsValue(digits);
        if IntMin <= n <= IntMax then Ok(n) else Err(NumberFormatException)
  }

  /** Leading zeros and a sign are read; a letter is not a digit. */
  lemma ParseIntSamples()
    ensures ParseInt(Some("007")) == Ok(7)
    ensures ParseInt(Some("-12")) == Ok(-12)
    ensures ParseInt(Some("x5")) == Err(NumberFormatException)
    ensures ParseInt(Some("-")) == Err(NumberFormatException)
  {
    assert DigitsValue("00") == 0 by {
      assert "00"[..1] == "0";
    }
    assert "007"[..2] == "00";
    assert "12"[..1] == "1";
    assert "-12"[1..] == "12";
    assert !IsDigit('x');
  }

  function DigitChar(v: nat): (c: char)
    requires v < 10
    ensures IsDigit(c) && DigitValue(c) == v
  {
    ('0' as int + v) as char
  }

  /** The decimal form of a natural number. */
  function Decimal(n: nat): (r: string)
    ensures |r| > 0 && AllDigits(r)
  {
    (if n < 10 then "" else Decimal(n / 10)) + [DigitChar(n % 10)]
  }

  lemma {:induction false} DecimalValue(n: nat)
    ensures DigitsValue(Decimal(n)) == n
  {
    var r := Decimal(n);
    var front := if n < 10 then "" else Decimal(n / 10);
    assert r == front + [DigitChar(n % 10)];
    assert r[..|r| - 1] == front;
    if n >= 10 {
      DecimalValue(n / 10);
    }
    assert DigitsValue(r) == DigitsValue(front) * 10 + n % 10;
  }

  /** parseInt reads back what Decimal writes. */
  lemma ParseIntDecimal(n: nat)
    requires n <= IntMax
    ensures ParseInt(Some(Decimal(n))) == Ok(n)
  {
    DecimalValue(n);
  }
}
