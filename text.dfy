/**
 * The pieces of Python's `str` and `re` behaviour the script relies on:
 * `strip`, `split`, `join`, `lower`, `str(int)`, `int(digits)` and the
 * leftmost-match rule of `re.search` for the patterns `TAG(\d+)` and
 * `TAG(\d+\.\d+)`.
 */
module Text {
  import opened Wrappers

  /** The characters for which Python's `str.isspace` holds. */
  predicate IsSpace(c: char) {
    ('\t' <= c <= '\r') || ('\U{1C}' <= c <= '\U{1F}') || c == ' ' || c == '\U{85}' || c == '\U{A0}'
    || c == '\U{1680}' || ('\U{2000}' <= c <= '\U{200A}') || c == '\U{2028}' || c == '\U{2029}'
    || c == '\U{202F}' || c == '\U{205F}' || c == '\U{3000}'
  }

  predicate IsDigit(c: char) {
    '0' <= c <= '9'
  }

  predicate AllDigits(s: string) {
    forall k :: 0 <= k < |s| ==> IsDigit(s[k])
  }

  function DigitValue(c: char): (d: nat)
    requires IsDigit(c)
    ensures d < 10
  {
    (c as int) - ('0' as int)
  }

  function DigitChar(d: nat): (c: char)
    requires d < 10
    ensures IsDigit(c) && DigitValue(c) == d
  {
    (('0' as int) + d) as char
  }

  // ---------------------------------------------------------------------
  // int(...) and str(...) on integers

  /** Python's `int(s)` on a run of decimal digits (leading zeros allowed). */
  function DigitsValue(s: string): nat
    requires AllDigits(s)
  {
    if s == [] then 0 else DigitsValue(s[..|s| - 1]) * 10 + DigitValue(s[|s| - 1])
  }

  /** Python's `str(n)` for a non-negative integer: decimal, no leading zero. */
  function NatToString(n: nat): (r: string)
    ensures r != [] && AllDigits(r)
    ensures |r| > 1 ==> r[0] != '0'
    ensures DigitsValue(r) == n
  {
    if n < 10 then [DigitChar(n)]
    else
      var r := NatToString(n / 10) + [DigitChar(n % 10)];
      assert r[..|r| - 1] == NatToString(n / 10);
      r
  }

  /** Python's `str(i)` for any integer. */
  function IntToString(i: int): (r: string)
    ensures r != [] && (r[0] == '-' <==> i < 0)
    ensures i >= 0 ==> r == NatToString(i)
    ensures i < 0 ==> r[1..] == NatToString(-i)
  {
    if i < 0 then "-" + NatToString(-i) else NatToString(i)
  }

  /**
   * Python's `int(s)` on text written as an optional minus sign and decimal
   * digits; `None` for any other text.
   */
  function ReadInt(s: string): Option<int>
  {
    if |s| > 1 && s[0] == '-' && AllDigits(s[1..]) then Some(-(DigitsValue(s[1..]) as int))
    else if s != [] && AllDigits(s) then Some(DigitsValue(s) as int)
    else None
  }

  /** `int(str(i)) == i`: the integers written to the counts table read back unchanged. */
  lemma IntToStringRoundTrip(i: int)
    ensures ReadInt(IntToString(i)) == Some(i)
    ensures ',' !in IntToString(i) && '\n' !in IntToString(i)
  {
    var s := IntToString(i);
    var digits := NatToString(if i < 0 then -i else i);
    if i < 0 {
      assert s[1..] == digits;
      assert forall k :: 1 <= k < |s| ==> s[k] == digits[k - 1];
    } else {
      assert s == digits && s[0] != '-';
    }
    assert forall k :: 0 <= k < |s| ==> s[k] == '-' || IsDigit(s[k]);
  }

  // ---------------------------------------------------------------------
  // str.strip()

  /** Every character of `s` is whitespace. */
  predicate AllSpace(s: string) {
    forall k :: 0 <= k < |s| ==> IsSpace(s[k])
  }

  /** Number of whitespace characters at the front of `s`. */
  function LeadingSpaces(s: string): (n: nat)
    ensures n <= |s|
    ensures n < |s| ==> !IsSpace(s[n])
  {
    if s == [] || !IsSpace(s[0]) then 0 else 1 + LeadingSpaces(s[1..])
  }

  /** Number of whitespace characters at the back of `s`. */
  function TrailingSpaces(s: string): (n: nat)
    ensures n <= |s|
    ensures n < |s| ==> !IsSpace(s[|s| - 1 - n])
  {
    if s == [] || !IsSpace(s[|s| - 1]) then 0 else 1 + TrailingSpaces(s[..|s| - 1])
  }

  /** The leading whitespace is whitespace. */
  lemma {:induction false} LeadingSpacesAll(s: string)
    ensures AllSpace(s[..LeadingSpaces(s)])
  {
    if s != [] && IsSpace(s[0]) {
      var n := LeadingSpaces(s);
      LeadingSpacesAll(s[1..]);
      assert forall k :: 1 <= k < n ==> s[..n][k] == s[1..][..n - 1][k - 1];
    }
  }

  /** The trailing whitespace is whitespace. */
  lemma {:induction false} TrailingSpacesAll(s: string)
    ensures AllSpace(s[|s| - TrailingSpaces(s)..])
  {
    if s != [] && IsSpace(s[|s| - 1]) {
      var init := s[..|s| - 1];
      var n := TrailingSpaces(s);
      TrailingSpacesAll(init);
      assert forall k :: |s| - n <= k < |s| - 1 ==> s[k] == init[k];
    }
  }

  /**
   * Python's `s.strip()`: the slice of `s` left after removing whitespace at
   * both ends; it neither starts nor ends with whitespace.
   */
  function Strip(s: string): (r: string)
    ensures r != [] ==> !IsSpace(r[0]) && !IsSpace(r[|r| - 1])
  {
    var a := LeadingSpaces(s);
    var t := TrailingSpaces(s[a..]);
    assert a + t < |s| ==> s[a..][|s| - a - 1 - t] == s[|s| - 1 - t];
    s[a..|s| - t]
  }

  /**
   * Stripping only cuts whitespace from the ends: the result is a slice of
   * `s` with nothing but whitespace before it and after it.
   */
  lemma StripSlice(s: string)
    ensures exists a, b :: 0 <= a <= b <= |s| && Strip(s) == s[a..b] && AllSpace(s[..a]) && AllSpace(s[b..])
  {
    var a := LeadingSpaces(s);
    var t := TrailingSpaces(s[a..]);
    LeadingSpacesAll(s);
    TrailingSpacesAll(s[a..]);
    assert s[|s| - t..] == s[a..][|s[a..]| - t..];
    assert Strip(s) == s[a..|s| - t];
  }

  /**
   * Stripping text that has no whitespace at either end, followed by
   * whitespace only (a line break, say), gives the text back.
   */
  lemma StripPadded(s: string, padding: string)
    requires s != [] ==> !IsSpace(s[0]) && !IsSpace(s[|s| - 1])
    requires AllSpace(padding)
    ensures Strip(s + padding) == s
  {
    var x := s + padding;
    if s == [] {
      assert x == padding;
      LeadingAllSpace(padding);
    } else {
      assert x[0] == s[0];
      assert x[0..] == x;
      TrailingPadding(s, padding);
      assert x[..|x| - |padding|] == s;
    }
  }

  /** Text that is all whitespace is all leading whitespace. */
  lemma {:induction false} LeadingAllSpace(padding: string)
    requires AllSpace(padding)
    ensures LeadingSpaces(padding) == |padding|
  {
    if padding != [] {
      LeadingAllSpace(padding[1..]);
    }
  }

  /** Whitespace after a non-space character is exactly the trailing whitespace. */
  lemma {:induction false} TrailingPadding(s: string, padding: string)
    requires s != [] && !IsSpace(s[|s| - 1]) && AllSpace(padding)
    ensures TrailingSpaces(s + padding) == |padding|
    decreases |padding|
  {
    var x := s + padding;
    if padding == [] {
      assert x == s;
    } else {
      var init := padding[..|padding| - 1];
      assert x[..|x| - 1] == s + init;
      TrailingPadding(s, init);
    }
  }

  /**
   * Only whitespace is removed: when `s` holds the whitespace character `c`
   * nowhere but possibly at its last index, the stripped text holds no `c`.
   */
  lemma StripKeepsOut(s: string, c: char)
    requires s != [] && IsSpace(c) && c !in s[..|s| - 1]
    ensures c !in Strip(s)
  {
    var a := LeadingSpaces(s);
    var t := TrailingSpaces(s[a..]);
    var r := Strip(s);
    forall k | 0 <= k < |r|
      ensures r[k] != c
    {
      if k < |r| - 1 {
        assert r[k] == s[..|s| - 1][a + k];
      }
    }
  }

  // ---------------------------------------------------------------------
  // str.lower() on ASCII letters

  predicate IsUpper(c: char) {
    'A' <= c <= 'Z'
  }

  function LowerChar(c: char): (r: char)
    ensures !IsUpper(r)
    ensures !IsUpper(c) ==> r == c
    ensures IsUpper(c) ==> r as int == c as int + 32
  {
    if IsUpper(c) then ((c as int) + 32) as char else c
  }

  /** `s.lower()`: every capital letter replaced by its small letter, nothing else touched. */
  function Lower(s: string): (r: string)
    ensures |r| == |s|
    ensures forall k :: 0 <= k < |r| ==> !IsUpper(r[k]) && r[k] == LowerChar(s[k])
  {
    seq(|s|, k requires 0 <= k < |s| => LowerChar(s[k]))
  }

  // ---------------------------------------------------------------------
  // str.split(sep) and sep.join(parts) for a one-character separator

  /** Index of the first occurrence of `c` in `s`. */
  function IndexOf(s: string, c: char): (i: nat)
    requires c in s
    ensures i < |s| && s[i] == c && c !in s[..i]
  {
    if s[0] == c then 0
    else
      var i := 1 + IndexOf(s[1..], c);
      assert s[..i] == [s[0]] + s[1..][..i - 1];
      i
  }

  /** Number of occurrences of `c` in `s`. */
  function Count(s: string, c: char): nat
  {
    if s == [] then 0 else (if s[0] == c then 1 else 0) + Count(s[1..], c)
  }

  /** `''.join(parts)`. */
  function Concat(parts: seq<string>): string
  {
    if parts == [] then [] else parts[0] + Concat(parts[1..])
  }

  /** A character that occurs in no part does not occur in their concatenation. */
  lemma {:induction false} ConcatAvoids(parts: seq<string>, c: char)
    requires forall k :: 0 <= k < |parts| ==> c !in parts[k]
    ensures c !in Concat(parts)
  {
    if parts != [] {
      ConcatAvoids(parts[1..], c);
      assert c !in parts[0];
    }
  }

  /** A character other than the separator that occurs in no part does not occur in their join. */
  lemma {:induction false} JoinAvoids(parts: seq<string>, sep: char, c: char)
    requires c != sep
    requires forall k :: 0 <= k < |parts| ==> c !in parts[k]
    ensures c !in Join(parts, sep)
  {
    if |parts| > 1 {
      JoinAvoids(parts[1..], sep, c);
      assert c !in parts[0];
    }
  }

  /** `sep.join(parts)`. */
  function Join(parts: seq<string>, sep: char): string
  {
    if parts == [] then []
    else if |parts| == 1 then parts[0]
    else parts[0] + [sep] + Join(parts[1..], sep)
  }

  /**
   * Python's `s.split(sep)`: the pieces between occurrences of `sep`, one
   * more than there are separators; joining them back gives `s`.
   */
  function Split(s: string, sep: char): (parts: seq<string>)
    ensures |parts| == Count(s, sep) + 1
    ensures forall k :: 0 <= k < |parts| ==> sep !in parts[k]
    ensures Join(parts, sep) == s
    decreases |s|
  {
    if sep !in s then
      CountAbsent(s, sep);
      [s]
    else
      var i := IndexOf(s, sep);
      var rest := Split(s[i + 1..], sep);
      SplitAt(s, sep, i);
      JoinCons(s[..i], rest, sep);
      [s[..i]] + rest
  }

  lemma SplitAt(s: string, sep: char, i: nat)
    requires i < |s| && s[i] == sep && sep !in s[..i]
    ensures Count(s, sep) == 1 + Count(s[i + 1..], sep)
    ensures s == s[..i] + [sep] + s[i + 1..]
  {
    CountSplit(s[..i], s[i..], sep);
    CountAbsent(s[..i], sep);
    assert s[..i] + s[i..] == s;
    assert s[i..][1..] == s[i + 1..];
  }

  lemma JoinCons(x: string, parts: seq<string>, sep: char)
    requires parts != []
    ensures Join([x] + parts, sep) == x + [sep] + Join(parts, sep)
  {
    assert ([x] + parts)[1..] == parts;
  }

  lemma {:induction false} CountAbsent(s: string, c: char)
    requires c !in s
    ensures Count(s, c) == 0
  {
    if s != [] {
      assert s == [s[0]] + s[1..];
      CountAbsent(s[1..], c);
    }
  }

  lemma {:induction false} CountSplit(a: string, b: string, c: char)
    ensures Count(a + b, c) == Count(a, c) + Count(b, c)
  {
    if a == [] {
      assert a + b == b;
    } else {
      assert (a + b)[0] == a[0];
      assert (a + b)[1..] == a[1..] + b;
      CountSplit(a[1..], b, c);
    }
  }

  /**
   * Splitting a join gives the parts back, provided no part contains the
   * separator: the partner of `Join` and `Split`.
   */
  lemma {:induction false} SplitJoin(parts: seq<string>, sep: char)
    requires parts != []
    requires forall k :: 0 <= k < |parts| ==> sep !in parts[k]
    ensures Split(Join(parts, sep), sep) == parts
  {
    if |parts| == 1 {
      assert sep !in parts[0];
    } else {
      var rest := Join(parts[1..], sep);
      var s := parts[0] + [sep] + rest;
      assert sep !in parts[0];
      assert s[|parts[0]|] == sep;
      assert sep in s;
      var i := IndexOf(s, sep);
      assert forall j :: 0 <= j < |parts[0]| ==> s[j] == parts[0][j];
      assert forall j :: 0 <= j < i ==> s[j] == s[..i][j];
      assert i == |parts[0]|;
      assert s[..i] == parts[0];
      assert s[i + 1..] == rest;
      SplitJoin(parts[1..], sep);
    }
  }

  // ---------------------------------------------------------------------
  // re.search(TAG + r'(\d+)') and re.search(TAG + r'(\d+\.\d+)')

  /** The capture group after the tag: `\d+` or `\d+\.\d+`. */
  datatype Capture = Integer | Decimal

  /** Length of the longest run of digits starting at index `k` of `s`. */
  function DigitRun(s: string, k: nat): (n: nat)
    requires k <= |s|
    ensures k + n <= |s|
    decreases |s| - k
  {
    if k == |s| || !IsDigit(s[k]) then 0 else 1 + DigitRun(s, k + 1)
  }

  /** The run is all digits and is followed by a non-digit or the end. */
  lemma {:induction false} DigitRunSpec(s: string, k: nat)
    requires k <= |s|
    ensures AllDigits(s[k..k + DigitRun(s, k)])
    ensures k + DigitRun(s, k) < |s| ==> !IsDigit(s[k + DigitRun(s, k)])
    decreases |s| - k
  {
    if k < |s| && IsDigit(s[k]) {
      DigitRunSpec(s, k + 1);
      var n := DigitRun(s, k);
      assert s[k..k + n] == [s[k]] + s[k + 1..k + n];
    }
  }

  /** A run of `m` digits ending at the end of `s` or before a non-digit is the longest one. */
  lemma DigitRunExact(s: string, k: nat, m: nat)
    requires k + m <= |s| && AllDigits(s[k..k + m])
    requires k + m < |s| ==> !IsDigit(s[k + m])
    ensures DigitRun(s, k) == m
  {
    var n := DigitRun(s, k);
    DigitRunSpec(s, k);
    assert forall j :: k <= j < k + m ==> IsDigit(s[k..k + m][j - k]) && s[k..k + m][j - k] == s[j];
    assert forall j :: k <= j < k + n ==> IsDigit(s[k..k + n][j - k]) && s[k..k + n][j - k] == s[j];
  }

  /** Length of the text the capture group matches at index `k`, 0 when it does not match. */
  function CaptureLength(s: string, k: nat, kind: Capture): nat
    requires k <= |s|
  {
    var whole := DigitRun(s, k);
    match kind
    case Integer => whole
    case Decimal =>
      if whole > 0 && k + whole < |s| && s[k + whole] == '.' && DigitRun(s, k + whole + 1) > 0
      then whole + 1 + DigitRun(s, k + whole + 1)
      else 0
  }

  /** The pattern `tag` followed by its capture group matches at index `i` of `s`. */
  predicate MatchAt(s: string, tag: string, kind: Capture, i: nat) {
    i + |tag| <= |s| && s[i..i + |tag|] == tag && CaptureLength(s, i + |tag|, kind) > 0
  }

  /** The leftmost index at or after `i` where the pattern matches, as `re.search` scans. */
  function FindFrom(s: string, tag: string, kind: Capture, i: nat): (r: Option<nat>)
    ensures r.Some? ==> i <= r.value && MatchAt(s, tag, kind, r.value)
    decreases |s| - i
  {
    if i + |tag| > |s| then None
    else if MatchAt(s, tag, kind, i) then Some(i)
    else FindFrom(s, tag, kind, i + 1)
  }

  /** `FindFrom` fails exactly when the pattern matches nowhere at or after `i`. */
  lemma {:induction false} FindFromNone(s: string, tag: string, kind: Capture, i: nat)
    ensures FindFrom(s, tag, kind, i).None? <==> forall j :: i <= j ==> !MatchAt(s, tag, kind, j)
    decreases |s| - i
  {
    if i + |tag| <= |s| && !MatchAt(s, tag, kind, i) {
      FindFromNone(s, tag, kind, i + 1);
    }
  }

  /** `FindFrom` returns the leftmost match at or after `lo`. */
  lemma {:induction false} FindFromFirst(s: string, tag: string, kind: Capture, lo: nat, i: nat)
    requires lo <= i && MatchAt(s, tag, kind, i)
    requires forall j :: lo <= j < i ==> !MatchAt(s, tag, kind, j)
    ensures FindFrom(s, tag, kind, lo) == Some(i)
    decreases i - lo
  {
    if lo < i {
      FindFromFirst(s, tag, kind, lo + 1, i);
    }
  }

  /** `re.search(tag + group, s).group(1)`, or None when the search finds nothing. */
  function Search(s: string, tag: string, kind: Capture): (r: Option<string>)
    ensures r.Some? && kind == Integer ==> r.value != [] && AllDigits(r.value)
  {
    match FindFrom(s, tag, kind, 0)
    case None => None
    case Some(i) =>
      var k := i + |tag|;
      DigitRunSpec(s, k);
      Some(s[k..k + CaptureLength(s, k, kind)])
  }

  /** The search finds nothing exactly when the pattern matches nowhere. */
  lemma SearchFails(s: string, tag: string, kind: Capture)
    ensures Search(s, tag, kind).None? <==> forall j :: 0 <= j ==> !MatchAt(s, tag, kind, j)
  {
    FindFromNone(s, tag, kind, 0);
  }

  /** The pattern cannot match where the text does not hold the tag's first character. */
  lemma NoMatchBetween(s: string, tag: string, kind: Capture, lo: nat, hi: nat)
    requires tag != [] && hi <= |s|
    requires forall j :: lo <= j < hi ==> s[j] != tag[0]
    ensures forall j :: lo <= j < hi ==> !MatchAt(s, tag, kind, j)
  {
    forall j | lo <= j < hi
      ensures !MatchAt(s, tag, kind, j)
    {
      if j + |tag| <= |s| {
        assert s[j..j + |tag|][0] == s[j];
      }
    }
  }

  /**
   * `TAG(\d+)` is found at `i` when the tag is there, followed by `m` digits
   * and then a non-digit or the end, and the tag's first character does not
   * occur earlier.
   */
  lemma SearchInteger(s: string, tag: string, i: nat, m: nat)
    requires tag != [] && m > 0 && i + |tag| + m <= |s|
    requires s[i..i + |tag|] == tag
    requires AllDigits(s[i + |tag|..i + |tag| + m])
    requires i + |tag| + m < |s| ==> !IsDigit(s[i + |tag| + m])
    requires forall j :: 0 <= j < i ==> s[j] != tag[0]
    ensures Search(s, tag, Integer) == Some(s[i + |tag|..i + |tag| + m])
  {
    var k := i + |tag|;
    DigitRunExact(s, k, m);
    assert CaptureLength(s, k, Integer) == m;
    NoMatchBetween(s, tag, Integer, 0, i);
    SearchAt(s, tag, Integer, i);
  }

  /** `SearchInteger`, naming the digits found. */
  lemma SearchIntegerExact(s: string, tag: string, i: nat, digits: string)
    requires tag != [] && |digits| > 0 && i + |tag| + |digits| <= |s|
    requires s[i..i + |tag|] == tag
    requires AllDigits(s[i + |tag|..i + |tag| + |digits|]) && s[i + |tag|..i + |tag| + |digits|] == digits
    requires i + |tag| + |digits| < |s| ==> !IsDigit(s[i + |tag| + |digits|])
    requires forall j :: 0 <= j < i ==> s[j] != tag[0]
    ensures Search(s, tag, Integer) == Some(digits)
  {
    SearchInteger(s, tag, i, |digits|);
  }

  /**
   * `TAG(\d+\.\d+)` is found at `i` when the tag is there, followed by `m1`
   * digits, a dot and `m2` digits and then a non-digit or the end, and the
   * pattern matches nowhere earlier.
   */
  lemma SearchDecimal(s: string, tag: string, i: nat, m1: nat, m2: nat)
    requires m1 > 0 && m2 > 0 && i + |tag| + m1 + 1 + m2 <= |s|
    requires s[i..i + |tag|] == tag
    requires AllDigits(s[i + |tag|..i + |tag| + m1]) && s[i + |tag| + m1] == '.'
    requires AllDigits(s[i + |tag| + m1 + 1..i + |tag| + m1 + 1 + m2])
    requires i + |tag| + m1 + 1 + m2 < |s| ==> !IsDigit(s[i + |tag| + m1 + 1 + m2])
    requires forall j :: 0 <= j < i ==> !MatchAt(s, tag, Decimal, j)
    ensures Search(s, tag, Decimal) == Some(s[i + |tag|..i + |tag| + m1 + 1 + m2])
  {
    var k := i + |tag|;
    DigitRunExact(s, k, m1);
    DigitRunExact(s, k + m1 + 1, m2);
    assert CaptureLength(s, k, Decimal) == m1 + 1 + m2;
    SearchAt(s, tag, Decimal, i);
  }

  /** `t` occurs in `s` starting at index `j`. */
  predicate OccursAt(s: string, t: string, j: nat) {
    j + |t| <= |s| && s[j..j + |t|] == t
  }

  /**
   * Text that holds no occurrence of the tag, right in front of the tag,
   * holds no match of the pattern either, when the tag's first character
   * occurs nowhere else in it: a match starting in the text would either lie
   * inside it or overlap the tag that follows.
   */
  lemma NoMatchInGap(s: string, tag: string, kind: Capture, lo: nat, gap: string)
    requires tag != [] && tag[0] !in tag[1..]
    requires lo + |gap| + |tag| <= |s| && s[lo..lo + |gap|] == gap && s[lo + |gap|..lo + |gap| + |tag|] == tag
    requires forall j :: 0 <= j < |gap| ==> !OccursAt(gap, tag, j)
    ensures forall j :: lo <= j < lo + |gap| ==> !MatchAt(s, tag, kind, j)
  {
    forall j | lo <= j < lo + |gap|
      ensures !MatchAt(s, tag, kind, j)
    {
      if j + |tag| <= lo + |gap| && j + |tag| <= |s| && s[j..j + |tag|] == tag {
        OccursInside(s, tag, lo, gap, j);
      }
    }
  }

  /** An occurrence of `t` inside the part of `s` that is `gap` is an occurrence in `gap`. */
  lemma OccursInside(s: string, t: string, lo: nat, gap: string, j: nat)
    requires lo <= j && j + |t| <= lo + |gap| <= |s| && s[lo..lo + |gap|] == gap && s[j..j + |t|] == t
    ensures OccursAt(gap, t, j - lo)
  {
    var p := j - lo;
    forall u | p <= u < p + |t|
      ensures gap[u] == s[lo + u]
    {
      assert gap[u] == s[lo..lo + |gap|][u];
    }
    assert gap[p..p + |t|] == s[j..j + |t|];
  }

  /** `IndexOf` finds the first occurrence. */
  lemma IndexOfAt(s: string, c: char, i: nat)
    requires i < |s| && s[i] == c && c !in s[..i]
    ensures IndexOf(s, c) == i
  {
    var r := IndexOf(s, c);
    assert forall j :: 0 <= j < r ==> s[..r][j] == s[j];
    assert forall j :: 0 <= j < i ==> s[..i][j] == s[j];
  }

  /** When the pattern first matches at `i`, the search returns the capture there. */
  lemma SearchAt(s: string, tag: string, kind: Capture, i: nat)
    requires MatchAt(s, tag, kind, i)
    requires forall j :: 0 <= j < i ==> !MatchAt(s, tag, kind, j)
    ensures Search(s, tag, kind) == Some(s[i + |tag|..i + |tag| + CaptureLength(s, i + |tag|, kind)])
  {
    FindFromFirst(s, tag, kind, 0, i);
  }
}
