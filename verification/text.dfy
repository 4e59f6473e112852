/** The Python string operations the telemetry parser relies on, over
    `seq<char>`: `str.strip()`, `str.split(sep)`, `str.split()`, `'\n'.join`,
    `int()` on a string, and the two regular expressions the parser uses.
    Whitespace is Python's `str.isspace` set.
 */
module Text {
  import opened Outcomes

  // ------------------------------------------------------------ characters

  /** Python's `str.isspace` for a single character. */
  predicate IsSpace(c: char) {
    var n := c as int;
    || n == 32 || 9 <= n <= 13 || 28 <= n <= 31
    || n == 0x85 || n == 0xA0 || n == 0x1680
    || 0x2000 <= n <= 0x200A || n == 0x2028 || n == 0x2029
    || n == 0x202F || n == 0x205F || n == 0x3000
  }

  predicate AllSpace(s: string) {
    forall i :: 0 <= i < |s| ==> IsSpace(s[i])
  }

  predicate NoSpace(s: string) {
    forall i :: 0 <= i < |s| ==> !IsSpace(s[i])
  }

  predicate IsDigit(c: char) {
    '0' <= c <= '9'
  }

  predicate AllDigits(s: string) {
    forall i :: 0 <= i < |s| ==> IsDigit(s[i])
  }

  function DigitValue(c: char): nat
    requires IsDigit(c)
  {
    (c as int) - ('0' as int)
  }

  function DigitChar(d: nat): (c: char)
    requires d < 10
    ensures IsDigit(c) && DigitValue(c) == d
  {
    ('0' as int + d) as char
  }

  // ------------------------------------------------------------- stripping

  /** Which characters a trim removes. `str.strip` removes every
      `str.isspace` character. `int()` keeps every character below 127 as it
      is and then skips only C whitespace, so of the ASCII characters it
      skips space and `\t\n\v\f\r` but not the separators U+001C..U+001F;
      non-ASCII whitespace it skips like `str.strip`. */
  datatype Blanks = StrBlanks | IntBlanks

  predicate IsBlank(c: char, b: Blanks) {
    IsSpace(c) && (b.IntBlanks? ==> !(28 <= c as int <= 31))
  }

  predicate AllBlank(s: string, b: Blanks) {
    forall i :: 0 <= i < |s| ==> IsBlank(s[i], b)
  }

  /** Drops the leading blanks and nothing else (`s.lstrip()` for
      `StrBlanks`). */
  function TrimStart(s: string, b: Blanks): (r: string)
    ensures |r| <= |s|
    ensures forall i :: 0 <= i < |r| ==> r[i] == s[|s| - |r| + i]
    ensures forall i :: 0 <= i < |s| - |r| ==> IsBlank(s[i], b)
    ensures |r| > 0 ==> !IsBlank(r[0], b)
  {
    if |s| > 0 && IsBlank(s[0], b) then TrimStart(s[1..], b) else s
  }

  /** Drops the trailing blanks and nothing else (`s.rstrip()` for
      `StrBlanks`). */
  function TrimEnd(s: string, b: Blanks): (r: string)
    ensures |r| <= |s|
    ensures forall i :: 0 <= i < |r| ==> r[i] == s[i]
    ensures forall i :: |r| <= i < |s| ==> IsBlank(s[i], b)
    ensures |r| > 0 ==> !IsBlank(r[|r| - 1], b)
  {
    if |s| > 0 && IsBlank(s[|s| - 1], b) then TrimEnd(s[..|s| - 1], b) else s
  }

  /** The part of `s` between its leading and trailing blanks. */
  function Trim(s: string, b: Blanks): (r: string)
    ensures |r| > 0 ==> !IsBlank(r[0], b) && !IsBlank(r[|r| - 1], b)
  {
    TrimEnd(TrimStart(s, b), b)
  }

  /** `s.strip()`: the part of `s` between its leading and trailing
      whitespace. */
  function Strip(s: string): (r: string)
    ensures |r| > 0 ==> !IsSpace(r[0]) && !IsSpace(r[|r| - 1])
  {
    Trim(s, StrBlanks)
  }

  /** A string that neither starts nor ends with a blank is its own trim. */
  lemma TrimTrimmed(s: string, b: Blanks)
    requires |s| > 0 ==> !IsBlank(s[0], b) && !IsBlank(s[|s| - 1], b)
    ensures Trim(s, b) == s
  {
  }

  /** A string that neither starts nor ends with whitespace is its own
      strip. */
  lemma StripTrimmed(s: string)
    requires |s| > 0 ==> !IsSpace(s[0]) && !IsSpace(s[|s| - 1])
    ensures Strip(s) == s
  {
    TrimTrimmed(s, StrBlanks);
  }

  // -------------------------------------------------------------- matching

  /** `sep` occurs in `s` at position `j`. */
  predicate MatchAt(s: string, sep: string, j: int) {
    0 <= j && j + |sep| <= |s| && s[j..j + |sep|] == sep
  }

  predicate Contains(s: string, sep: string) {
    exists j :: 0 <= j <= |s| && MatchAt(s, sep, j)
  }

  /** The first occurrence of `sep` at or after `from`, or `|s|` when there
      is none. */
  function FirstMatch(s: string, sep: string, from: nat): (k: nat)
    requires |sep| > 0 && from <= |s|
    ensures from <= k <= |s|
    ensures k < |s| ==> MatchAt(s, sep, k)
    ensures forall j :: from <= j < k ==> !MatchAt(s, sep, j)
    ensures k == |s| ==> forall j :: from <= j ==> !MatchAt(s, sep, j)
    decreases |s| - from
  {
    if from + |sep| > |s| then |s|
    else if s[from..from + |sep|] == sep then from
    else FirstMatch(s, sep, from + 1)
  }

  // -------------------------------------------------------- split and join

  /** `sep.join(parts)`. */
  function Join(parts: seq<string>, sep: string): string {
    if |parts| == 0 then ""
    else if |parts| == 1 then parts[0]
    else parts[0] + sep + Join(parts[1..], sep)
  }

  /** A join starts with its first part's first character and ends with
      its last part's last character. */
  lemma {:induction false} JoinEnds(parts: seq<string>, sep: string)
    requires |parts| > 0 && forall i :: 0 <= i < |parts| ==> |parts[i]| > 0
    ensures |Join(parts, sep)| > 0
    ensures Join(parts, sep)[0] == parts[0][0]
    ensures Join(parts, sep)[|Join(parts, sep)| - 1] == parts[|parts| - 1][|parts[|parts| - 1]| - 1]
    decreases |parts|
  {
    if |parts| > 1 {
      var rest := parts[1..];
      JoinEnds(rest, sep);
      assert rest[|rest| - 1] == parts[|parts| - 1];
    }
  }

  /** A prefix of `s` that stops before `k` holds no occurrence that does
      not also occur in `s`. */
  lemma MatchInPrefix(s: string, sep: string, k: nat, j: int)
    requires k <= |s| && MatchAt(s[..k], sep, j)
    ensures MatchAt(s, sep, j)
  {
    assert s[..k][j..j + |sep|] == s[j..j + |sep|];
  }

  /** `s.split(sep)`: the pieces between the occurrences of `sep`, found left
      to right. Joining them back with `sep` gives `s`, and no piece holds
      `sep`. */
  function SplitOn(s: string, sep: string): (r: seq<string>)
    requires |sep| > 0
    ensures |r| >= 1
    ensures Join(r, sep) == s
    ensures forall i :: 0 <= i < |r| ==> !Contains(r[i], sep)
    ensures forall i :: 0 <= i < |r| - 1 ==> FirstMatch(r[i] + sep, sep, 0) == |r[i]|
    decreases |s|
  {
    var k := FirstMatch(s, sep, 0);
    if k == |s| then
      [s]
    else
      var head := s[..k];
      var rest := SplitOn(s[k + |sep|..], sep);
      assert !Contains(head, sep) by {
        forall j | MatchAt(head, sep, j)
          ensures false
        {
          MatchInPrefix(s, sep, k, j);
        }
      }
      assert s == head + sep + s[k + |sep|..];
      CutAtFirstMatch(head, sep, s[k + |sep|..]);
      [head] + rest
  }

  /** The piece before the first occurrence, with the separator after it,
      has its first occurrence right after the piece: each cut is at the
      leftmost occurrence. */
  lemma CutAtFirstMatch(head: string, sep: string, tail: string)
    requires |sep| > 0 && FirstMatch(head + sep + tail, sep, 0) == |head|
    ensures FirstMatch(head + sep, sep, 0) == |head|
  {
    FirstMatchInPrefix(head + sep, tail, sep);
  }

  /** A first occurrence of `a + b` that ends within `a` is the first
      occurrence of `a`. */
  lemma FirstMatchInPrefix(a: string, b: string, sep: string)
    requires |sep| > 0 && FirstMatch(a + b, sep, 0) + |sep| <= |a|
    ensures FirstMatch(a, sep, 0) == FirstMatch(a + b, sep, 0)
  {
    var k := FirstMatch(a + b, sep, 0);
    MatchAtConcat(a, b, sep, k);
    var first := FirstMatch(a, sep, 0);
    FirstMatchExtends(a, b, sep, first);
  }

  /** Splitting a joined sequence recovers it, provided the separator occurs
      nowhere except between the parts: no part holds it, and no part
      together with the separator after it holds an earlier one. */
  lemma {:induction false} SplitJoin(parts: seq<string>, sep: string)
    requires |sep| > 0 && |parts| >= 1
    requires forall i :: 0 <= i < |parts| - 1 ==> FirstMatch(parts[i] + sep, sep, 0) == |parts[i]|
    requires !Contains(parts[|parts| - 1], sep)
    ensures SplitOn(Join(parts, sep), sep) == parts
    decreases |parts|
  {
    var s := Join(parts, sep);
    if |parts| == 1 {
      assert s == parts[0];
    } else {
      var p := parts[0];
      var rest := Join(parts[1..], sep);
      assert s == p + sep + rest;
      SplitJoin(parts[1..], sep);
      FirstMatchExtends(p + sep, rest, sep, |p|);
      assert s[|p| + |sep|..] == rest;
    }
  }

  /** An occurrence that ends within `a` is the same in `a + b`. */
  lemma MatchAtConcat(a: string, b: string, sep: string, j: int)
    requires j + |sep| <= |a|
    ensures MatchAt(a + b, sep, j) <==> MatchAt(a, sep, j)
  {
    if 0 <= j {
      assert (a + b)[j..j + |sep|] == a[j..j + |sep|];
    }
  }

  /** A first occurrence within `a` stays the first occurrence in `a + b`. */
  lemma FirstMatchExtends(a: string, b: string, sep: string, k: nat)
    requires |sep| > 0 && FirstMatch(a, sep, 0) == k && k < |a|
    ensures FirstMatch(a + b, sep, 0) == k
  {
    MatchAtConcat(a, b, sep, k);
    forall j | 0 <= j < k
      ensures !MatchAt(a + b, sep, j)
    {
      MatchAtConcat(a, b, sep, j);
    }
    FirstMatchLeast(a + b, sep, k);
  }

  /** The first occurrence is the least one. */
  lemma FirstMatchLeast(s: string, sep: string, k: nat)
    requires |sep| > 0 && k <= |s| && MatchAt(s, sep, k)
    requires forall j :: 0 <= j < k ==> !MatchAt(s, sep, j)
    ensures FirstMatch(s, sep, 0) == k
  {
    var m := FirstMatch(s, sep, 0);
    assert !(m < k);
    assert !(k < m);
  }

  // ------------------------------------------------------------ str.split()

  /** Index of the first whitespace character of `s`, or `|s|`. */
  function FirstSpace(s: string): (k: nat)
    ensures k <= |s| && NoSpace(s[..k])
    ensures k < |s| ==> IsSpace(s[k])
  {
    if |s| == 0 || IsSpace(s[0]) then 0
    else
      var k := 1 + FirstSpace(s[1..]);
      assert s[..k] == [s[0]] + s[1..][..k - 1];
      k
  }

  /** `s.split()`: the maximal runs of non-whitespace, in order. */
  function Words(s: string): (r: seq<string>)
    ensures forall i :: 0 <= i < |r| ==> |r[i]| > 0 && NoSpace(r[i])
    decreases |s|
  {
    if |s| == 0 then []
    else if IsSpace(s[0]) then Words(s[1..])
    else
      var k := FirstSpace(s);
      [s[..k]] + Words(s[k..])
  }

  /** Words joined by single spaces split back into the same words. */
  lemma {:induction false} WordsOfJoin(words: seq<string>)
    requires forall i :: 0 <= i < |words| ==> |words[i]| > 0 && NoSpace(words[i])
    ensures Words(Join(words, " ")) == words
    decreases |words|
  {
    if |words| == 1 {
      WordAlone(words[0], "");
      assert words[0] + "" == words[0];
    } else if |words| > 1 {
      var rest := Join(words[1..], " ");
      WordsOfJoin(words[1..]);
      assert Join(words, " ") == words[0] + (" " + rest);
      WordAlone(words[0], " " + rest);
      assert (" " + rest)[1..] == rest;
      assert Words(" " + rest) == Words(rest);
    }
  }

  /** A word followed by nothing or by whitespace is split off whole. */
  lemma WordAlone(w: string, tail: string)
    requires |w| > 0 && NoSpace(w)
    requires |tail| > 0 ==> IsSpace(tail[0])
    ensures Words(w + tail) == [w] + Words(tail)
  {
    var s := w + tail;
    FirstSpaceOf(w, tail);
    assert s[..|w|] == w && s[|w|..] == tail;
  }

  /** The first space after a spaceless word is where the word ends. */
  lemma {:induction false} FirstSpaceOf(w: string, tail: string)
    requires NoSpace(w) && (|tail| > 0 ==> IsSpace(tail[0]))
    ensures FirstSpace(w + tail) == |w|
    decreases |w|
  {
    if |w| > 0 {
      assert (w + tail)[1..] == w[1..] + tail;
      FirstSpaceOf(w[1..], tail);
    } else {
      assert w + tail == tail;
    }
  }

  // ------------------------------------------------------------- integers

  /** The value of a run of decimal digits, most significant first. */
  function DigitsValue(s: string): nat
    requires AllDigits(s)
  {
    if |s| == 0 then 0 else DigitsValue(s[..|s| - 1]) * 10 + DigitValue(s[|s| - 1])
  }

  /** The decimal representation of `n`, without leading zeros. */
  function ShowNat(n: nat): (s: string)
    ensures |s| > 0 && AllDigits(s)
  {
    if n < 10 then [DigitChar(n)] else ShowNat(n / 10) + [DigitChar(n % 10)]
  }

  /** Reading back a number's representation gives the number. */
  lemma {:induction false} ShowNatValue(n: nat)
    ensures DigitsValue(ShowNat(n)) == n
  {
    if n >= 10 {
      var s := ShowNat(n);
      assert s[..|s| - 1] == ShowNat(n / 10);
      ShowNatValue(n / 10);
    }
  }

  /** `str(n)` for an `int`. */
  function ShowInt(n: int): string {
    if n < 0 then "-" + ShowNat(-n) else ShowNat(n)
  }

  /** Digits with single underscores between them, as `int()` accepts
      after the sign. */
  predicate IsDigitGroup(s: string) {
    && |s| > 0 && IsDigit(s[0]) && IsDigit(s[|s| - 1])
    && (forall i :: 0 <= i < |s| ==> IsDigit(s[i]) || s[i] == '_')
    && NoDoubleUnderscore(s)
  }

  /** No two underscores in a row. */
  predicate NoDoubleUnderscore(s: string) {
    |s| < 2 || ((s[0] != '_' || s[1] != '_') && NoDoubleUnderscore(s[1..]))
  }

  /** `s` without its underscores. */
  function DropUnderscores(s: string): (r: string)
    ensures |r| <= |s|
    ensures (forall i :: 0 <= i < |s| ==> IsDigit(s[i]) || s[i] == '_') ==> AllDigits(r)
  {
    if |s| == 0 then ""
    else if s[0] == '_' then DropUnderscores(s[1..])
    else [s[0]] + DropUnderscores(s[1..])
  }

  /** `int(s)` in base 10: surrounding blanks of `int()` are ignored, one
      sign is allowed, and single underscores may separate digits. Only
      ASCII digits are recognised. */
  function ParseInt(s: string): (r: Option<int>)
    ensures r.Some? ==> |Trim(s, IntBlanks)| > 0
  {
    ParseSigned(Trim(s, IntBlanks))
  }

  /** An optional sign followed by a digit group, with nothing around it. */
  function ParseSigned(t: string): (r: Option<int>)
    ensures r.Some? ==> |t| > 0
  {
    if |t| > 0 && t[0] == '-' then
      match ParseUnsigned(t[1..])
      case None => None
      case Some(v) => Some(-v)
    else if |t| > 0 && t[0] == '+' then ParseUnsigned(t[1..])
    else ParseUnsigned(t)
  }

  /** A digit group read as a number. */
  function ParseUnsigned(body: string): (r: Option<int>)
    ensures r.Some? ==> IsDigitGroup(body) && r.value >= 0
  {
    if IsDigitGroup(body) then Some(DigitsValue(DropUnderscores(body))) else None
  }

  /** A plain run of digits is a digit group with nothing to drop. */
  lemma {:induction false} DigitsAreGroup(d: string)
    requires |d| > 0 && AllDigits(d)
    ensures IsDigitGroup(d) && DropUnderscores(d) == d
    decreases |d|
  {
    if |d| > 1 {
      DigitsAreGroup(d[1..]);
      assert d == [d[0]] + d[1..];
    }
  }

  /** A run of digits reads as its value. */
  lemma ParseUnsignedDigits(d: string)
    requires |d| > 0 && AllDigits(d)
    ensures ParseUnsigned(d) == Some(DigitsValue(d) as int)
  {
    DigitsAreGroup(d);
  }

  /** A run of digits, with or without a minus sign, reads as its value. */
  lemma ParseSignedDigits(d: string)
    requires |d| > 0 && AllDigits(d)
    ensures ParseSigned(d) == Some(DigitsValue(d) as int)
    ensures ParseSigned("-" + d) == Some(-(DigitsValue(d) as int))
  {
    ParseUnsignedDigits(d);
    NegativeDigits(d);
  }

  lemma NegativeDigits(d: string)
    requires |d| > 0 && AllDigits(d) && ParseUnsigned(d) == Some(DigitsValue(d) as int)
    ensures ParseSigned("-" + d) == Some(-(DigitsValue(d) as int))
  {
    var t := "-" + d;
    assert |t| > 0 && t[0] == '-';
    assert t[1..] == d;
  }

  /** `int(str(n)) == n`. */
  lemma ParseShowInt(n: int)
    ensures ParseInt(ShowInt(n)) == Some(n)
  {
    var m: nat := if n < 0 then -n else n;
    var digits := ShowNat(m);
    ShowNatValue(m);
    ParseSignedDigits(digits);
    TrimTrimmed(ShowInt(n), IntBlanks);
  }

  /** Surrounding blanks of `int()` do not change what it reads. */
  lemma ParseIntIgnoresPadding(pre: string, s: string, post: string)
    requires AllBlank(pre, IntBlanks) && AllBlank(post, IntBlanks)
    ensures ParseInt(pre + s + post) == ParseInt(s)
  {
    TrimPadding(pre, s, post, IntBlanks);
  }

  /** `int()` does not skip the ASCII separators that `str.strip` removes:
      with U+001C after a digit, `int` fails while `strip` drops it. */
  lemma IntKeepsSeparators()
    ensures Strip(['1', 28 as char]) == "1"
    ensures ParseInt(['1', 28 as char]) == None
  {
    assert ['1', 28 as char][..1] == "1";
  }

  /** Space and tab around a digit are skipped by `int()`. */
  lemma IntSkipsSpaceAndTab()
    ensures ParseInt([' ', '1', '\t']) == Some(1)
  {
    var one := "1";
    SkipLeadingSpace();
    SkipTrailingTab();
    assert ParseSigned(one) == Some(1) by {
      assert DigitsValue(one) == 1 by {
        assert one[..0] == "";
      }
      ParseUnsignedDigits(one);
    }
  }

  /** `int()` skips the leading space. */
  lemma SkipLeadingSpace()
    ensures TrimStart([' ', '1', '\t'], IntBlanks) == ['1', '\t']
  {
    assert IsBlank(' ', IntBlanks) && !IsBlank('1', IntBlanks);
    assert [' ', '1', '\t'][1..] == ['1', '\t'];
  }

  /** `int()` skips the trailing tab. */
  lemma SkipTrailingTab()
    ensures TrimEnd(['1', '\t'], IntBlanks) == "1"
  {
    assert IsBlank('\t', IntBlanks) && !IsBlank('1', IntBlanks);
    assert ['1', '\t'][..1] == "1";
  }

  /** `strip` removes any whitespace padding and nothing else. */
  lemma StripPadding(pre: string, s: string, post: string)
    requires AllSpace(pre) && AllSpace(post)
    ensures Strip(pre + s + post) == Strip(s)
  {
    TrimPadding(pre, s, post, StrBlanks);
  }

  lemma TrimPadding(pre: string, s: string, post: string, b: Blanks)
    requires AllBlank(pre, b) && AllBlank(post, b)
    ensures Trim(pre + s + post, b) == Trim(s, b)
  {
    calc {
      Trim(pre + s + post, b);
      { assert pre + s + post == pre + (s + post); }
      TrimEnd(TrimStart(pre + (s + post), b), b);
      { TrimStartBlanks(pre, s + post, b); }
      TrimEnd(TrimStart(s + post, b), b);
      { TrimStartPadded(s, post, b); }
      Trim(s, b);
    }
  }

  lemma {:induction false} TrimStartBlanks(pre: string, s: string, b: Blanks)
    requires AllBlank(pre, b)
    ensures TrimStart(pre + s, b) == TrimStart(s, b)
    decreases |pre|
  {
    if |pre| > 0 {
      assert (pre + s)[1..] == pre[1..] + s;
      TrimStartBlanks(pre[1..], s, b);
    } else {
      assert pre + s == s;
    }
  }

  lemma {:induction false} TrimEndBlanks(s: string, post: string, b: Blanks)
    requires AllBlank(post, b)
    ensures TrimEnd(s + post, b) == TrimEnd(s, b)
    decreases |post|
  {
    if |post| > 0 {
      assert (s + post)[..|s + post| - 1] == s + post[..|post| - 1];
      TrimEndBlanks(s, post[..|post| - 1], b);
    } else {
      assert s + post == s;
    }
  }

  /** Trailing blanks survive the leading trim untouched unless they are all
      there is. */
  lemma {:induction false} TrimStartPadded(s: string, post: string, b: Blanks)
    requires AllBlank(post, b)
    ensures TrimEnd(TrimStart(s + post, b), b) == TrimEnd(TrimStart(s, b), b)
    decreases |s|
  {
    if |s| > 0 && IsBlank(s[0], b) {
      assert (s + post)[1..] == s[1..] + post;
      TrimStartPadded(s[1..], post, b);
    } else if |s| > 0 {
      TrimEndBlanks(s, post, b);
    } else {
      assert s + post == post;
      TrimStartBlanks(post, "", b);
      assert post + "" == post;
    }
  }
}

module Patterns {
  import opened Outcomes
  import opened Text

  // ------------------------------------------------ DiffTime: (\d+)ms

  const DiffTimeTag: string := "DiffTime: "
  const Millis: string := "ms"

  /** Length of the run of digits starting at `from`. */
  function DigitRun(s: string, from: nat): (k: nat)
    requires from <= |s|
    ensures from + k <= |s|
    ensures forall i :: from <= i < from + k ==> IsDigit(s[i])
    ensures from + k < |s| ==> !IsDigit(s[from + k])
    decreases |s| - from
  {
    if from < |s| && IsDigit(s[from]) then 1 + DigitRun(s, from + 1) else 0
  }

  /** The pattern `DiffTime: (\d+)ms` tried at position `i` alone. The digit
      run is taken whole: a shorter run is followed by a digit, not by `m`,
      so backtracking cannot succeed where the longest run fails. */
  function DiffTimeAt(line: string, i: nat): (r: Option<nat>)
    requires i <= |line|
    ensures r.Some? ==> MatchAt(line, DiffTimeTag, i)
  {
    if !MatchAt(line, DiffTimeTag, i) then None
    else
      var start := i + |DiffTimeTag|;
      var k := DigitRun(line, start);
      if k > 0 && MatchAt(line, Millis, start + k) then
        assert AllDigits(line[start..start + k]);
        Some(DigitsValue(line[start..start + k]))
      else None
  }

  /** `re.search` of the pattern from position `from` on. */
  function SearchDiffTime(line: string, from: nat): Option<nat>
    requires from <= |line|
    decreases |line| - from
  {
    match DiffTimeAt(line, from)
    case Some(n) => Some(n)
    case None =>
      if from == |line| then None else SearchDiffTime(line, from + 1)
  }

  /** The search finds nothing exactly when no position matches. */
  lemma {:induction false} SearchDiffTimeNone(line: string, from: nat)
    requires from <= |line|
    ensures SearchDiffTime(line, from).None? <==> forall i :: from <= i <= |line| ==> DiffTimeAt(line, i).None?
    decreases |line| - from
  {
    if DiffTimeAt(line, from).None? && from < |line| {
      SearchDiffTimeNone(line, from + 1);
    }
  }

  /** The leftmost matching position decides the result. */
  lemma {:induction false} SearchDiffTimeLeftmost(line: string, from: nat, i: nat)
    requires from <= i <= |line| && DiffTimeAt(line, i).Some?
    requires forall j :: from <= j < i ==> DiffTimeAt(line, j).None?
    ensures SearchDiffTime(line, from) == DiffTimeAt(line, i)
    decreases i - from
  {
    if from < i {
      SearchDiffTimeLeftmost(line, from + 1, i);
    }
  }

  /** `int(re.search(r'DiffTime: (\d+)ms', line).group(1))`, or nothing when
      the pattern does not occur: the leftmost occurrence decides. */
  function DiffTimeOf(line: string): Option<nat> {
    SearchDiffTime(line, 0)
  }

  /** A line that starts with the tag, a number and `ms` yields that number,
      whatever follows. */
  lemma DiffTimeOfRendered(n: nat, post: string)
    ensures DiffTimeOf(DiffTimeTag + ShowNat(n) + Millis + post) == Some(n)
  {
    var digits := ShowNat(n);
    var line := DiffTimeTag + digits + Millis + post;
    assert line[..|DiffTimeTag|] == DiffTimeTag;
    assert MatchAt(line, DiffTimeTag, 0);
    var start := |DiffTimeTag|;
    DigitRunOf(line, start, digits);
    assert line[start + |digits|..start + |digits| + 2] == Millis;
    assert line[start..start + |digits|] == digits;
    ShowNatValue(n);
  }

  /** The digit run at `from` covers exactly `digits` when the next character
      is not a digit. */
  lemma {:induction false} DigitRunOf(s: string, from: nat, digits: string)
    requires from + |digits| < |s| && s[from..from + |digits|] == digits
    requires AllDigits(digits) && !IsDigit(s[from + |digits|])
    ensures DigitRun(s, from) == |digits|
    decreases |digits|
  {
    if |digits| > 0 {
      assert s[from] == digits[0];
      assert s[from + 1..from + 1 + |digits[1..]|] == digits[1..];
      DigitRunOf(s, from + 1, digits[1..]);
    }
  }

  // --------------------------------------------------- \[(.*?)\] findall

  /** First index at or after `from` holding `]` or a line break, or `|s|`. */
  function GroupEnd(s: string, from: nat): (k: nat)
    requires from <= |s|
    ensures from <= k <= |s|
    decreases |s| - from
  {
    if from == |s| || s[from] == ']' || s[from] == '\n' then from else GroupEnd(s, from + 1)
  }

  /** First index at or after `from` holding `[`, or `|s|`. */
  function NextOpen(s: string, from: nat): (k: nat)
    requires from <= |s|
    ensures from <= k <= |s|
    decreases |s| - from
  {
    if from == |s| || s[from] == '[' then from else NextOpen(s, from + 1)
  }

  /** No `]` and no line break. */
  predicate PlainGroup(g: string) {
    forall i :: 0 <= i < |g| ==> g[i] != ']' && g[i] != '\n'
  }

  /** `re.findall(r'\[(.*?)\]', s[from..])`: scan for `[`, take the
      shortest text up to the next `]`, and carry on after it. `.` does not
      match a line break, so a `[` whose group would cross one fails and the
      scan resumes after that `[`. */
  function BracketGroupsFrom(s: string, from: nat): (r: seq<string>)
    requires from <= |s|
    decreases |s| - from
  {
    var j := NextOpen(s, from);
    if j == |s| then []
    else
      var k := GroupEnd(s, j + 1);
      if k == |s| then []
      else if s[k] == '\n' then BracketGroupsFrom(s, j + 1)
      else
        var g := s[j + 1..k];
        [g] + BracketGroupsFrom(s, k + 1)
  }

  function BracketGroups(s: string): seq<string> {
    BracketGroupsFrom(s, 0)
  }

  /** Groups written one after another in brackets: `[g0][g1]...`. */
  function Bracketed(groups: seq<string>): string {
    if |groups| == 0 then "" else "[" + groups[0] + "]" + Bracketed(groups[1..])
  }

  /** `findall` recovers the groups it is given, in order. */
  lemma BracketGroupsOfBracketed(groups: seq<string>)
    requires forall i :: 0 <= i < |groups| ==> PlainGroup(groups[i])
    ensures BracketGroups(Bracketed(groups)) == groups
  {
    var s := Bracketed(groups);
    assert s[0..] == Bracketed(groups[0..]);
    BracketedIsWritten(s, 0, groups, 0);
    GroupsWritten(s, 0, groups, 0);
  }

  /** `s` holds, from `from` to its end, the groups from the `k`-th on,
      each in brackets. */
  predicate WrittenFrom(s: string, from: nat, groups: seq<string>, k: nat)
    requires k <= |groups|
    decreases |groups| - k
  {
    if k == |groups| then from == |s|
    else
      var g := groups[k];
      && from + |g| + 2 <= |s|
      && s[from] == '[' && s[from + 1..from + 1 + |g|] == g && s[from + 1 + |g|] == ']'
      && WrittenFrom(s, from + |g| + 2, groups, k + 1)
  }

  /** The scan from `from` recovers the groups written there. */
  lemma {:induction false} GroupsWritten(s: string, from: nat, groups: seq<string>, k: nat)
    requires k <= |groups| && from <= |s| && WrittenFrom(s, from, groups, k)
    requires forall i :: 0 <= i < |groups| ==> PlainGroup(groups[i])
    ensures BracketGroupsFrom(s, from) == groups[k..]
    decreases |groups| - k
  {
    if k == |groups| {
      NoBracketAtEnd(s, from);
    } else {
      var g := groups[k];
      var next := from + |g| + 2;
      assert WrittenFrom(s, next, groups, k + 1);
      assert next <= |s|;
      GroupStep(s, from, g);
      GroupsWritten(s, next, groups, k + 1);
      assert groups[k..] == [g] + groups[k + 1..];
    }
  }

  /** The text of `Bracketed` is written in the sense of `WrittenFrom`. */
  lemma {:induction false} BracketedIsWritten(s: string, from: nat, groups: seq<string>, k: nat)
    requires k <= |groups| && from <= |s| && s[from..] == Bracketed(groups[k..])
    ensures WrittenFrom(s, from, groups, k)
    decreases |groups| - k
  {
    if k < |groups| {
      var g := groups[k];
      var tail := Bracketed(groups[k + 1..]);
      BracketedFirst(groups, k);
      BracketedHead(s, from, g, tail);
      var next := from + |g| + 2;
      assert s[next..] == Bracketed(groups[k + 1..]);
      BracketedIsWritten(s, next, groups, k + 1);
    }
  }

  /** `Bracketed` of a suffix starts with the suffix's first group. */
  lemma BracketedFirst(groups: seq<string>, k: nat)
    requires k < |groups|
    ensures Bracketed(groups[k..]) == "[" + groups[k] + "]" + Bracketed(groups[k + 1..])
  {
    assert groups[k..][1..] == groups[k + 1..];
  }

  /** A group in brackets at `from`, followed by `rest`. */
  lemma BracketedHead(s: string, from: nat, g: string, rest: string)
    requires from <= |s| && s[from..] == "[" + g + "]" + rest
    ensures from + |g| + 2 <= |s|
    ensures s[from] == '[' && s[from + 1..from + 1 + |g|] == g && s[from + 1 + |g|] == ']'
    ensures s[from + |g| + 2..] == rest
  {
    var t := s[from..];
    assert t[0] == '[' && t[1..1 + |g|] == g && t[1 + |g|] == ']';
    assert s[from + 1..from + 1 + |g|] == t[1..1 + |g|];
    assert t[|g| + 2..] == rest;
    SuffixOfSuffix(s, from, |g| + 2);
  }

  lemma SuffixOfSuffix(s: string, from: nat, n: nat)
    requires from + n <= |s|
    ensures s[from..][n..] == s[from + n..]
  {
  }

  /** One bracketed group at `from` is found, and the scan resumes past its
      `]`. */
  lemma GroupStep(s: string, from: nat, g: string)
    requires from + 1 + |g| < |s| && s[from] == '[' && s[from + 1..from + 1 + |g|] == g
    requires PlainGroup(g) && s[from + 1 + |g|] == ']'
    ensures BracketGroupsFrom(s, from) == [g] + BracketGroupsFrom(s, from + |g| + 2)
  {
    GroupEndOf(s, from + 1, g);
  }

  /** With nothing left to scan there is no group. */
  lemma NoBracketAtEnd(s: string, from: nat)
    requires from <= |s| && s[from..] == ""
    ensures BracketGroupsFrom(s, from) == []
  {
  }

  /** The scan finds the end of a plain group where its `]` stands. */
  lemma {:induction false} GroupEndOf(s: string, from: nat, g: string)
    requires from + |g| < |s| && s[from..from + |g|] == g && PlainGroup(g) && s[from + |g|] == ']'
    ensures GroupEnd(s, from) == from + |g|
    decreases |g|
  {
    if |g| > 0 {
      assert s[from] == g[0];
      assert s[from + 1..from + 1 + |g[1..]|] == g[1..];
      GroupEndOf(s, from + 1, g[1..]);
    }
  }
}
