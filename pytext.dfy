/**
 * The handful of Python `str` operations the ingestion code relies on, with
 * Python's own semantics: `strip()`, `in`, `split(sep)`, `replace`, `zfill`,
 * clamped slicing, `isdigit()`, `int()` and `re.findall(r'\d+', ...)`.
 */
module PyText {
  import opened Wrappers

  // ---------------------------------------------------------------------------
  // Whitespace and strip()
  // ---------------------------------------------------------------------------

  /** The characters for which Python's `str.isspace()` holds. */
  const SpaceChars: set<char> := {
    ' ', '\t', '\n', '\U{0B}', '\U{0C}', '\r', '\U{1C}', '\U{1D}', '\U{1E}', '\U{1F}',
    '\U{85}', '\U{A0}', '\U{1680}',
    '\U{2000}', '\U{2001}', '\U{2002}', '\U{2003}', '\U{2004}', '\U{2005}',
    '\U{2006}', '\U{2007}', '\U{2008}', '\U{2009}', '\U{200A}',
    '\U{2028}', '\U{2029}', '\U{202F}', '\U{205F}', '\U{3000}'
  }

  predicate IsSpace(c: char) {
    c in SpaceChars
  }

  /** `s.lstrip()`: drops the leading whitespace. */
  function LStrip(s: string): (r: string)
    ensures |r| <= |s| && r == s[|s| - |r|..]
    ensures r == [] || !IsSpace(r[0])
  {
    if s != [] && IsSpace(s[0]) then LStrip(s[1..]) else s
  }

  /** What `lstrip()` drops is whitespace. */
  lemma {:induction false} LStripDropsSpace(s: string)
    ensures forall k :: 0 <= k < |s| - |LStrip(s)| ==> IsSpace(s[k])
  {
    if s != [] && IsSpace(s[0]) {
      LStripDropsSpace(s[1..]);
      forall k | 1 <= k < |s| - |LStrip(s)|
        ensures IsSpace(s[k])
      {
        assert s[k] == s[1..][k - 1];
      }
    }
  }

  /** `s.rstrip()`: drops the trailing whitespace. */
  function RStrip(s: string): (r: string)
    ensures |r| <= |s| && r == s[..|r|]
    ensures r == [] || !IsSpace(r[|r| - 1])
  {
    if s != [] && IsSpace(s[|s| - 1]) then RStrip(s[..|s| - 1]) else s
  }

  /** What `rstrip()` drops is whitespace. */
  lemma {:induction false} RStripDropsSpace(s: string)
    ensures forall k :: |RStrip(s)| <= k < |s| ==> IsSpace(s[k])
  {
    if s != [] && IsSpace(s[|s| - 1]) {
      RStripDropsSpace(s[..|s| - 1]);
    }
  }

  /** `s.strip()`: drops the whitespace at both ends. */
  function Strip(s: string): string {
    RStrip(LStrip(s))
  }

  /** The result of `strip()` neither starts nor ends with whitespace. */
  lemma StripEnds(s: string)
    ensures var r := Strip(s); r == [] || (!IsSpace(r[0]) && !IsSpace(r[|r| - 1]))
  {
    var l := LStrip(s);
    var r := RStrip(l);
    assert r == [] || r[0] == l[0];
  }

  /** Where the result of `strip()` begins in `s`: after the leading whitespace. */
  function StripStart(s: string): nat {
    |s| - |LStrip(s)|
  }

  /** What `strip()` drops is whitespace only: its result is an infix of `s`. */
  lemma StripRemovesOnlySpace(s: string)
    ensures StripStart(s) + |Strip(s)| <= |s|
    ensures Strip(s) == s[StripStart(s)..StripStart(s) + |Strip(s)|]
    ensures forall k :: 0 <= k < StripStart(s) ==> IsSpace(s[k])
    ensures forall k :: StripStart(s) + |Strip(s)| <= k < |s| ==> IsSpace(s[k])
  {
    var l := LStrip(s);
    var r := RStrip(l);
    StripInfix(s, l, r);
    LStripDropsSpace(s);
    RStripDropsSpace(l);
    TailOfSpace(s, l, |r|);
  }

  /** The stripped string sits in `s` right after the leading whitespace. */
  lemma StripInfix(s: string, l: string, r: string)
    requires l == LStrip(s) && r == RStrip(l)
    ensures |s| - |l| + |r| <= |s| && r == s[|s| - |l|..|s| - |l| + |r|]
  {
    PrefixOfSuffix(s, l, r);
  }

  /** A prefix of a suffix of `s` is an infix of `s`. */
  lemma PrefixOfSuffix<T>(s: seq<T>, l: seq<T>, r: seq<T>)
    requires |l| <= |s| && l == s[|s| - |l|..] && |r| <= |l| && r == l[..|r|]
    ensures |s| - |l| + |r| <= |s| && r == s[|s| - |l|..|s| - |l| + |r|]
  {
    assert r == l[..|r|];
  }

  lemma TailOfSpace(s: string, l: string, m: nat)
    requires |l| <= |s| && l == s[|s| - |l|..]
    requires forall k :: m <= k < |l| ==> IsSpace(l[k])
    ensures forall k :: |s| - |l| + m <= k < |s| ==> IsSpace(s[k])
  {
    var i := |s| - |l|;
    forall k | i + m <= k < |s|
      ensures IsSpace(s[k])
    {
      assert s[k] == l[k - i];
    }
  }

  /** A string that neither starts nor ends with whitespace is its own strip. */
  lemma {:induction false} StripOfStripped(s: string)
    requires s == [] || (!IsSpace(s[0]) && !IsSpace(s[|s| - 1]))
    ensures Strip(s) == s
  {
    assert LStrip(s) == s;
    assert RStrip(s) == s;
  }

  // ---------------------------------------------------------------------------
  // Substrings, replace, zfill, slicing
  // ---------------------------------------------------------------------------

  /** Python's `pat in text` for strings. */
  predicate Contains(text: string, pat: string)
    decreases |text|
  {
    pat <= text || (text != [] && Contains(text[1..], pat))
  }

  /** `pat` occurs in `text` starting at offset `i`. */
  predicate OccursAt(text: string, pat: string, i: int) {
    0 <= i && i + |pat| <= |text| && text[i..i + |pat|] == pat
  }

  /** `Contains` is exactly "occurs at some offset". */
  lemma {:induction false} ContainsAt(text: string, pat: string)
    ensures Contains(text, pat) <==> exists i :: OccursAt(text, pat, i)
    decreases |text|
  {
    if pat <= text {
      assert OccursAt(text, pat, 0);
    } else if text != [] {
      ContainsAt(text[1..], pat);
      forall i | OccursAt(text, pat, i)
        ensures OccursAt(text[1..], pat, i - 1)
      {
        assert text[1..][i - 1..i - 1 + |pat|] == text[i..i + |pat|];
      }
      forall j | OccursAt(text[1..], pat, j)
        ensures OccursAt(text, pat, j + 1)
      {
        assert text[1..][j..j + |pat|] == text[j + 1..j + 1 + |pat|];
      }
    } else {
      assert forall i :: !OccursAt(text, pat, i);
    }
  }

  /** `s.replace(a, b)` for one-character `a` and `b`. */
  function ReplaceChar(s: string, a: char, b: char): (r: string)
    ensures |r| == |s|
    ensures a != b ==> a !in r
    ensures forall i :: 0 <= i < |s| && s[i] != a ==> r[i] == s[i]
    ensures forall i :: 0 <= i < |s| && s[i] == a ==> r[i] == b
  {
    if s == [] then []
    else [if s[0] == a then b else s[0]] + ReplaceChar(s[1..], a, b)
  }

  /** `s.replace(c, '')`: every occurrence of `c` removed, the rest kept in order. */
  function RemoveChar(s: string, c: char): (r: string)
    ensures c !in r
    ensures |r| <= |s|
  {
    if s == [] then []
    else
      var rest := RemoveChar(s[1..], c);
      if s[0] == c then rest else [s[0]] + rest
  }

  /** Removal drops every copy of `c` and keeps every other character as often as before. */
  lemma {:induction false} RemoveCharMultiset(s: string, c: char)
    ensures multiset(RemoveChar(s, c)) == multiset(s)[c := 0]
  {
    if s != [] {
      RemoveCharMultiset(s[1..], c);
      assert s == [s[0]] + s[1..];
    }
  }

  /** A run of `n` zero characters. */
  function Zeros(n: nat): (z: string)
    ensures |z| == n && forall k :: 0 <= k < n ==> z[k] == '0'
  {
    if n == 0 then [] else ['0'] + Zeros(n - 1)
  }

  /** `s.zfill(width)`: left-pads with '0' up to `width`, after a leading sign. */
  function ZFill(s: string, width: nat): (r: string)
    ensures |r| == if |s| >= width then |s| else width
    ensures |s| >= width ==> r == s
    ensures |s| < width && (s == [] || (s[0] != '+' && s[0] != '-')) ==>
              r == Zeros(width - |s|) + s
    ensures |s| < width && s != [] && (s[0] == '+' || s[0] == '-') ==>
              r == [s[0]] + Zeros(width - |s|) + s[1..]
  {
    if |s| >= width then s
    else if s != [] && (s[0] == '+' || s[0] == '-') then [s[0]] + Zeros(width - |s|) + s[1..]
    else Zeros(width - |s|) + s
  }

  /** Python's `s[lo:hi]` for non-negative bounds, which clamps instead of failing. */
  function Slice(s: string, lo: nat, hi: nat): (r: string)
    ensures |r| <= |s|
    ensures lo <= hi <= |s| ==> r == s[lo..hi]
    ensures hi <= lo || |s| <= lo ==> r == []
  {
    var a := if lo < |s| then lo else |s|;
    var b := if hi < |s| then hi else |s|;
    if a <= b then s[a..b] else []
  }

  /** Python's `s[lo:]` for a non-negative bound. */
  function SliceFrom(s: string, lo: nat): (r: string)
    ensures lo <= |s| ==> r == s[lo..]
    ensures |s| <= lo ==> r == []
  {
    if lo < |s| then s[lo..] else []
  }

  // ---------------------------------------------------------------------------
  // split(sep) and its inverse
  // ---------------------------------------------------------------------------

  /** `sep.join(parts)`. */
  function Join(parts: seq<string>, sep: char): string
    requires |parts| >= 1
  {
    if |parts| == 1 then parts[0] else parts[0] + [sep] + Join(parts[1..], sep)
  }

  /**
   * `s.split(sep)` for a one-character separator: never empty, no piece holds
   * the separator, and joining the pieces back gives `s`.
   */
  function Split(s: string, sep: char): (parts: seq<string>)
    ensures |parts| >= 1
    ensures forall k :: 0 <= k < |parts| ==> sep !in parts[k]
    ensures Join(parts, sep) == s
  {
    if s == [] then [""]
    else
      var rest := Split(s[1..], sep);
      if s[0] == sep then
        assert Join([""] + rest, sep) == [sep] + Join(rest, sep);
        [""] + rest
      else
        var parts := [[s[0]] + rest[0]] + rest[1..];
        assert |rest| == 1 ==> Join(parts, sep) == [s[0]] + Join(rest, sep);
        assert |rest| > 1 ==> Join(parts, sep) == [s[0]] + rest[0] + [sep] + Join(rest[1..], sep);
        parts
  }

  /** Splitting a join of separator-free pieces gives the pieces back. */
  lemma {:induction false} SplitJoin(parts: seq<string>, sep: char)
    requires |parts| >= 1
    requires forall k :: 0 <= k < |parts| ==> sep !in parts[k]
    ensures Split(Join(parts, sep), sep) == parts
  {
    var s := Join(parts, sep);
    var sp := Split(s, sep);
    JoinInjective(sp, parts, sep);
  }

  /** Position of the first `sep` in `s`, or `|s|` when there is none. */
  function IndexOf(s: string, sep: char): (i: nat)
    ensures i <= |s|
  {
    if s == [] then 0 else if s[0] == sep then 0 else 1 + IndexOf(s[1..], sep)
  }

  lemma {:induction false} IndexOfJoined(a: string, b: string, sep: char)
    requires sep !in a
    ensures IndexOf(a + [sep] + b, sep) == |a|
  {
    var s := a + [sep] + b;
    if a != [] {
      assert s[0] == a[0];
      assert s[1..] == a[1..] + [sep] + b;
      IndexOfJoined(a[1..], b, sep);
    }
  }

  /** A join of two or more pieces holds the separator. */
  lemma {:induction false} JoinHasSep(p: seq<string>, sep: char)
    requires |p| >= 1
    ensures |p| > 1 ==> sep in Join(p, sep)
  {
    if |p| > 1 {
      assert Join(p, sep)[|p[0]|] == sep;
    }
  }

  /** A character absent from a join is absent from every piece. */
  lemma {:induction false} JoinPartsFree(parts: seq<string>, sep: char, ch: char)
    requires |parts| >= 1
    requires ch !in Join(parts, sep)
    ensures forall k :: 0 <= k < |parts| ==> ch !in parts[k]
  {
    if |parts| > 1 {
      var rest := Join(parts[1..], sep);
      assert Join(parts, sep) == parts[0] + [sep] + rest;
      assert forall i :: 0 <= i < |rest| ==> rest[i] == Join(parts, sep)[|parts[0]| + 1 + i];
      JoinPartsFree(parts[1..], sep, ch);
      forall k | 1 <= k < |parts|
        ensures ch !in parts[k]
      {
        assert parts[k] == parts[1..][k - 1];
      }
    }
  }

  /** Two lists of separator-free pieces with the same join are equal. */
  lemma {:induction false} JoinInjective(p: seq<string>, q: seq<string>, sep: char)
    requires |p| >= 1 && |q| >= 1
    requires forall k :: 0 <= k < |p| ==> sep !in p[k]
    requires forall k :: 0 <= k < |q| ==> sep !in q[k]
    requires Join(p, sep) == Join(q, sep)
    ensures p == q
    decreases |p| + |q|
  {
    var s := Join(p, sep);
    JoinHasSep(p, sep);
    JoinHasSep(q, sep);
    if |p| == 1 && |q| == 1 {
      assert p == [p[0]] && q == [q[0]];
    } else if |p| == 1 || |q| == 1 {
      assert false;
    } else {
      var tp := Join(p[1..], sep);
      var tq := Join(q[1..], sep);
      assert s == p[0] + [sep] + tp;
      assert s == q[0] + [sep] + tq;
      IndexOfJoined(p[0], tp, sep);
      IndexOfJoined(q[0], tq, sep);
      assert p[0] == s[..|p[0]|] == q[0];
      assert tp == s[|p[0]| + 1..] == tq;
      JoinInjective(p[1..], q[1..], sep);
      assert p == [p[0]] + p[1..] && q == [q[0]] + q[1..];
    }
  }

  // ---------------------------------------------------------------------------
  // Digits: isdigit(), int() and re.findall(r'\d+', s)
  // ---------------------------------------------------------------------------

  /** The decimal digits recognised: ASCII '0'..'9' and full-width '０'..'９'. */
  predicate IsDigit(c: char) {
    ('0' <= c <= '9') || ('０' <= c <= '９')
  }

  function DigitValue(c: char): (v: nat)
    requires IsDigit(c)
    ensures v <= 9
  {
    if '0' <= c <= '9' then (c - '0') as nat else (c - '０') as nat
  }

  predicate AllDigits(s: string) {
    forall k :: 0 <= k < |s| ==> IsDigit(s[k])
  }

  /** `s.isdigit()`: non-empty and made of digits only. */
  predicate IsDigitString(s: string) {
    s != [] && AllDigits(s)
  }

  /** The value of a string of digits read in base 10. */
  function DigitsValue(s: string): nat
    requires AllDigits(s)
  {
    if s == [] then 0 else DigitsValue(s[..|s| - 1]) * 10 + DigitValue(s[|s| - 1])
  }

  /**
   * Python's `int(s)`: surrounding whitespace allowed, an optional sign, then
   * one or more digits; anything else raises ValueError (here `None`).
   */
  function PyInt(s: string): (r: Option<int>)
    ensures IsDigitString(s) ==> r == Some(DigitsValue(s))
  {
    var t := Strip(s);
    if IsDigitString(s) then
      Some(DigitsValue(s))
    else if t != [] && (t[0] == '+' || t[0] == '-') then
      var body := t[1..];
      if IsDigitString(body) then
        var v: int := DigitsValue(body);
        Some(if t[0] == '-' then -v else v)
      else None
    else if IsDigitString(t) then Some(DigitsValue(t))
    else None
  }

  /** Number of digits at the front of `s`. */
  function LeadingDigits(s: string): (n: nat)
    ensures n <= |s| && AllDigits(s[..n])
    ensures n < |s| ==> !IsDigit(s[n])
  {
    if s != [] && IsDigit(s[0]) then
      var m := LeadingDigits(s[1..]);
      assert s[..1 + m] == [s[0]] + s[1..][..m];
      1 + m
    else 0
  }

  /** The digits of `s`, in order, with everything else dropped. */
  function DigitsOf(s: string): string {
    if s == [] then [] else (if IsDigit(s[0]) then [s[0]] else []) + DigitsOf(s[1..])
  }

  function Concat(ss: seq<string>): string {
    if ss == [] then [] else ss[0] + Concat(ss[1..])
  }

  lemma {:induction false} DigitsOfAllDigits(s: string)
    requires AllDigits(s)
    ensures DigitsOf(s) == s
  {
    if s != [] {
      DigitsOfAllDigits(s[1..]);
    }
  }

  lemma {:induction false} DigitsOfAppend(a: string, b: string)
    ensures DigitsOf(a + b) == DigitsOf(a) + DigitsOf(b)
  {
    if a == [] {
      assert a + b == b;
    } else {
      var head := if IsDigit(a[0]) then [a[0]] else [];
      assert (a + b)[0] == a[0];
      assert (a + b)[1..] == a[1..] + b;
      assert DigitsOf(a + b) == head + DigitsOf(a[1..] + b);
      DigitsOfAppend(a[1..], b);
      assert DigitsOf(a) == head + DigitsOf(a[1..]);
      assert head + (DigitsOf(a[1..]) + DigitsOf(b)) == (head + DigitsOf(a[1..])) + DigitsOf(b);
    }
  }

  /**
   * `re.findall(r'\d+', s)`: the maximal runs of digits, left to right. Every
   * run is a non-empty digit string and together they hold every digit of `s`.
   */
  function DigitRuns(s: string): (runs: seq<string>)
    ensures forall k :: 0 <= k < |runs| ==> IsDigitString(runs[k])
    ensures Concat(runs) == DigitsOf(s)
    decreases |s|
  {
    if s == [] then []
    else if !IsDigit(s[0]) then
      assert DigitsOf(s) == DigitsOf(s[1..]);
      DigitRuns(s[1..])
    else
      var n := LeadingDigits(s);
      var rest := DigitRuns(s[n..]);
      assert s == s[..n] + s[n..];
      DigitsOfAppend(s[..n], s[n..]);
      DigitsOfAllDigits(s[..n]);
      [s[..n]] + rest
  }

  /** A non-digit ends the leading run: what follows it does not matter. */
  lemma {:induction false} LeadingDigitsStop(a: string, c: char, b: string)
    requires !IsDigit(c)
    ensures LeadingDigits(a + [c] + b) == LeadingDigits(a)
    decreases |a|
  {
    var s := a + [c] + b;
    if a == [] {
      assert s[0] == c;
    } else {
      assert s[0] == a[0] && s[1..] == a[1..] + [c] + b;
      if IsDigit(a[0]) {
        LeadingDigitsStop(a[1..], c, b);
      }
    }
  }

  /** A string of digits has every character in its leading run. */
  lemma {:induction false} LeadingDigitsAll(s: string)
    requires AllDigits(s)
    ensures LeadingDigits(s) == |s|
  {
    if s != [] {
      LeadingDigitsAll(s[1..]);
    }
  }

  /** `re.findall(r'\d+', s)` of a non-empty digit string is that string alone. */
  lemma DigitRunsOfDigitString(s: string)
    requires IsDigitString(s)
    ensures DigitRuns(s) == [s]
  {
    LeadingDigitsAll(s);
    assert s[..|s|] == s && s[|s|..] == [];
  }

  /** A non-digit separates runs: the runs of `a + [c] + b` are those of `a`, then those of `b`. */
  lemma {:induction false} DigitRunsSplit(a: string, c: char, b: string)
    requires !IsDigit(c)
    ensures DigitRuns(a + [c] + b) == DigitRuns(a) + DigitRuns(b)
    decreases |a|
  {
    var s := a + [c] + b;
    if a == [] {
      assert s[0] == c && s[1..] == b;
    } else if !IsDigit(a[0]) {
      assert s[0] == a[0] && s[1..] == a[1..] + [c] + b;
      DigitRunsSplit(a[1..], c, b);
    } else {
      var n := LeadingDigits(a);
      LeadingDigitsStop(a, c, b);
      assert s[0] == a[0];
      assert s[..n] == a[..n];
      assert s[n..] == a[n..] + [c] + b;
      DigitRunsSplit(a[n..], c, b);
    }
  }

  /** Two numbers joined by a dash read as those two numbers. */
  lemma DigitRunsOfPair(x: string, y: string)
    requires IsDigitString(x) && IsDigitString(y)
    ensures DigitRuns(x + "-" + y) == [x, y]
  {
    assert x + "-" + y == x + ['-'] + y;
    DigitRunsSplit(x, '-', y);
    DigitRunsOfDigitString(x);
    DigitRunsOfDigitString(y);
  }

  /** The NORMAL example of the CSV reader: "03-08" reads as the runs 03 and 08, and "8" as 8. */
  lemma DigitRunsExamples()
    ensures DigitRuns("03-08") == ["03", "08"]
    ensures DigitRuns("8") == ["8"]
  {
    DigitRunsOfPair("03", "08");
    assert "03" + "-" + "08" == "03-08";
    DigitRunsOfDigitString("8");
  }
}
