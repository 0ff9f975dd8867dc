/** The behaviour of the Go `strings` and `strconv` functions that the
    configuration engine calls, restricted to the arguments it passes them:
    cut sets and separators that are one character, case folding of ASCII
    text, and decimal integers of the platform's 64-bit `int`. */
module GoStrings {

  /** `unicode.ToLower` on the ASCII range. */
  function ToLowerChar(c: char): (d: char)
    ensures !('A' <= d <= 'Z')
    ensures c != d ==> 'A' <= c <= 'Z' && 'a' <= d <= 'z'
  {
    if 'A' <= c <= 'Z' then (c as int + 32) as char else c
  }

  /** `strings.ToLower`: every letter is folded, nothing else moves. */
  function ToLower(s: string): (r: string)
    ensures |r| == |s|
    ensures forall k :: 0 <= k < |s| ==> r[k] == ToLowerChar(s[k])
  {
    seq(|s|, k requires 0 <= k < |s| => ToLowerChar(s[k]))
  }

  lemma ToLowerAppend(a: string, b: string)
    ensures ToLower(a + b) == ToLower(a) + ToLower(b)
  {
    assert forall k :: 0 <= k < |a + b| ==> ToLower(a + b)[k] == (ToLower(a) + ToLower(b))[k];
  }

  /** `strings.HasPrefix`. */
  predicate HasPrefix(s: string, p: string) {
    |p| <= |s| && s[..|p|] == p
  }

  /** `strings.HasSuffix`. */
  predicate HasSuffix(s: string, p: string) {
    |p| <= |s| && s[|s| - |p|..] == p
  }

  /** A run of `n` spaces. */
  function Spaces(n: nat): (r: string)
    ensures |r| == n
    ensures forall k :: 0 <= k < n ==> r[k] == ' '
  {
    seq(n, k => ' ')
  }

  lemma SpacesAppend(x: nat, y: nat)
    ensures Spaces(x) + Spaces(y) == Spaces(x + y)
  {
  }

  /** `strings.Replace(s, "\t", " ", -1)`. */
  function ReplaceTabs(s: string): (r: string)
    ensures |r| == |s|
    ensures forall k {:trigger r[k]} :: 0 <= k < |s| ==> r[k] == (if s[k] == '\t' then ' ' else s[k])
  {
    seq(|s|, k requires 0 <= k < |s| => if s[k] == '\t' then ' ' else s[k])
  }

  lemma ReplaceTabsAppend(a: string, b: string)
    ensures ReplaceTabs(a + b) == ReplaceTabs(a) + ReplaceTabs(b)
  {
    assert forall k :: 0 <= k < |a + b| ==> ReplaceTabs(a + b)[k] == (ReplaceTabs(a) + ReplaceTabs(b))[k];
  }

  lemma ReplaceTabsNoTab(s: string)
    requires '\t' !in s
    ensures ReplaceTabs(s) == s
  {
  }

  /** The first position at or after `i` that does not hold a space
      (`|s|` when there is none). */
  function SkipSpaces(s: string, i: nat): (j: nat)
    requires i <= |s|
    ensures i <= j <= |s|
    ensures forall k :: i <= k < j ==> s[k] == ' '
    ensures j == |s| || s[j] != ' '
    decreases |s| - i
  {
    if i < |s| && s[i] == ' ' then SkipSpaces(s, i + 1) else i
  }

  /** The position just after the last character before `j` that is not a
      space (0 when there is none). */
  function SkipSpacesBack(s: string, j: nat): (i: nat)
    requires j <= |s|
    ensures i <= j
    ensures forall k :: i <= k < j ==> s[k] == ' '
    ensures i == 0 || s[i - 1] != ' '
    decreases j
  {
    if j > 0 && s[j - 1] == ' ' then SkipSpacesBack(s, j - 1) else j
  }

  /** `strings.TrimLeft(s, " ")`: the suffix that starts at the first non-space. */
  function TrimLeft(s: string): string {
    s[SkipSpaces(s, 0)..]
  }

  /** `strings.TrimRight(s, " ")`: the prefix that ends at the last non-space. */
  function TrimRight(s: string): string {
    s[..SkipSpacesBack(s, |s|)]
  }

  /** `strings.Trim(s, " ")`, which cuts the same spaces as TrimLeft followed
      by TrimRight. */
  function Trim(s: string): (r: string)
    ensures r == [] || (r[0] != ' ' && r[|r| - 1] != ' ')
  {
    var t := TrimLeft(s);
    var r := TrimRight(t);
    assert r != [] ==> r[0] == t[0];
    r
  }

  /** Trim leaves nothing exactly when the string is all spaces, and
      otherwise starts at the first non-space. */
  lemma TrimHead(s: string)
    ensures Trim(s) == [] <==> SkipSpaces(s, 0) == |s|
    ensures SkipSpaces(s, 0) < |s| ==> Trim(s) != [] && Trim(s)[0] == s[SkipSpaces(s, 0)]
  {
    var lead := SkipSpaces(s, 0);
    if lead < |s| {
      var u := TrimLeft(s);
      assert u[0] == s[lead];
      var i := SkipSpacesBack(u, |u|);
      assert 0 < i;
    }
  }

  /** The first non-space of a padded word is where the word starts. */
  lemma SkipSpacesPadded(a: nat, core: string, b: nat)
    requires core != [] && core[0] != ' '
    ensures SkipSpaces(Spaces(a) + core + Spaces(b), 0) == a
  {
    var s := Spaces(a) + core + Spaces(b);
    var j := SkipSpaces(s, 0);
    assert s[a] == core[0];
    assert forall k :: 0 <= k < a ==> s[k] == ' ';
  }

  /** Where the last non-space of a word followed by spaces ends. */
  lemma SkipSpacesBackPadded(core: string, b: nat)
    requires core != [] && core[|core| - 1] != ' '
    ensures SkipSpacesBack(core + Spaces(b), |core| + b) == |core|
  {
    var s := core + Spaces(b);
    var i := SkipSpacesBack(s, |core| + b);
    assert s[|core| - 1] == core[|core| - 1];
    assert forall k :: |core| <= k < |s| ==> s[k] == ' ';
  }

  /** Trim takes back exactly the padding around a word. */
  lemma TrimOfSpaced(a: nat, core: string, b: nat)
    requires core == [] || (core[0] != ' ' && core[|core| - 1] != ' ')
    ensures Trim(Spaces(a) + core + Spaces(b)) == core
  {
    var s := Spaces(a) + core + Spaces(b);
    if core == [] {
      assert s == Spaces(a + b);
      assert SkipSpaces(s, 0) == |s|;
    } else {
      SkipSpacesPadded(a, core, b);
      assert TrimLeft(s) == core + Spaces(b);
      SkipSpacesBackPadded(core, b);
    }
  }

  lemma TrimFixpoint(s: string)
    requires s == [] || (s[0] != ' ' && s[|s| - 1] != ' ')
    ensures Trim(s) == s
  {
    TrimOfSpaced(0, s, 0);
    assert Spaces(0) + s + Spaces(0) == s;
  }

  /** `strings.Split(s, sep)` for a one-character separator: the fields
      between the occurrences of `sep`, in order. */
  function Split(s: string, sep: char): (r: seq<string>)
    ensures |r| >= 1
    ensures forall k :: 0 <= k < |r| ==> sep !in r[k]
    ensures HasPrefix(s, r[0]) && (|r[0]| == |s| || s[|r[0]|] == sep)
    decreases |s|
  {
    if |s| == 0 then [""]
    else if s[0] == sep then [""] + Split(s[1..], sep)
    else
      var rest := Split(s[1..], sep);
      [[s[0]] + rest[0]] + rest[1..]
  }

  /** `strings.Join(parts, sep)`. */
  function Join(parts: seq<string>, sep: char): string
    requires |parts| >= 1
    decreases |parts|
  {
    if |parts| == 1 then parts[0] else parts[0] + [sep] + Join(parts[1..], sep)
  }

  /** Splitting loses nothing: joining the fields back gives the input. */
  lemma {:induction false} SplitJoin(s: string, sep: char)
    ensures Join(Split(s, sep), sep) == s
    decreases |s|
  {
    if |s| == 0 {
    } else if s[0] == sep {
      SplitJoin(s[1..], sep);
      assert s == [sep] + s[1..];
    } else {
      var rest := Split(s[1..], sep);
      SplitJoin(s[1..], sep);
      if |rest| == 1 {
        assert s == [s[0]] + s[1..];
      } else {
        assert Join(rest, sep) == rest[0] + [sep] + Join(rest[1..], sep);
        assert s == [s[0]] + s[1..];
      }
    }
  }

  /** A string without the separator is its own single field. */
  lemma {:induction false} SplitNoSep(s: string, sep: char)
    requires sep !in s
    ensures Split(s, sep) == [s]
    decreases |s|
  {
    if |s| > 0 {
      SplitNoSep(s[1..], sep);
      assert s == [s[0]] + s[1..];
    }
  }

  /** `sub` starts at position `k` of `s`. */
  predicate OccursAt(s: string, sub: string, k: int) {
    0 <= k && k + |sub| <= |s| && forall m :: 0 <= m < |sub| ==> s[k + m] == sub[m]
  }

  /** The first position at or after `i` where `sub` occurs, or -1. */
  function IndexFrom(s: string, sub: string, i: nat): (r: int)
    requires i <= |s|
    ensures r == -1 || i <= r <= |s|
    ensures r >= 0 ==> OccursAt(s, sub, r)
    ensures forall k :: i <= k < (if r < 0 then |s| + 1 else r) ==> !OccursAt(s, sub, k)
    decreases |s| - i
  {
    if OccursAt(s, sub, i) then i
    else if i == |s| then -1
    else IndexFrom(s, sub, i + 1)
  }

  /** `strings.Index`: the first position of `sub` in `s`, or -1 (an empty
      `sub` is found at 0). */
  function Index(s: string, sub: string): (r: int)
    ensures -1 <= r <= |s|
    ensures r >= 0 ==> OccursAt(s, sub, r)
    ensures forall k :: 0 <= k < (if r < 0 then |s| + 1 else r) ==> !OccursAt(s, sub, k)
  {
    IndexFrom(s, sub, 0)
  }

  /** A character that does not occur is not found. */
  lemma IndexOfAbsentChar(s: string, c: char)
    requires c !in s
    ensures Index(s, [c]) == -1
  {
    forall k | 0 <= k < |s| ensures !OccursAt(s, [c], k) {
      assert s[k + 0] != [c][0];
    }
  }

  /** A character is found at its first occurrence. */
  lemma IndexOfChar(s: string, c: char, k: nat)
    requires k < |s| && s[k] == c && c !in s[..k]
    ensures Index(s, [c]) == k
  {
    forall j | 0 <= j < k ensures !OccursAt(s, [c], j) {
      assert s[j] == s[..k][j];
      assert s[j + 0] != [c][0];
    }
    assert s[k + 0] == [c][0];
    assert OccursAt(s, [c], k);
  }

  /** `strings.Contains`, which Go defines as `Index(s, sub) >= 0`. */
  predicate Contains(s: string, sub: string) {
    Index(s, sub) >= 0
  }

  /** `strings.Replace(s, string(c), "", -1)`: every `c` removed. */
  function RemoveAll(s: string, c: char): (r: string)
    ensures c !in r
    ensures |r| <= |s|
    decreases |s|
  {
    if |s| == 0 then ""
    else
      var rest := RemoveAll(s[1..], c);
      if s[0] == c then rest
      else
        assert forall k :: 1 <= k < |rest| + 1 ==> ([s[0]] + rest)[k] == rest[k - 1];
        [s[0]] + rest
  }

  const MaxInt64: int := 0x7FFF_FFFF_FFFF_FFFF
  const MinInt64: int := -0x8000_0000_0000_0000
  const TwoTo64: int := 0x1_0000_0000_0000_0000

  predicate IsDigit(c: char) {
    '0' <= c <= '9'
  }

  predicate AllDigits(s: string) {
    forall k :: 0 <= k < |s| ==> IsDigit(s[k])
  }

  /** The value of a string of decimal digits. */
  function DecimalValue(d: string): nat
    requires AllDigits(d)
    decreases |d|
  {
    if |d| == 0 then 0 else DecimalValue(d[..|d| - 1]) * 10 + (d[|d| - 1] as int - '0' as int)
  }

  const MaxUint64: int := 0xFFFF_FFFF_FFFF_FFFF

  /** The length of the run of decimal digits at the start of `d`, counted
      from `i`. */
  function DigitRun(d: string, i: nat): (p: nat)
    requires i <= |d|
    ensures i <= p <= |d|
    ensures forall k :: i <= k < p ==> IsDigit(d[k])
    ensures p < |d| ==> !IsDigit(d[p])
    decreases |d| - i
  {
    if i == |d| || !IsDigit(d[i]) then i else DigitRun(d, i + 1)
  }

  /** `s` without its leading sign. */
  function Unsigned(s: string): string {
    if |s| > 0 && (s[0] == '+' || s[0] == '-') then s[1..] else s
  }

  /** The digits of `s` after its sign, up to the first non-digit. */
  function LeadingDigits(s: string): (d: string)
    ensures AllDigits(d)
  {
    var u := Unsigned(s);
    u[..DigitRun(u, 0)]
  }

  /** `strconv.Atoi` with its error discarded, as the parser calls it.
      `ParseUint` reads the digits after the sign from the left: once the
      digits read exceed the 64-bit unsigned range it stops with a range
      error and the value saturates to the int64 bound of the sign,
      whatever follows; before that, a non-digit, or no digit at all,
      gives 0. A string of digits gives its value, clamped to the int64
      range. */
  function Atoi(s: string): (n: int)
    ensures MinInt64 <= n <= MaxInt64
    ensures |s| > 0 && s[0] == '-' ==> n <= 0
    ensures DecimalValue(LeadingDigits(s)) > MaxUint64 ==>
              n == (if |s| > 0 && s[0] == '-' then MinInt64 else MaxInt64)
    ensures Unsigned(s) == "" ==> n == 0
    ensures !AllDigits(Unsigned(s)) && DecimalValue(LeadingDigits(s)) <= MaxUint64 ==> n == 0
    ensures AllDigits(Unsigned(s)) && Unsigned(s) != "" && DecimalValue(Unsigned(s)) <= MaxInt64 ==>
              n == (if s[0] == '-' then -(DecimalValue(Unsigned(s)) as int) else DecimalValue(Unsigned(s)))
  {
    var u := Unsigned(s);
    var neg := |s| > 0 && s[0] == '-';
    var p := DigitRun(u, 0);
    assert AllDigits(u) ==> u[..p] == u;
    var v: int := DecimalValue(u[..p]);
    if v > MaxUint64 then (if neg then MinInt64 else MaxInt64)
    else if p == 0 || p < |u| then 0
    else
      assert u[..p] == u;
      if neg then (if -v < MinInt64 then MinInt64 else -v)
      else (if v > MaxInt64 then MaxInt64 else v)
  }

  /** A lone sign is malformed and gives 0. */
  lemma AtoiLoneSign(s: string)
    requires s == "+" || s == "-"
    ensures Atoi(s) == 0
  {
    assert Unsigned(s) == "";
  }

  /** Digits that already overflow, followed by garbage, saturate rather
      than give 0: `ParseUint` reports the range error before it reads the
      garbage. */
  lemma AtoiOverflowBeforeGarbage(d: string, rest: string)
    requires AllDigits(d) && DecimalValue(d) > MaxUint64
    requires |d| > 0 && d[0] != '+' && d[0] != '-'
    ensures Atoi(d + rest) == MaxInt64
  {
    var s := d + rest;
    assert Unsigned(s) == s;
    var p := DigitRun(s, 0);
    assert forall k :: 0 <= k < |d| ==> IsDigit(s[k]);
    assert p >= |d|;
    DecimalValuePrefix(s[..p], |d|);
    assert s[..p][..|d|] == d;
  }

  /** A longer run of digits has at least the value of its prefix. */
  lemma {:induction false} DecimalValuePrefix(d: string, m: nat)
    requires AllDigits(d) && m <= |d|
    ensures DecimalValue(d[..m]) <= DecimalValue(d)
    decreases |d|
  {
    if m < |d| {
      var d' := d[..|d| - 1];
      assert d'[..m] == d[..m];
      DecimalValuePrefix(d', m);
    } else {
      assert d[..m] == d;
    }
  }

  /** Go's conversion `uint(n)` of a 64-bit `int`: negative values wrap around. */
  function UintOf(n: int): (u: nat)
    requires MinInt64 <= n <= MaxInt64
    ensures u < TwoTo64
    ensures u % TwoTo64 == n % TwoTo64
  {
    if n < 0 then n + TwoTo64 else n
  }
}
