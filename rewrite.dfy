/** The text rewriters of public.go: UpdateConfigValue's line rewrite and
    blank-line collapse (without the swap-file I/O, which Config.UpdateConfigValue
    in config.dfy stands for), and RemovePhraseFromString. */
module Rewrite {
  import opened Defs
  import opened GoStrings
  import opened Util
  import opened Lines
  import opened Leaves
  import opened Scan

  // ---------------------------------------------------------------------
  // Locating the line to rewrite

  /** A trimmed line that is not a comment and whose lower-cased text
      starts with `pat` (which the caller has lower-cased). */
  predicate Matches(t: string, pat: string) {
    !SkipLine(t) && HasPrefix(ToLower(t), pat)
  }

  /** Which trimmed lines match `pat`. */
  function MatchMap(ts: seq<string>, pat: string): (c: seq<bool>)
    ensures |c| == |ts|
  {
    seq(|ts|, k requires 0 <= k < |ts| => Matches(ts[k], pat))
  }

  /** The first marked line at or after `i`, or -1. */
  function FirstTrue(c: seq<bool>, i: nat): (r: int)
    requires i <= |c|
    ensures r == -1 || (i <= r < |c| && c[r])
    ensures forall k :: i <= k < (if r < 0 then |c| else r) ==> !c[k]
    decreases |c| - i
  {
    if i == |c| then -1
    else if c[i] then i
    else FirstTrue(c, i + 1)
  }

  /** The line written in place of the key line. */
  function NewLine(key: string, newValue: string): string {
    "   " + key + "      " + newValue
  }

  /** The trimmed lines before `q`, the new line at `q`, and the untouched
      lines after it. */
  function Splice(ts: seq<string>, lines: seq<string>, q: nat, x: string): (r: seq<string>)
    requires |ts| == |lines| && q < |lines|
    ensures |r| == |lines|
    ensures r[q] == x
    ensures forall y :: 0 <= y < q ==> r[y] == ts[y]
    ensures forall y :: q < y < |r| ==> r[y] == lines[y]
  {
    ts[..q] + [x] + lines[q + 1..]
  }

  /** A sequence that agrees with Splice everywhere is Splice. */
  lemma SpliceOf(line: seq<string>, ts: seq<string>, lines: seq<string>, q: nat, x: string)
    requires |line| == |ts| == |lines| && q < |lines|
    requires forall y :: 0 <= y < q ==> line[y] == ts[y]
    requires forall y :: q < y < |line| ==> line[y] == lines[y]
    requires line[q] == x
    ensures line == Splice(ts, lines, q, x)
  {
    var sp := Splice(ts, lines, q, x);
    assert forall y :: 0 <= y < |line| ==> line[y] == sp[y];
  }

  /** Why a rewrite fails: the parent was found but no later line holds
      the key, and the scan reads one line past the end. */
  datatype UpdateError = IndexOutOfRange

  /** The parent line: the first trimmed line that matches the lower-cased
      parent name, or -1. */
  function ParentLine(lines: seq<string>, parent: string): (p: int)
    ensures -1 <= p < |lines|
  {
    FirstTrue(MatchMap(TrimLines(lines), ToLower(parent)), 0)
  }

  /** The key line: the first trimmed line after the parent line that
      matches the lower-cased key, or -1. */
  function TargetLine(lines: seq<string>, p: nat, key: string): (q: int)
    requires p < |lines|
    ensures q == -1 || p < q < |lines|
  {
    FirstTrue(MatchMap(TrimLines(lines), ToLower(key)), p + 1)
  }

  /** The lines after UpdateConfigValue's scan: every line up to the key
      line is trimmed, the key line is replaced and the lines after it are
      left as they were; without a parent every line is trimmed. */
  function RewriteSpec(lines: seq<string>, parent: string, key: string, newValue: string)
    : Result<seq<string>, UpdateError>
  {
    var p := ParentLine(lines, parent);
    if p < 0 then Ok(TrimLines(lines))
    else
      var q := TargetLine(lines, p, key);
      if q < 0 then Err(IndexOutOfRange)
      else Ok(Splice(TrimLines(lines), lines, q, NewLine(ToLower(key), newValue)))
  }

  /** The scan of UpdateConfigValue, trimming each line in place as it
      goes, up to the parent line. */
  method RewriteLines(lines: seq<string>, parent: string, key: string, newValue: string)
    returns (r: Result<seq<string>, UpdateError>)
    ensures r == RewriteSpec(lines, parent, key, newValue)
  {
    var pat := ToLower(parent);
    ghost var ts := TrimLines(lines);
    ghost var cp := MatchMap(ts, pat);
    var line := lines;
    var i := 0;
    var hit := false;
    while i < |line|
      invariant 0 <= i <= |line| == |lines|
      invariant forall y :: 0 <= y < i ==> line[y] == ts[y]
      invariant forall y :: i <= y < |line| ==> line[y] == lines[y]
      invariant forall y :: 0 <= y < i ==> !cp[y]
    {
      line := line[i := TrimLine(line[i])];
      assert line[i] == ts[i];
      hit := Matches(line[i], pat);
      assert hit == cp[i];
      if hit {
        break;
      }
      i := i + 1;
    }
    if hit {
      assert FirstTrue(cp, 0) == i;
      r := RewriteKey(lines, line, i, key, newValue);
    } else {
      assert FirstTrue(cp, 0) == -1;
      SameLines(line, ts);
      r := Ok(line);
    }
  }

  /** The inner loop of UpdateConfigValue: from the parent line `p` on,
      trim each line until one starts with the key, and rewrite it; running
      off the end is the out-of-range read. */
  method RewriteKey(lines: seq<string>, line0: seq<string>, p: nat, key: string, newValue: string)
    returns (r: Result<seq<string>, UpdateError>)
    requires p < |lines| == |line0|
    requires forall y :: 0 <= y <= p ==> line0[y] == TrimLines(lines)[y]
    requires forall y :: p < y < |line0| ==> line0[y] == lines[y]
    ensures var q := TargetLine(lines, p, key);
      r == if q < 0 then Err(IndexOutOfRange)
           else Ok(Splice(TrimLines(lines), lines, q, NewLine(ToLower(key), newValue)))
  {
    var k := ToLower(key);
    ghost var ts := TrimLines(lines);
    ghost var ck := MatchMap(ts, k);
    var line := line0;
    var j := p + 1;
    while j < |line|
      invariant p < j <= |line| == |lines|
      invariant forall y :: 0 <= y < j ==> line[y] == ts[y]
      invariant forall y :: j <= y < |line| ==> line[y] == lines[y]
      invariant forall y :: p < y < j ==> !ck[y]
    {
      line := line[j := TrimLine(line[j])];
      assert line[j] == ts[j];
      if Matches(line[j], k) {
        assert ck[j];
        assert FirstTrue(ck, p + 1) == j;
        line := line[j := NewLine(k, newValue)];
        SpliceOf(line, ts, lines, j, NewLine(k, newValue));
        return Ok(line);
      }
      assert !ck[j];
      j := j + 1;
    }
    assert FirstTrue(ck, p + 1) == -1;
    return Err(IndexOutOfRange);
  }

  /** Two line lists that agree line by line are equal. */
  lemma SameLines(a: seq<string>, b: seq<string>)
    requires |a| == |b| && forall y :: 0 <= y < |a| ==> a[y] == b[y]
    ensures a == b
  {
  }

  /** A successful rewrite keeps the number of lines, and at most one line
      reads differently to trimLine afterwards. */
  lemma RewriteChangesOneLine(lines: seq<string>, parent: string, key: string, newValue: string)
    requires RewriteSpec(lines, parent, key, newValue).Ok?
    ensures var r := RewriteSpec(lines, parent, key, newValue).value;
      && |r| == |lines|
      && (forall y, z :: 0 <= y < z < |r| && TrimLine(r[y]) != TrimLine(lines[y]) ==>
            TrimLine(r[z]) == TrimLine(lines[z]))
  {
    var ts := TrimLines(lines);
    var r := RewriteSpec(lines, parent, key, newValue).value;
    var p := ParentLine(lines, parent);
    var q := if p < 0 then |lines| else TargetLine(lines, p, key);
    forall y | 0 <= y < |r| && y != q ensures TrimLine(r[y]) == TrimLine(lines[y]) {
      if y < q {
        assert r[y] == ts[y] == TrimLine(lines[y]);
        TrimLineIdempotent(lines[y]);
      }
    }
  }

  /** The new line starts with the key and parses back to the trimmed
      value, or to the key when the value is blank. */
  lemma NewLineParses(k: string, newValue: string)
    requires k != "" && ' ' !in k && '\t' !in k
    ensures HasPrefix(TrimLine(NewLine(k, newValue)), k)
    ensures ParseConfigLine(TrimLine(NewLine(k, newValue)))
            == (if TrimLine(newValue) == "" then k else TrimLine(newValue))
  {
    assert NewLine(k, newValue) == Spaces(3) + k + Spaces(6) + newValue;
    KeyLine(3, k, 6, newValue);
  }

  lemma RewriteRoundTrip(lines: seq<string>, parent: string, key: string, newValue: string)
    requires ToLower(key) != "" && ' ' !in ToLower(key) && '\t' !in ToLower(key)
    requires ParentLine(lines, parent) >= 0
    requires RewriteSpec(lines, parent, key, newValue).Ok?
    ensures var r := RewriteSpec(lines, parent, key, newValue).value;
      var q := TargetLine(lines, ParentLine(lines, parent), key);
      && 0 <= q < |r|
      && HasPrefix(TrimLine(r[q]), ToLower(key))
      && ParseConfigLine(TrimLine(r[q]))
         == (if TrimLine(newValue) == "" then ToLower(key) else TrimLine(newValue))
  {
    NewLineParses(ToLower(key), newValue);
  }

  /** The key line is the first line after the parent line that matches
      the key, and the parent line the first that matches the parent:
      every line before each of them was passed over. */
  lemma RewriteTarget(lines: seq<string>, parent: string, key: string)
    requires ParentLine(lines, parent) >= 0
    requires TargetLine(lines, ParentLine(lines, parent), key) >= 0
    ensures var p := ParentLine(lines, parent);
      var q := TargetLine(lines, p, key);
      && Matches(TrimLine(lines[p]), ToLower(parent))
      && (forall y :: 0 <= y < p ==> !Matches(TrimLine(lines[y]), ToLower(parent)))
      && Matches(TrimLine(lines[q]), ToLower(key))
      && (forall y :: p < y < q ==> !Matches(TrimLine(lines[y]), ToLower(key)))
  {
    var ts := TrimLines(lines);
    var p := ParentLine(lines, parent);
    var q := TargetLine(lines, p, key);
    var cp, ck := MatchMap(ts, ToLower(parent)), MatchMap(ts, ToLower(key));
    assert cp[p] && ck[q];
    forall y | 0 <= y < p ensures !Matches(TrimLine(lines[y]), ToLower(parent)) {
      assert !cp[y];
    }
    forall y | p < y < q ensures !Matches(TrimLine(lines[y]), ToLower(key)) {
      assert !ck[y];
    }
  }

  // ---------------------------------------------------------------------
  // The blank-line collapse

  /** The collapse from line `i` on: each line is trimmed of spaces; an
      empty one is dropped when it is the last line or the next line, as it
      stood before the collapse, is empty. */
  function CollapseFrom(ls: seq<string>, i: nat): (r: seq<string>)
    requires i <= |ls|
    ensures |r| <= |ls| - i
    decreases |ls| - i
  {
    if i == |ls| then []
    else
      var t := Trim(ls[i]);
      if t == "" && (i + 1 >= |ls| || ls[i + 1] == "") then CollapseFrom(ls, i + 1)
      else [t] + CollapseFrom(ls, i + 1)
  }

  function Collapse(ls: seq<string>): (r: seq<string>)
    ensures |r| <= |ls|
  {
    CollapseFrom(ls, 0)
  }

  /** The loop of public.go that builds `line2`. */
  method CollapseLines(lines: seq<string>) returns (line2: seq<string>)
    ensures line2 == Collapse(lines)
  {
    var count := |lines|;
    line2 := [];
    var i := 0;
    while i < count
      invariant 0 <= i <= count == |lines|
      invariant line2 + CollapseFrom(lines, i) == Collapse(lines)
    {
      // the next line is tested as it stood, before its own trim
      var t := Trim(lines[i]);
      ghost var rest := CollapseFrom(lines, i + 1);
      if t == "" && (i + 1 >= count || lines[i + 1] == "") {
        assert CollapseFrom(lines, i) == rest;
      } else {
        assert CollapseFrom(lines, i) == [t] + rest;
        assert line2 + CollapseFrom(lines, i) == (line2 + [t]) + rest;
        line2 := line2 + [t];
      }
      i := i + 1;
    }
  }

  /** The non-blank lines, trimmed, in order. */
  function NonBlank(ls: seq<string>): seq<string>
    decreases |ls|
  {
    if ls == [] then []
    else (if Trim(ls[0]) == "" then [] else [Trim(ls[0])]) + NonBlank(ls[1..])
  }

  /** The collapse keeps every non-blank line, trimmed, and in order. */
  lemma {:induction false} CollapseKeepsText(ls: seq<string>, i: nat)
    requires i <= |ls|
    ensures NonBlank(CollapseFrom(ls, i)) == NonBlank(ls[i..])
    decreases |ls| - i
  {
    if i < |ls| {
      CollapseKeepsText(ls, i + 1);
      var t := Trim(ls[i]);
      var rest := CollapseFrom(ls, i + 1);
      assert ls[i..][0] == ls[i] && ls[i..][1..] == ls[i + 1..];
      TrimFixpoint(t);
      if !(t == "" && (i + 1 >= |ls| || ls[i + 1] == "")) {
        assert ([t] + rest)[0] == t && ([t] + rest)[1..] == rest;
      }
    }
  }

  /** Lines that are already trimmed. */
  predicate AllTrimmed(ls: seq<string>) {
    forall k :: 0 <= k < |ls| ==> Trim(ls[k]) == ls[k]
  }

  /** On trimmed lines the collapse starts with the first line when that
      line is not empty. */
  lemma CollapseHead(ls: seq<string>, i: nat)
    requires i < |ls| && AllTrimmed(ls) && ls[i] != ""
    ensures CollapseFrom(ls, i) != [] && CollapseFrom(ls, i)[0] == ls[i]
  {
  }

  /** Every empty line is followed by a non-empty one. */
  predicate NoDoubleBlank(c: seq<string>) {
    forall k :: 0 <= k < |c| && c[k] == "" ==> k + 1 < |c| && c[k + 1] != ""
  }

  /** On trimmed lines the collapse leaves no two empty lines in a row and
      no empty last line. */
  lemma {:induction false} CollapseNoDoubleBlank(ls: seq<string>, i: nat)
    requires i <= |ls| && AllTrimmed(ls)
    ensures NoDoubleBlank(CollapseFrom(ls, i))
    decreases |ls| - i
  {
    if i < |ls| {
      CollapseNoDoubleBlank(ls, i + 1);
      var t := Trim(ls[i]);
      var rest := CollapseFrom(ls, i + 1);
      assert NoDoubleBlank(rest);
      if !(t == "" && (i + 1 >= |ls| || ls[i + 1] == "")) {
        var c := [t] + rest;
        assert CollapseFrom(ls, i) == c;
        if t == "" {
          assert i + 1 < |ls| && ls[i + 1] != "";
          CollapseHead(ls, i + 1);
        }
        forall k | 0 <= k < |c| && c[k] == "" ensures k + 1 < |c| && c[k + 1] != "" {
          if k > 0 {
            assert rest[k - 1] == c[k];
            assert k < |rest| && rest[k] != "";
            assert c[k + 1] == rest[k];
          } else {
            assert t == "";
            assert c[1] == rest[0];
          }
        }
      } else {
        assert CollapseFrom(ls, i) == rest;
      }
    }
  }

  /** As written, the collapse can leave two empty lines in a row: the
      next line is tested before it is trimmed, so a line of spaces after
      an empty line keeps that line, and then becomes empty itself. */
  lemma CollapseKeepsDoubleBlank()
    ensures Collapse(["", "  ", "x"]) == ["", "", "x"]
    ensures !NoDoubleBlank(Collapse(["", "  ", "x"]))
  {
    var ls := ["", "  ", "x"];
    TrimFixpoint("");
    TrimFixpoint("x");
    TrimOfSpaced(2, "", 0);
    assert Spaces(2) + "" + Spaces(0) == "  ";
    assert Trim(ls[1]) == "" && Trim(ls[2]) == "x" && ls[2] != "";
    assert CollapseFrom(ls, 2) == ["x"];
    assert CollapseFrom(ls, 1) == ["", "x"];
    var c := Collapse(ls);
    assert c[0] == "" && c[1] == "";
  }

  /** Lines trimmed one by one trim to themselves. */
  lemma TrimAllTrimmed(ls: seq<string>)
    ensures AllTrimmed(TrimAll(ls))
  {
    var t := TrimAll(ls);
    forall k | 0 <= k < |t| ensures Trim(t[k]) == t[k] {
      TrimFixpoint(t[k]);
    }
  }

  /** The collapse as evidently intended: every line is trimmed before the
      next one is tested, so a run of blank lines, spaces or not, leaves
      at most one empty line, and never an empty last line. */
  function CollapseFixed(ls: seq<string>): (r: seq<string>)
    ensures |r| <= |ls|
    ensures NoDoubleBlank(r)
  {
    TrimAllTrimmed(ls);
    CollapseNoDoubleBlank(TrimAll(ls), 0);
    Collapse(TrimAll(ls))
  }

  /** The corrected collapse on the input of CollapseKeepsDoubleBlank. */
  lemma CollapseFixedSingleBlank()
    ensures CollapseFixed(["", "  ", "x"]) == ["", "x"]
  {
    var ls := ["", "  ", "x"];
    TrimFixpoint("");
    TrimFixpoint("x");
    TrimOfSpaced(2, "", 0);
    assert Spaces(2) + "" + Spaces(0) == "  ";
    assert Trim(ls[0]) == "" && Trim(ls[1]) == "" && Trim(ls[2]) == "x";
    var t := TrimAll(ls);
    assert t == ["", "", "x"];
    assert CollapseFrom(t, 2) == ["x"];
    assert CollapseFrom(t, 1) == ["", "x"];
  }

  /** The file text written back: every line followed by a newline. */
  function Render(ls: seq<string>): string
    decreases |ls|
  {
    if ls == [] then "" else Render(ls[..|ls| - 1]) + ls[|ls| - 1] + "\n"
  }

  /** The new file text of UpdateConfigValue: the rewritten lines,
      collapsed and written one per line. */
  function UpdatedText(file: string, parent: string, key: string, newValue: string)
    : Result<string, UpdateError>
  {
    match RewriteSpec(Split(file, '\n'), parent, key, newValue)
    case Err(e) => Err(e)
    case Ok(ls) => Ok(Render(Collapse(ls)))
  }

  // ---------------------------------------------------------------------
  // RemovePhraseFromString

  /** How RemovePhraseFromString ends: with a string, with a slice-bounds
      panic, or not at all (a pass that removes nothing repeats forever). */
  datatype Outcome = Done(s: string) | Panics | Loops

  /** One pass as written: cut from the first `b` through the first `e` at
      or after it; when `e` is missing the slice starts at `len(e) - 1`,
      which panics when that is past the end. */
  function Pass(s: string, b: string, e: string): (r: Option<string>)
    requires Index(s, b) >= 0
    ensures r.Some? ==> |r.value| <= |s|
    ensures r.Some? && |r.value| == |s| ==> r.value == s
  {
    var i := Index(s, b);
    var right := s[i..];
    var j := Index(right, e);
    if j + |e| > |right| then None
    else
      assert j + |e| >= 0 by {
        if e == [] {
          assert OccursAt(right, e, 0);
        }
      }
      assert j + |e| == 0 ==> s[..i] + right[j + |e|..] == s;
      Some(s[..i] + right[j + |e|..])
  }

  /** The passes from `s` on, with markers already trimmed. */
  function RemoveLoop(s: string, b: string, e: string): (r: Outcome)
    ensures r.Done? ==> Index(r.s, b) < 0 && |r.s| <= |s|
    decreases |s|
  {
    if Index(s, b) < 0 then Done(s)
    else
      match Pass(s, b, e)
      case None => Panics
      case Some(s') => if |s'| < |s| then RemoveLoop(s', b, e) else Loops
  }

  /** RemovePhraseFromString as written: the markers are trimmed of spaces first. */
  function RemovePhrase(s: string, begin: string, end: string): Outcome {
    RemoveLoop(s, Trim(begin), Trim(end))
  }

  /** The goto loop of RemovePhraseFromString; a pass that cuts nothing
      would repeat forever, and is reported as Loops. */
  method RemovePhraseFromString(s0: string, begin: string, end: string) returns (r: Outcome)
    ensures r == RemovePhrase(s0, begin, end)
  {
    var b := Trim(begin);
    var e := Trim(end);
    var s := s0;
    while Index(s, b) >= 0
      invariant RemoveLoop(s, b, e) == RemoveLoop(s0, b, e)
      decreases |s|
    {
      var i := Index(s, b);
      var left := s[..i];
      var right := s[|left|..];
      var j := Index(right, e);
      if j + |e| > |right| {
        return Panics;
      }
      var s' := left + right[j + |e|..];
      if |s'| == |s| {
        return Loops;
      }
      s := s';
    }
    return Done(s);
  }

  /** With an end marker that trims to nothing, a string holding the begin
      marker is cut by nothing and the loop never ends. */
  lemma EmptyEndLoops(s: string, begin: string, end: string)
    requires Trim(end) == "" && Index(s, Trim(begin)) >= 0
    ensures RemovePhrase(s, begin, end) == Loops
  {
    var b := Trim(begin);
    var right := s[Index(s, b)..];
    assert OccursAt(right, "", 0);
  }

  /** With a begin marker that trims to nothing, the function never returns. */
  lemma {:induction false} EmptyBeginNeverDone(s: string, e: string)
    ensures !RemoveLoop(s, "", e).Done?
    decreases |s|
  {
    assert OccursAt(s, "", 0);
    match Pass(s, "", e)
    case None =>
    case Some(s') =>
      if |s'| < |s| {
        EmptyBeginNeverDone(s', e);
      }
  }

  /** The text before the first begin marker is not always kept: a cut can
      join a `/` before the block to a `*` after it into a new begin marker,
      which the next pass removes together with that `/`. */
  lemma LeadingTextNotKept()
    ensures RemovePhrase("//**/*/", "/*", "*/") == Done("")
  {
    TrimFixpoint("/*");
    TrimFixpoint("*/");
    LeadingFirstPass();
    LeadingSecondPass();
    assert !OccursAt("", "/*", 0);
    assert Index("", "/*") == -1;
  }

  /** The first pass of LeadingTextNotKept cuts the first block and leaves
      a slash, a star and a slash. */
  lemma LeadingFirstPass()
    ensures Index("//**/*/", "/*") == 1
    ensures Pass("//**/*/", "/*", "*/") == Some("/*/")
  {
    var s := "//**/*/";
    assert s[0 + 1] != "/*"[1];
    assert s[1 + 0] == "/*"[0] && s[1 + 1] == "/*"[1];
    assert !OccursAt(s, "/*", 0) && OccursAt(s, "/*", 1);
    var right := "/**/*/";
    assert s[1..] == right;
    assert right[0 + 0] != "*/"[0] && right[1 + 1] != "*/"[1];
    assert right[2 + 0] == "*/"[0] && right[2 + 1] == "*/"[1];
    assert !OccursAt(right, "*/", 0) && !OccursAt(right, "*/", 1) && OccursAt(right, "*/", 2);
    assert Index(right, "*/") == 2;
    assert s[..1] + right[4..] == "/*/";
  }

  /** The second pass of LeadingTextNotKept cuts everything that is left. */
  lemma LeadingSecondPass()
    ensures Index("/*/", "/*") == 0
    ensures Pass("/*/", "/*", "*/") == Some("")
  {
    var t := "/*/";
    assert t[0 + 0] == "/*"[0] && t[0 + 1] == "/*"[1];
    assert OccursAt(t, "/*", 0);
    assert t[0..] == t;
    assert t[0 + 0] != "*/"[0];
    assert t[1 + 0] == "*/"[0] && t[1 + 1] == "*/"[1];
    assert !OccursAt(t, "*/", 0) && OccursAt(t, "*/", 1);
    assert Index(t, "*/") == 1;
    assert t[..0] + t[3..] == "";
  }

  // ---------------------------------------------------------------------
  // A missing end marker

  /** An unterminated block as written: the pass slices from `len(end) - 1`
      and keeps the rest of the begin marker. */
  lemma UnterminatedBlockAsWritten()
    ensures RemovePhrase("a/*b", "/*", "*/") == Done("a*b")
  {
    TrimFixpoint("/*");
    TrimFixpoint("*/");
    var s := "a/*b";
    assert s[0 + 0] != "/*"[0];
    assert s[1 + 0] == "/*"[0] && s[1 + 1] == "/*"[1];
    assert !OccursAt(s, "/*", 0) && OccursAt(s, "/*", 1);
    assert Index(s, "/*") == 1;
    var right := "/*b";
    assert s[1..] == right;
    assert !OccursAt(right, "*/", 0) && !OccursAt(right, "*/", 1);
    assert !OccursAt(right, "*/", 2) && !OccursAt(right, "*/", 3);
    assert Index(right, "*/") == -1;
    assert s[..1] + right[1..] == "a*b";
    var t := "a*b";
    assert !OccursAt(t, "/*", 0) && !OccursAt(t, "/*", 1);
    assert !OccursAt(t, "/*", 2) && !OccursAt(t, "/*", 3);
    assert Index(t, "/*") == -1;
  }

  /** An unterminated block with a one-byte end marker as written:
      the pass cuts nothing and the loop never ends. */
  lemma UnterminatedBlockLoops()
    ensures RemovePhrase("a/*b", "/*", "!") == Loops
  {
    TrimFixpoint("/*");
    TrimFixpoint("!");
    var s := "a/*b";
    assert s[0 + 0] != "/*"[0];
    assert s[1 + 0] == "/*"[0] && s[1 + 1] == "/*"[1];
    assert !OccursAt(s, "/*", 0) && OccursAt(s, "/*", 1);
    var right := "/*b";
    assert s[1..] == right;
    assert !OccursAt(right, "!", 0) && !OccursAt(right, "!", 1);
    assert !OccursAt(right, "!", 2) && !OccursAt(right, "!", 3);
    assert Index(right, "!") == -1;
    assert s[..1] + right[0..] == s;
  }

  /** One pass as evidently intended: cut from the first `b` through the
      first `e` at or after it, or through the end of the string when no
      `e` follows. */
  function FixedPass(s: string, b: string, e: string): (r: string)
    requires b != "" && e != "" && Index(s, b) >= 0
    ensures |r| < |s|
  {
    var i := Index(s, b);
    var right := s[i..];
    var j := Index(right, e);
    if j < 0 then s[..i] else s[..i] + right[j + |e|..]
  }

  /** RemovePhraseFromString as evidently intended, for markers that are
      not blank: it always returns, with no begin marker left and nothing
      added. */
  function RemoveBlocks(s: string, b: string, e: string): (r: string)
    requires b != "" && e != ""
    ensures Index(r, b) < 0
    ensures |r| <= |s|
    decreases |s|
  {
    if Index(s, b) < 0 then s else RemoveBlocks(FixedPass(s, b, e), b, e)
  }

  /** The corrected removal drops an unterminated block to the end of the
      string. */
  lemma UnterminatedBlockFixed()
    ensures RemoveBlocks("a/*b", "/*", "*/") == "a"
  {
    var s := "a/*b";
    assert s[0] == 'a' && s[1] == '/' && s[2] == '*' && s[3] == 'b';
    assert s[0 + 0] != "/*"[0];
    assert s[1 + 0] == "/*"[0] && s[1 + 1] == "/*"[1];
    assert !OccursAt(s, "/*", 0) && OccursAt(s, "/*", 1);
    assert Index(s, "/*") == 1;
    var right := "/*b";
    assert s[1..] == right;
    assert right[0] == '/' && right[1] == '*' && right[2] == 'b';
    assert right[0 + 0] != "*/"[0] && right[1 + 1] != "*/"[1];
    assert !OccursAt(right, "*/", 0) && !OccursAt(right, "*/", 1);
    assert !OccursAt(right, "*/", 2) && !OccursAt(right, "*/", 3);
    assert Index(right, "*/") == -1;
    assert FixedPass(s, "/*", "*/") == "a";
    assert !OccursAt("a", "/*", 0) && !OccursAt("a", "/*", 1);
  }

  /** Where an end marker follows, the corrected pass is the pass as written. */
  lemma FixedPassAgrees(s: string, b: string, e: string)
    requires b != "" && e != "" && Index(s, b) >= 0
    requires Index(s[Index(s, b)..], e) >= 0
    ensures Pass(s, b, e) == Some(FixedPass(s, b, e))
  {
  }
}
