/** trimLine (util.go): the normalisation applied to every physical line. */
module Util {
  import opened GoStrings

  /** Tabs become spaces, then the spaces at both ends are cut (TrimLeft,
      then TrimRight; the final strings.Trim of the Go chain finds nothing
      left to cut, as TrimLineFinalTrim shows). */
  function TrimLine(l: string): string
  {
    var noTabs := ReplaceTabs(l);
    TrimRight(TrimLeft(noTabs))
  }

  /** A string that trimLine leaves alone. */
  predicate Clean(s: string) {
    && (forall k :: 0 <= k < |s| ==> s[k] != '\t')
    && (s == [] || (s[0] != ' ' && s[|s| - 1] != ' '))
  }

  /** The last strings.Trim of the Go chain changes nothing. */
  lemma TrimLineFinalTrim(l: string)
    ensures Trim(TrimLine(l)) == TrimLine(l)
  {
    var r := TrimLine(l);
    assert r == [] || (r[0] != ' ' && r[|r| - 1] != ' ') by {
      var tl := TrimLeft(ReplaceTabs(l));
      if r != [] {
        assert r[0] == tl[0];
      }
    }
    TrimFixpoint(r);
  }

  /** The result holds no tab and starts and ends with something other than a space. */
  lemma TrimLineClean(l: string)
    ensures Clean(TrimLine(l))
  {
    var t := ReplaceTabs(l);
    var tl := TrimLeft(t);
    var r := TrimRight(tl);
    forall k | 0 <= k < |r| ensures r[k] != '\t' {
      assert r[k] == tl[k] == t[|t| - |tl| + k];
    }
    if r != [] {
      assert r[0] == tl[0];
    }
  }

  /** The number of spaces trimLine cuts at the front of the tab-free line. */
  function LeadPad(l: string): nat {
    SkipSpaces(ReplaceTabs(l), 0)
  }

  /** The number of spaces trimLine cuts at the back of the tab-free line. */
  function TrailPad(l: string): nat {
    |TrimLeft(ReplaceTabs(l))| - |TrimLine(l)|
  }

  /** Where the characters of the result sit in the tab-free line. */
  lemma TrimLineAt(l: string)
    ensures LeadPad(l) + |TrimLine(l)| <= |ReplaceTabs(l)|
    ensures forall k :: 0 <= k < LeadPad(l) ==> ReplaceTabs(l)[k] == ' '
    ensures forall j :: 0 <= j < |TrimLine(l)| ==> TrimLine(l)[j] == ReplaceTabs(l)[LeadPad(l) + j]
    ensures forall k :: LeadPad(l) + |TrimLine(l)| <= k < |ReplaceTabs(l)| ==> ReplaceTabs(l)[k] == ' '
  {
    var t := ReplaceTabs(l);
    var u := t[LeadPad(l)..];
    var i := SkipSpacesBack(u, |u|);
    forall k | LeadPad(l) + i <= k < |t| ensures t[k] == ' ' {
      assert t[k] == u[k - LeadPad(l)];
    }
  }

  /** Between the first and the last non-space nothing changes except that
      tabs are spaces: the tab-free line is the result padded with spaces. */
  lemma TrimLineFrame(l: string)
    ensures ReplaceTabs(l) == Spaces(LeadPad(l)) + TrimLine(l) + Spaces(TrailPad(l))
  {
    var t := ReplaceTabs(l);
    var tl := TrimLeft(t);
    var r := TrimRight(tl);
    var a := |t| - |tl|;
    var b := |tl| - |r|;
    var padded := Spaces(a) + r + Spaces(b);
    assert |padded| == |t|;
    forall k | 0 <= k < |t| ensures padded[k] == t[k] {
      if k < a {
      } else if k < a + |r| {
        assert padded[k] == r[k - a] == tl[k - a];
      } else {
        assert tl[k - a] == ' ';
      }
    }
    assert t == padded;
    assert LeadPad(l) == a && TrailPad(l) == b && TrimLine(l) == r;
  }

  /** A clean string is its own trimLine. */
  lemma TrimLineFixpoint(s: string)
    requires Clean(s)
    ensures TrimLine(s) == s
  {
    assert ReplaceTabs(s) == s;
    TrimFixpoint(s);
    assert TrimLeft(s) == s;
    assert TrimRight(s) == s;
  }

  /** trimLine is idempotent. */
  lemma TrimLineIdempotent(l: string)
    ensures TrimLine(TrimLine(l)) == TrimLine(l)
  {
    TrimLineClean(l);
    TrimLineFixpoint(TrimLine(l));
  }

  /** A line made only of spaces and tabs becomes the empty line. */
  lemma TrimLineBlank(l: string)
    requires forall k :: 0 <= k < |l| ==> l[k] == ' ' || l[k] == '\t'
    ensures TrimLine(l) == ""
  {
    var t := ReplaceTabs(l);
    assert t == Spaces(|l|);
    TrimOfSpaced(|l|, "", 0);
    assert Spaces(|l|) + "" + Spaces(0) == t;
    assert TrimLeft(t) == "";
  }

  /** trimLine of a padded clean core is the core, whatever the padding. */
  lemma TrimLinePadded(a: nat, core: string, b: nat)
    requires Clean(core)
    ensures TrimLine(Spaces(a) + core + Spaces(b)) == core
  {
    var s := Spaces(a) + core + Spaces(b);
    assert ReplaceTabs(s) == s;
    TrimOfSpaced(a, core, b);
    var tl := TrimLeft(s);
    TrimOfSpaced(0, TrimRight(tl), 0);
    assert Spaces(0) + TrimRight(tl) + Spaces(0) == TrimRight(tl);
    assert TrimRight(tl) == Trim(s);
  }

  /** trimLine keeps exactly the stretch between the first and the last
      character that is neither a space nor a tab. */
  lemma TrimLineBounds(l: string, lo: nat, hi: nat)
    requires lo <= hi <= |l|
    requires forall k :: 0 <= k < lo ==> ReplaceTabs(l)[k] == ' '
    requires forall k :: hi <= k < |l| ==> ReplaceTabs(l)[k] == ' '
    requires lo < hi ==> ReplaceTabs(l)[lo] != ' ' && ReplaceTabs(l)[hi - 1] != ' '
    ensures TrimLine(l) == ReplaceTabs(l)[lo..hi]
  {
    var t := ReplaceTabs(l);
    var j := SkipSpaces(t, 0);
    if lo < hi {
      assert j == lo;
      var u := t[lo..];
      assert u[hi - lo - 1] == t[hi - 1];
      assert forall k :: hi - lo <= k < |u| ==> u[k] == t[lo + k];
      var i := SkipSpacesBack(u, |u|);
      assert i == hi - lo;
      assert u[..i] == t[lo..hi];
    } else {
      assert forall k :: 0 <= k < |t| ==> t[k] == ' ';
      assert j == |t|;
    }
  }

  /** trimLine only looks at the line with its tabs turned into spaces. */
  lemma TrimLineOfTabFree(l: string)
    ensures TrimLine(ReplaceTabs(l)) == TrimLine(l)
  {
    assert ReplaceTabs(ReplaceTabs(l)) == ReplaceTabs(l);
  }

  /** Spaces added around a line make no difference to trimLine. */
  lemma TrimLineOuterPad(p: nat, w: string, q: nat)
    ensures TrimLine(Spaces(p) + w + Spaces(q)) == TrimLine(w)
  {
    var y := Spaces(p) + w + Spaces(q);
    PaddedTabFree(p, w, q);
    TrimLineOfPadded(y, w, p + LeadPad(w), TrailPad(w) + q);
  }

  /** A line whose tab-free form is the result of trimLine padded with
      spaces has that same result. */
  lemma TrimLineOfPadded(y: string, w: string, a: nat, b: nat)
    requires ReplaceTabs(y) == Spaces(a) + TrimLine(w) + Spaces(b)
    ensures TrimLine(y) == TrimLine(w)
  {
    TrimLineOfTabFree(y);
    TrimLineClean(w);
    TrimLinePadded(a, TrimLine(w), b);
  }

  /** Tabs out, the padded line is the padded result of trimLine. */
  lemma PaddedTabFree(p: nat, w: string, q: nat)
    ensures ReplaceTabs(Spaces(p) + w + Spaces(q))
         == Spaces(p + LeadPad(w)) + TrimLine(w) + Spaces(TrailPad(w) + q)
  {
    ReplaceTabsAppend(Spaces(p) + w, Spaces(q));
    ReplaceTabsAppend(Spaces(p), w);
    ReplaceTabsNoTab(Spaces(p));
    ReplaceTabsNoTab(Spaces(q));
    TrimLineFrame(w);
    SpacesAppend(p, LeadPad(w));
    SpacesAppend(TrailPad(w), q);
  }

  /** Cutting the spaces at both ends first makes no difference to trimLine. */
  lemma TrimLineOfTrim(x: string)
    ensures TrimLine(Trim(x)) == TrimLine(x)
  {
    var i := SkipSpaces(x, 0);
    var u := x[i..];
    var j := SkipSpacesBack(u, |u|);
    var w := Trim(x);
    assert w == u[..j];
    var q := |x| - i - j;
    var y := Spaces(i) + w + Spaces(q);
    forall k | 0 <= k < |x| ensures y[k] == x[k] {
      if i <= k < i + j {
        assert y[k] == w[k - i] == u[k - i];
      } else if i + j <= k {
        assert x[k] == u[k - i];
      }
    }
    assert y == x;
    TrimLineOuterPad(i, w, q);
  }
}
