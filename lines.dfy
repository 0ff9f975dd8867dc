/** skipLine and parseCofigLine (private.go): the two per-line helpers of
    the section parser. */
module Lines {
  import opened GoStrings
  import opened Util

  /** A comment or blank line: after cutting the spaces at both ends it is
      empty or starts with `#`. */
  predicate SkipLine(l: string) {
    var t := Trim(l);
    HasPrefix(t, "#") || t == ""
  }

  /** skipLine looks only at the first character that is not a space. */
  lemma SkipLineLead(l: string)
    ensures SkipLine(l) <==> SkipSpaces(l, 0) == |l| || l[SkipSpaces(l, 0)] == '#'
  {
    TrimHead(l);
  }

  /** skipLine read off the raw line: all spaces, or the first character
      that is not a space is `#`. */
  lemma SkipLineMeaning(l: string)
    ensures SkipLine(l) <==>
      (forall k :: 0 <= k < |l| ==> l[k] == ' ') ||
      (exists k :: 0 <= k < |l| && l[k] == '#' && forall m :: 0 <= m < k ==> l[m] == ' ')
  {
    SkipLineLead(l);
    var lead := SkipSpaces(l, 0);
    if lead < |l| {
      if l[lead] == '#' {
        assert forall m :: 0 <= m < lead ==> l[m] == ' ';
      } else {
        forall k | 0 <= k < |l| && l[k] == '#' ensures exists m :: 0 <= m < k && l[m] != ' ' {
          assert lead < k;
          assert l[lead] != ' ';
        }
      }
    }
  }

  /** parseCofigLine: the trimmed text after the first space of the trimmed
      line, or the whole trimmed line when it has no space. (The Go
      function's `key` argument is unused and is not modelled.) */
  function ParseConfigLine(line: string): (v: string)
    ensures Clean(v)
  {
    TrimLineClean(line);
    ValueOf(TrimLine(line))
  }

  /** The value part of an already trimmed line. */
  function ValueOf(l: string): (v: string)
    requires Clean(l)
    ensures Clean(v)
  {
    var i := Index(l, " ");
    if i < 0 then l
    else
      TrimLineClean(l[i..]);
      TrimLine(l[i..])
  }

  /** A bare word with no space parses to itself, so a bare
      `restrict-paths` line has the value `restrict-paths`. */
  lemma ParseBareKey(a: nat, key: string, b: nat)
    requires key != "" && ' ' !in key && '\t' !in key
    ensures ParseConfigLine(Spaces(a) + key + Spaces(b)) == key
  {
    TrimLinePadded(a, key, b);
    IndexOfAbsentChar(key, ' ');
  }

  /** `pre` is `key` at column `a`, with spaces everywhere else. */
  predicate KeyAt(pre: string, a: nat, key: string) {
    && a + |key| <= |pre|
    && forall k :: 0 <= k < |pre| ==> pre[k] == if a <= k < a + |key| then key[k - a] else ' '
  }

  lemma KeyAtPadded(a: nat, key: string, b: nat)
    ensures KeyAt(Spaces(a) + key + Spaces(b), a, key)
  {
  }

  /** Two clean words joined by spaces make a clean string. */
  lemma CleanJoin(x: string, n: nat, z: string)
    requires Clean(x) && Clean(z) && x != [] && z != []
    ensures Clean(x + Spaces(n) + z)
  {
    var s := x + Spaces(n) + z;
    forall k | 0 <= k < |s| ensures s[k] != '\t' {
      if k < |x| {
        assert s[k] == x[k];
      } else if k < |x| + n {
        assert s[k] == ' ';
      } else {
        assert s[k] == z[k - |x| - n];
      }
    }
    assert s[0] == x[0];
    assert s[|s| - 1] == z[|z| - 1];
  }

  /** The characters of `pre + value` once its tabs are spaces. */
  lemma KeyValueChars(pre: string, a: nat, key: string, value: string)
    requires KeyAt(pre, a, key) && '\t' !in key
    ensures |ReplaceTabs(pre + value)| == |pre| + |value|
    ensures forall j :: 0 <= j < |value| ==> ReplaceTabs(pre + value)[|pre| + j] == ReplaceTabs(value)[j]
    ensures forall k :: 0 <= k < |pre| ==> ReplaceTabs(pre + value)[k] == pre[k]
  {
    var line := pre + value;
    forall j | 0 <= j < |value| ensures ReplaceTabs(line)[|pre| + j] == ReplaceTabs(value)[j] {
      assert line[|pre| + j] == value[j];
    }
    forall k | 0 <= k < |pre| ensures ReplaceTabs(line)[k] == pre[k] {
      assert line[k] == pre[k];
    }
  }

  /** A key followed by spaces and a blank value trims to the key. */
  lemma TrimKeyBlank(pre: string, a: nat, key: string, value: string)
    requires KeyAt(pre, a, key) && key != "" && ' ' !in key && '\t' !in key
    requires TrimLine(value) == ""
    ensures TrimLine(pre + value) == key
  {
    var t := ReplaceTabs(pre + value);
    var rv := ReplaceTabs(value);
    KeyValueChars(pre, a, key, value);
    TrimLineAt(value);
    forall k | a + |key| <= k < |t| ensures t[k] == ' ' {
      if |pre| <= k {
        assert t[|pre| + (k - |pre|)] == rv[k - |pre|];
      }
    }
    TrimLineBounds(pre + value, a, a + |key|);
    assert t[a..a + |key|] == key;
  }

  /** Where the trimmed text of `pre + value` ends when the value is not blank. */
  lemma TrimKeyPairBounds(pre: string, a: nat, key: string, value: string)
    requires KeyAt(pre, a, key) && key != "" && ' ' !in key && '\t' !in key
    requires TrimLine(value) != ""
    ensures |pre| + LeadPad(value) + |TrimLine(value)| <= |pre + value|
    ensures TrimLine(pre + value) == ReplaceTabs(pre + value)[a..|pre| + LeadPad(value) + |TrimLine(value)|]
  {
    var t := ReplaceTabs(pre + value);
    var rv := ReplaceTabs(value);
    var p := |pre|;
    var c, tv := LeadPad(value), TrimLine(value);
    KeyValueChars(pre, a, key, value);
    TrimLineAt(value);
    TrimLineClean(value);
    var hi := p + c + |tv|;
    assert t[p + (c + |tv| - 1)] == rv[c + |tv| - 1] == tv[|tv| - 1];
    forall k | hi <= k < |t| ensures t[k] == ' ' {
      assert t[p + (k - p)] == rv[k - p];
    }
    TrimLineBounds(pre + value, a, hi);
  }

  /** A key, spaces and a non-blank value trim to the key, the spaces
      (together with those that lead the value) and the trimmed value. */
  lemma TrimKeyPair(pre: string, a: nat, key: string, value: string)
    requires KeyAt(pre, a, key) && key != "" && ' ' !in key && '\t' !in key
    requires TrimLine(value) != ""
    ensures TrimLine(pre + value) == key + Spaces(|pre| - a - |key| + LeadPad(value)) + TrimLine(value)
  {
    var t := ReplaceTabs(pre + value);
    var rv := ReplaceTabs(value);
    var p := |pre|;
    var c, tv := LeadPad(value), TrimLine(value);
    TrimKeyPairBounds(pre, a, key, value);
    KeyValueChars(pre, a, key, value);
    TrimLineAt(value);
    var n := p - a - |key| + c;
    var r := key + Spaces(n) + tv;
    forall k | 0 <= k < |r| ensures t[a + k] == r[k] {
      if k < |key| {
      } else if a + k < p {
        assert r[k] == ' ';
      } else {
        assert t[p + (a + k - p)] == rv[a + k - p];
        if k < |key| + n {
          assert r[k] == ' ';
        } else {
          assert r[k] == tv[k - |key| - n] == rv[c + (k - |key| - n)];
        }
      }
    }
    assert t[a..a + |r|] == r;
  }

  lemma DropFront(k: string, x: string, y: string)
    ensures (k + x + y)[|k|..] == x + y + []
  {
  }

  /** The value of a key, spaces and a non-blank clean value is that value. */
  lemma ValueOfPair(key: string, n: nat, tv: string)
    requires key != "" && ' ' !in key && '\t' !in key
    requires n >= 1 && tv != "" && Clean(tv)
    ensures Clean(key + Spaces(n) + tv)
    ensures ValueOf(key + Spaces(n) + tv) == tv
  {
    var core := key + Spaces(n) + tv;
    CleanJoin(key, n, tv);
    assert core[..|key|] == key;
    IndexOfChar(core, ' ', |key|);
    DropFront(key, Spaces(n), tv);
    assert Spaces(0) == [];
    TrimLinePadded(n, tv, 0);
  }

  /** Parsing a key at column `a` followed by at least one space and a
      value gives the trimmed value, or the key itself when the value is
      blank. */
  lemma ParseKeyAt(pre: string, a: nat, key: string, value: string)
    requires KeyAt(pre, a, key) && key != "" && ' ' !in key && '\t' !in key
    requires |pre| > a + |key|
    ensures ParseConfigLine(pre + value) == if TrimLine(value) == "" then key else TrimLine(value)
  {
    if TrimLine(value) == "" {
      TrimKeyBlank(pre, a, key, value);
      IndexOfAbsentChar(key, ' ');
    } else {
      TrimKeyPair(pre, a, key, value);
      TrimLineClean(value);
      ValueOfPair(key, |pre| - a - |key| + LeadPad(value), TrimLine(value));
    }
  }

  /** Parsing the line `<spaces> key <spaces> value` gives the trimmed value,
      or the key itself when the value is blank. This is the shape of the
      line that UpdateConfigValue writes. */
  lemma ParseKeyValue(a: nat, key: string, b: nat, value: string)
    requires key != "" && ' ' !in key && '\t' !in key
    requires b >= 1
    ensures ParseConfigLine(Spaces(a) + key + Spaces(b) + value)
            == if TrimLine(value) == "" then key else TrimLine(value)
  {
    KeyAtPadded(a, key, b);
    ParseKeyAt(Spaces(a) + key + Spaces(b), a, key, value);
  }

  /** The same, for the line once trimLine has run on it: it still starts
      with the key, and parsing it again changes nothing. This is how the
      section parser sees a key line. */
  lemma KeyLine(a: nat, key: string, b: nat, value: string)
    requires key != "" && ' ' !in key && '\t' !in key
    requires b >= 1
    ensures HasPrefix(TrimLine(Spaces(a) + key + Spaces(b) + value), key)
    ensures ParseConfigLine(TrimLine(Spaces(a) + key + Spaces(b) + value))
            == if TrimLine(value) == "" then key else TrimLine(value)
  {
    var pre := Spaces(a) + key + Spaces(b);
    KeyAtPadded(a, key, b);
    ParseKeyAt(pre, a, key, value);
    TrimLineIdempotent(pre + value);
    if TrimLine(value) == "" {
      TrimKeyBlank(pre, a, key, value);
    } else {
      TrimKeyPair(pre, a, key, value);
    }
  }
}
