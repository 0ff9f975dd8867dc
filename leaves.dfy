/** The meaning of getConfigLeaves (private.go): which lines a section
    consumes, which of them are confirmed by a header above them, and what
    each confirmed key line writes into the configuration. The imperative
    cursor walk itself is Config.GetConfigLeaves (config.dfy), proved equal
    to LeavesEnd and LeavesState. */
module Leaves {
  import opened Defs
  import opened GoStrings
  import opened Util
  import opened Lines

  /** Line `y` names the (lower-case) `section`: it is not a comment or
      blank line, and trimmed and lower-cased it equals the section name. */
  predicate HeaderAt(lines: seq<string>, y: nat, section: string)
    requires y < |lines|
  {
    !SkipLine(lines[y]) && ToLower(TrimLine(lines[y])) == section
  }

  /** The backward scan from the key line at `i` finds a header: any line
      among 1 .. i-1 will do, the nearest or not, and line 0 is never read. */
  predicate Confirmed(lines: seq<string>, i: nat, section: string)
    requires i <= |lines|
  {
    exists y :: 1 <= y < i && HeaderAt(lines, y, section)
  }

  /** The trimmed line starts, case-sensitively, with one of the keys. */
  predicate KeyHit(l: string, keys: seq<string>) {
    exists j :: 0 <= j < |keys| && HasPrefix(l, keys[j])
  }

  /** A line the forward cursor walks over: a comment or blank line, or a
      line that starts with one of the keys. */
  predicate Consumable(lines: seq<string>, k: nat, keys: seq<string>)
    requires k < |lines|
  {
    SkipLine(lines[k]) || KeyHit(TrimLine(lines[k]), keys)
  }

  /** The keys as getConfigLeaves uses them, lower-cased. */
  function LowerAll(keys: seq<string>): (r: seq<string>)
    ensures |r| == |keys|
  {
    seq(|keys|, k requires 0 <= k < |keys| => ToLower(keys[k]))
  }

  // ---------------------------------------------------------------------
  // The value lists

  /** A string with no space at either end. */
  predicate Trimmed(s: string) {
    s == [] || (s[0] != ' ' && s[|s| - 1] != ' ')
  }

  /** A string with no upper-case ASCII letter. */
  predicate LowerCase(s: string) {
    forall k :: 0 <= k < |s| ==> !('A' <= s[k] <= 'Z')
  }

  /** The fields of a comma list, each trimmed of spaces (allowed-ip-addr,
      allowed-methods, restrict-paths, exclude-paths). */
  function TrimAll(fs: seq<string>): (r: seq<string>)
    ensures |r| == |fs|
    ensures forall k :: 0 <= k < |r| ==> Trimmed(r[k])
  {
    seq(|fs|, k requires 0 <= k < |fs| => Trim(fs[k]))
  }

  /** The loop that trims every field of a split list in place. */
  method TrimFields(v: seq<string>) returns (r: seq<string>)
    ensures r == TrimAll(v)
  {
    r := v;
    var j := 0;
    while j < |r|
      invariant 0 <= j <= |r| == |v|
      invariant forall k :: 0 <= k < j ==> r[k] == Trim(v[k])
      invariant forall k :: j <= k < |r| ==> r[k] == v[k]
    {
      r := r[j := Trim(r[j])];
      j := j + 1;
    }
  }

  /** Lower-case and trim one host name. */
  lemma LowerTrim(f: string)
    ensures Trimmed(ToLower(Trim(f))) && LowerCase(ToLower(Trim(f)))
  {
    var t := Trim(f);
    var h := ToLower(t);
    if h != [] {
      assert h[0] == ToLowerChar(t[0]);
      assert h[|h| - 1] == ToLowerChar(t[|t| - 1]);
    }
  }

  /** The alternate host names of a split list: empty fragments are
      skipped, the others are trimmed and lower-cased, in order. */
  function HostsOf(fs: seq<string>): (r: seq<string>)
    ensures |r| <= |fs|
    ensures forall k :: 0 <= k < |r| ==> Trimmed(r[k]) && LowerCase(r[k])
    decreases |fs|
  {
    if fs == [] then []
    else
      var last := fs[|fs| - 1];
      LowerTrim(last);
      HostsOf(fs[..|fs| - 1]) + (if last == "" then [] else [ToLower(Trim(last))])
  }

  /** `alternate-hostnames`: the list is rebuilt from empty; a value that
      trims to nothing gives no host names. */
  function AlternateHosts(v: string): (r: seq<string>)
    ensures Trim(v) == "" ==> r == []
    ensures forall k :: 0 <= k < |r| ==> Trimmed(r[k]) && LowerCase(r[k])
  {
    var s := Trim(v);
    if s == "" then [] else HostsOf(Split(s, ','))
  }

  /** A list without empty fragments keeps every one of them, in order. */
  lemma {:induction false} HostsOfNoEmpty(fs: seq<string>)
    requires forall k :: 0 <= k < |fs| ==> fs[k] != ""
    ensures |HostsOf(fs)| == |fs|
    ensures forall k :: 0 <= k < |fs| ==> HostsOf(fs)[k] == ToLower(Trim(fs[k]))
    decreases |fs|
  {
    if fs != [] {
      var init := fs[..|fs| - 1];
      HostsOfNoEmpty(init);
      var h := HostsOf(fs);
      assert h == HostsOf(init) + [ToLower(Trim(fs[|fs| - 1]))];
      forall k | 0 <= k < |fs| ensures h[k] == ToLower(Trim(fs[k])) {
        if k < |init| {
          assert fs[k] == init[k];
        }
      }
    }
  }

  /** The loop of private.go that builds the alternate host names. */
  method AlternateHostNames(v: string) returns (r: seq<string>)
    ensures r == AlternateHosts(v)
  {
    r := [];
    var s := Trim(v);
    if s != "" {
      var fs := Split(s, ',');
      var j := 0;
      while j < |fs|
        invariant 0 <= j <= |fs|
        invariant r == HostsOf(fs[..j])
      {
        assert fs[..j + 1][..j] == fs[..j];
        if fs[j] != "" {
          r := r + [ToLower(Trim(fs[j]))];
        }
        j := j + 1;
      }
      assert fs[..j] == fs;
    }
  }

  /** What replaces the to-part of a forward entry that is not a path. */
  const ForwardErrorText: string := "~@error: fully qualified" + " url-forwarding not allowed"

  lemma ForwardErrorTextShape()
    ensures '|' !in ForwardErrorText
    ensures HasPrefix(ForwardErrorText, "~@error") && !HasPrefix(ForwardErrorText, "/")
  {
    var head := "~@error: fully qualified";
    assert '|' !in head;
    assert '|' !in " url-forwarding not allowed";
    assert head[..7] == "~@error";
    assert ForwardErrorText[..7] == head[..7];
    assert ForwardErrorText[0] == head[0] == '~';
  }

  /** The from-part of a forward entry: the first `|`-field, or "" when
      the entry has no `|`. */
  function FromPart(t: string): string {
    var v := Split(t, '|');
    if |v| > 1 then v[0] else ""
  }

  /** The to-part of a forward entry: the second `|`-field, or "". */
  function ToPart(t: string): string {
    var v := Split(t, '|');
    if |v| > 1 then v[1] else ""
  }

  /** One `forward-paths` entry: trimmed (TrimLeft then TrimRight, which is
      Trim); kept when its to-part starts with `/`, otherwise replaced by
      the from-part and the error text. */
  function ForwardEntry(f: string): string {
    var t := Trim(f);
    if HasPrefix(ToPart(t), "/") then t else FromPart(t) + "|" + ForwardErrorText
  }

  function ForwardList(s: string): (r: seq<string>)
    ensures |r| == |Split(s, ',')|
  {
    var fs := Split(s, ',');
    seq(|fs|, k requires 0 <= k < |fs| => ForwardEntry(fs[k]))
  }

  /** Splitting `a|b` where neither part holds a `|`. */
  lemma {:induction false} SplitPair(a: string, b: string, sep: char)
    requires sep !in a && sep !in b
    ensures Split(a + [sep] + b, sep) == [a, b]
    decreases |a|
  {
    var s := a + [sep] + b;
    if a == [] {
      assert s == [sep] + b;
      assert s[1..] == b;
      SplitNoSep(b, sep);
    } else {
      SplitPair(a[1..], b, sep);
      assert s[1..] == a[1..] + [sep] + b;
      assert [a[0]] + a[1..] == a;
    }
  }

  /** After parsing, every forward entry has a to-part, and that to-part is
      a path starting with `/` or the error text; the from-part is kept,
      and an entry whose to-part starts with `/` is only trimmed. */
  lemma ForwardEntryShape(f: string)
    ensures |Split(ForwardEntry(f), '|')| > 1
    ensures FromPart(ForwardEntry(f)) == FromPart(Trim(f))
    ensures HasPrefix(ToPart(ForwardEntry(f)), "/") || ToPart(ForwardEntry(f)) == ForwardErrorText
    ensures HasPrefix(ToPart(ForwardEntry(f)), "/") ==> ForwardEntry(f) == Trim(f)
  {
    var t := Trim(f);
    if !HasPrefix(ToPart(t), "/") {
      var from := FromPart(t);
      assert '|' !in from;
      ForwardErrorTextShape();
      SplitPair(from, ForwardErrorText, '|');
      assert from + "|" + ForwardErrorText == from + ['|'] + ForwardErrorText;
    }
  }

  /** The loop of private.go that trims and checks each forward entry. */
  method ForwardPaths(s: string) returns (r: seq<string>)
    ensures r == ForwardList(s)
  {
    var fs := Split(s, ',');
    r := fs;
    var j := 0;
    while j < |r|
      invariant 0 <= j <= |r| == |fs|
      invariant forall k :: 0 <= k < j ==> r[k] == ForwardEntry(fs[k])
      invariant forall k :: j <= k < |r| ==> r[k] == fs[k]
    {
      var t := TrimRight(TrimLeft(r[j]));
      var v := Split(t, '|');
      var left, right := "", "";
      if |v| > 1 {
        left, right := v[0], v[1];
      }
      if HasPrefix(right, "/") {
        r := r[j := t];
      } else {
        r := r[j := left + "|" + ForwardErrorText];
      }
      j := j + 1;
    }
  }

  // ---------------------------------------------------------------------
  // One confirmed key line

  /** A key line of the `site` section. The host name is stored as parsed,
      not lower-cased; a port that is not a number is 0. */
  function SiteKey(s: Site, l: string): Site {
    var v := ParseConfigLine(l);
    if HasPrefix(l, "hostname") then s.(hostName := v)
    else if HasPrefix(l, "alternate-hostnames") then s.(alternateHostNames := AlternateHosts(v))
    else if HasPrefix(l, "portno") then s.(portNo := Atoi(v))
    else if HasPrefix(l, "proto") then s.(proto := v)
    else s
  }

  /** A key line of the `tls` section. */
  function TlsKey(t: TlsFiles, l: string): TlsFiles {
    var v := ParseConfigLine(l);
    if HasPrefix(l, "cert") then t.(certFilePath := v)
    else if HasPrefix(l, "key") then t.(keyFilePath := v)
    else t
  }

  /** A key line of the `admin` section; the port is Atoi's value converted
      to Go's `uint`. */
  function AdminKey(a: Admin, l: string): Admin {
    var v := ParseConfigLine(l);
    if HasPrefix(l, "run-on-startup") then a.(runOnStartup := v == "yes")
    else if HasPrefix(l, "portno") then a.(portNo := UintOf(Atoi(v)))
    else if HasPrefix(l, "allowed-ip-addr") then a.(allowedIP := TrimAll(Split(v, ',')))
    else a
  }

  /** A key line of the `messagebanner` section: two separate tests. */
  function BannerKey(b: MessageBanner, l: string): MessageBanner {
    var v := ParseConfigLine(l);
    var b1 := if HasPrefix(l, "display-mode") then b.(on := v == "on") else b;
    if HasPrefix(l, "seconds-to-display") then b1.(secondsToDisplay := Atoi(v)) else b1
  }

  /** A key line of the `http` section. */
  function HttpKey(h: Http, l: string): Http {
    if HasPrefix(l, "allowed-methods") then h.(allowedMethods := TrimAll(Split(ParseConfigLine(l), ',')))
    else h
  }

  /** A key line of the `urlpaths` section. A rule list that does not
      decode leaves the rules as they were. */
  function UrlPathsKey(u: UrlPaths, l: string, decode: RuleDecoder): UrlPaths {
    var v := ParseConfigLine(l);
    if HasPrefix(l, "forward-paths") then u.(forward := ForwardList(v))
    else if HasPrefix(l, "restrict-paths") then u.(restrict := TrimAll(Split(v, ',')))
    else if HasPrefix(l, "exclude-paths") then u.(exclude := TrimAll(Split(v, ',')))
    else if HasPrefix(l, "conditional-http-service") then
      match decode(v)
      case None => u
      case Some(rules) => u.(serveOnlyTo := rules)
    else u
  }

  /** A confirmed key line `l` (already trimmed) of `section` (lower-case). */
  function ApplyKey(st: Settings, section: string, l: string, decode: RuleDecoder): Settings {
    if section == "site" then st.(site := SiteKey(st.site, l))
    else if section == "tls" then st.(tls := TlsKey(st.tls, l))
    else if section == "admin" then st.(admin := AdminKey(st.admin, l))
    else if section == "messagebanner" then st.(messageBanner := BannerKey(st.messageBanner, l))
    else if section == "http" then st.(http := HttpKey(st.http, l))
    else if section == "urlpaths" then st.(urlPaths := UrlPathsKey(st.urlPaths, l, decode))
    else st
  }

  // ---------------------------------------------------------------------
  // The walk over a section

  /** Which lines the forward cursor can walk over. */
  function ConsumableMap(lines: seq<string>, keys: seq<string>): (c: seq<bool>)
    ensures |c| == |lines|
  {
    seq(|lines|, k requires 0 <= k < |lines| => Consumable(lines, k, keys))
  }

  /** The cursor of a walk from `i` over lines marked `c`: the number of
      lines once they run out, or one less than the first unmarked line. */
  function WalkEnd(c: seq<bool>, i: nat): (r: int)
    ensures r >= i - 1
    ensures i <= |c| ==> r <= |c|
    decreases |c| - i
  {
    if i >= |c| then i
    else if !c[i] then i - 1
    else WalkEnd(c, i + 1)
  }

  /** Where getConfigLeaves leaves its cursor when it starts at `i`: the
      number of lines once they run out, or one less than the first line
      that is neither a comment nor a key line, so that the caller's `i++`
      reads that line again. It depends only on the keys, not on the
      section: an unconfirmed key line does not end the walk. */
  function LeavesEnd(lines: seq<string>, i: nat, keys: seq<string>): (r: int)
    ensures r >= i - 1
    ensures i <= |lines| ==> r <= |lines|
  {
    WalkEnd(ConsumableMap(lines, keys), i)
  }

  /** A walk stops exactly at the first unmarked line: with the marks of
      ConsumableMap, every line before the stop is a comment or a key line,
      and the walk returns the line count when every line is one. */
  lemma {:induction false} WalkEndMeaning(c: seq<bool>, i: nat)
    ensures WalkEnd(c, i) >= |c| ==>
      && WalkEnd(c, i) == (if i > |c| then i else |c|)
      && (forall k :: i <= k < |c| ==> c[k])
    ensures WalkEnd(c, i) < |c| ==>
      && i <= WalkEnd(c, i) + 1 < |c|
      && !c[WalkEnd(c, i) + 1]
      && (forall k :: i <= k < WalkEnd(c, i) + 1 ==> c[k])
    decreases |c| - i
  {
    if i < |c| && c[i] {
      WalkEndMeaning(c, i + 1);
    }
  }

  /** The configuration after the walk from `i`: every key line that a
      header above it confirms is applied, in order. */
  function LeavesState(st: Settings, lines: seq<string>, i: nat, section: string,
                       keys: seq<string>, decode: RuleDecoder): Settings
    decreases |lines| - i
  {
    if i >= |lines| then st
    else if SkipLine(lines[i]) then LeavesState(st, lines, i + 1, section, keys, decode)
    else
      var l := TrimLine(lines[i]);
      if !KeyHit(l, keys) then st
      else if !Confirmed(lines, i, section) then LeavesState(st, lines, i + 1, section, keys, decode)
      else LeavesState(ApplyKey(st, section, l, decode), lines, i + 1, section, keys, decode)
  }

  /** One key line of the walk at `i`: None when it ends the walk (no key
      matches), otherwise the configuration after it (changed only when a
      header above confirms it). */
  function LeafStep(st: Settings, lines: seq<string>, i: nat, section: string,
                    keys: seq<string>, decode: RuleDecoder): Option<Settings>
    requires i < |lines|
  {
    var l := TrimLine(lines[i]);
    if !KeyHit(l, keys) then None
    else if !Confirmed(lines, i, section) then Some(st)
    else Some(ApplyKey(st, section, l, decode))
  }

  /** The walk at a line that is not a comment takes one LeafStep. */
  lemma LeavesAt(st: Settings, lines: seq<string>, i: nat, section: string,
                 keys: seq<string>, decode: RuleDecoder)
    requires i < |lines| && !SkipLine(lines[i])
    ensures LeafStep(st, lines, i, section, keys, decode).None? ==>
      && LeavesState(st, lines, i, section, keys, decode) == st
      && WalkEnd(ConsumableMap(lines, keys), i) == i - 1
    ensures LeafStep(st, lines, i, section, keys, decode).Some? ==>
      && LeavesState(st, lines, i, section, keys, decode)
         == LeavesState(LeafStep(st, lines, i, section, keys, decode).value, lines, i + 1, section, keys, decode)
      && WalkEnd(ConsumableMap(lines, keys), i) == WalkEnd(ConsumableMap(lines, keys), i + 1)
  {
    var c := ConsumableMap(lines, keys);
    assert c[i] == KeyHit(TrimLine(lines[i]), keys);
  }

  /** The walk passes over a run of comment and blank lines unchanged. */
  lemma {:induction false} LeavesSkip(st: Settings, lines: seq<string>, i: nat, j: nat, section: string,
                                      keys: seq<string>, decode: RuleDecoder)
    requires i <= j <= |lines|
    requires forall k :: i <= k < j ==> SkipLine(lines[k])
    ensures LeavesState(st, lines, i, section, keys, decode) == LeavesState(st, lines, j, section, keys, decode)
    decreases j - i
  {
    if i < j {
      assert SkipLine(lines[i]);
      LeavesSkip(st, lines, i + 1, j, section, keys, decode);
    }
  }

  /** The cursor passes over a run of comment and blank lines. */
  lemma {:induction false} WalkSkip(lines: seq<string>, i: nat, j: nat, keys: seq<string>)
    requires i <= j <= |lines|
    requires forall k :: i <= k < j ==> SkipLine(lines[k])
    ensures WalkEnd(ConsumableMap(lines, keys), i) == WalkEnd(ConsumableMap(lines, keys), j)
    decreases j - i
  {
    if i < j {
      assert ConsumableMap(lines, keys)[i];
      WalkSkip(lines, i + 1, j, keys);
    }
  }

  /** A section with no header line anywhere below line 0 changes nothing. */
  lemma {:induction false} LeavesUnconfirmed(st: Settings, lines: seq<string>, i: nat, section: string,
                                             keys: seq<string>, decode: RuleDecoder)
    requires forall y :: 1 <= y < |lines| ==> !HeaderAt(lines, y, section)
    ensures LeavesState(st, lines, i, section, keys, decode) == st
    decreases |lines| - i
  {
    if i < |lines| {
      LeavesUnconfirmed(st, lines, i + 1, section, keys, decode);
    }
  }

  /** The parts of the configuration outside `section` are kept. */
  predicate SameOutside(st: Settings, r: Settings, section: string) {
    && (section != "site" ==> r.site == st.site)
    && (section != "tls" ==> r.tls == st.tls)
    && (section != "admin" ==> r.admin == st.admin)
    && (section != "messagebanner" ==> r.messageBanner == st.messageBanner)
    && (section != "http" ==> r.http == st.http)
    && (section != "urlpaths" ==> r.urlPaths == st.urlPaths)
    && r.maintenanceWindowOn == st.maintenanceWindowOn
    && r.redirectHTTPtoHTTPS == st.redirectHTTPtoHTTPS
  }

  lemma ApplyKeyFrame(st: Settings, section: string, l: string, decode: RuleDecoder)
    ensures SameOutside(st, ApplyKey(st, section, l, decode), section)
    ensures ApplyKey(st, section, l, decode).messageBanner.tickCount == st.messageBanner.tickCount
  {
  }

  /** A section writes only its own part of the configuration, and never the
      banner countdown. */
  lemma {:induction false} LeavesFrame(st: Settings, lines: seq<string>, i: nat, section: string,
                                       keys: seq<string>, decode: RuleDecoder)
    ensures SameOutside(st, LeavesState(st, lines, i, section, keys, decode), section)
    ensures LeavesState(st, lines, i, section, keys, decode).messageBanner.tickCount == st.messageBanner.tickCount
    decreases |lines| - i
  {
    if i < |lines| && !SkipLine(lines[i]) {
      var l := TrimLine(lines[i]);
      if KeyHit(l, keys) && Confirmed(lines, i, section) {
        var st' := ApplyKey(st, section, l, decode);
        assert LeavesState(st, lines, i, section, keys, decode) == LeavesState(st', lines, i + 1, section, keys, decode);
        ApplyKeyFrame(st, section, l, decode);
        LeavesFrame(st', lines, i + 1, section, keys, decode);
      } else if KeyHit(l, keys) {
        assert LeavesState(st, lines, i, section, keys, decode) == LeavesState(st, lines, i + 1, section, keys, decode);
        LeavesFrame(st, lines, i + 1, section, keys, decode);
      }
    } else if i < |lines| {
      assert LeavesState(st, lines, i, section, keys, decode) == LeavesState(st, lines, i + 1, section, keys, decode);
      LeavesFrame(st, lines, i + 1, section, keys, decode);
    }
  }

  /** Line 0 takes no part in confirmation. */
  lemma ConfirmedIgnoresFirstLine(lines: seq<string>, i: nat, section: string, x: string)
    requires 0 < |lines| && i <= |lines|
    ensures Confirmed(lines[0 := x], i, section) <==> Confirmed(lines, i, section)
  {
    var lines' := lines[0 := x];
    if Confirmed(lines, i, section) {
      var y :| 1 <= y < i && HeaderAt(lines, y, section);
      assert lines'[y] == lines[y];
      assert HeaderAt(lines', y, section);
    }
    if Confirmed(lines', i, section) {
      var y :| 1 <= y < i && HeaderAt(lines', y, section);
      assert lines'[y] == lines[y];
      assert HeaderAt(lines, y, section);
    }
  }

  // ---------------------------------------------------------------------
  // Key lines as the rewriter writes them: `<spaces>key<spaces>value`

  lemma BannerDisplay(b: MessageBanner, l: string)
    requires HasPrefix(l, "display-mode")
    ensures BannerKey(b, l) == b.(on := ParseConfigLine(l) == "on")
  {
    assert l[0] == 'd';
  }

  /** `display-mode` turns the banner on exactly when the value is `on`. */
  lemma DisplayModeLine(b: MessageBanner, a: nat, n: nat, value: string)
    requires n >= 1
    ensures BannerKey(b, TrimLine(Spaces(a) + "display-mode" + Spaces(n) + value))
            == b.(on := TrimLine(value) == "on")
  {
    KeyLine(a, "display-mode", n, value);
    BannerDisplay(b, TrimLine(Spaces(a) + "display-mode" + Spaces(n) + value));
  }

  lemma AdminRun(adm: Admin, l: string)
    requires HasPrefix(l, "run-on-startup")
    ensures AdminKey(adm, l) == adm.(runOnStartup := ParseConfigLine(l) == "yes")
  {
  }

  /** `run-on-startup` is on exactly when the value is `yes`. */
  lemma RunOnStartupLine(adm: Admin, a: nat, n: nat, value: string)
    requires n >= 1
    ensures AdminKey(adm, TrimLine(Spaces(a) + "run-on-startup" + Spaces(n) + value))
            == adm.(runOnStartup := TrimLine(value) == "yes")
  {
    KeyLine(a, "run-on-startup", n, value);
    AdminRun(adm, TrimLine(Spaces(a) + "run-on-startup" + Spaces(n) + value));
  }

  lemma SitePort(s: Site, l: string)
    requires HasPrefix(l, "portno")
    ensures SiteKey(s, l) == s.(portNo := Atoi(ParseConfigLine(l)))
  {
    assert l[0] == 'p';
    assert !HasPrefix(l, "hostname") by {
      assert "hostname"[0] == 'h';
    }
    assert !HasPrefix(l, "alternate-hostnames") by {
      assert "alternate-hostnames"[0] == 'a';
    }
  }

  /** The site's `portno` is the decimal value of the value, or 0 when the
      value is not a number (a bare key gives 0 too). */
  lemma SitePortLine(s: Site, a: nat, n: nat, value: string)
    requires n >= 1
    ensures SiteKey(s, TrimLine(Spaces(a) + "portno" + Spaces(n) + value))
            == s.(portNo := if TrimLine(value) == "" then 0 else Atoi(TrimLine(value)))
  {
    KeyLine(a, "portno", n, value);
    SitePort(s, TrimLine(Spaces(a) + "portno" + Spaces(n) + value));
    assert !AllDigits("portno") by {
      assert !IsDigit("portno"[0]);
    }
  }

  lemma UrlRestrict(u: UrlPaths, l: string, decode: RuleDecoder)
    requires HasPrefix(l, "restrict-paths")
    ensures UrlPathsKey(u, l, decode) == u.(restrict := TrimAll(Split(ParseConfigLine(l), ',')))
  {
    assert l[0] == 'r';
  }

  lemma BareRestrictValue()
    ensures TrimAll(Split("restrict-paths", ',')) == ["restrict-paths"]
  {
    SplitNoSep("restrict-paths", ',');
    TrimFixpoint("restrict-paths");
  }

  /** A `restrict-paths` line with a blank value (a bare key) restricts the
      path `restrict-paths` itself. */
  lemma BareRestrictLine(u: UrlPaths, a: nat, n: nat, value: string, decode: RuleDecoder)
    requires n >= 1 && TrimLine(value) == ""
    ensures UrlPathsKey(u, TrimLine(Spaces(a) + "restrict-paths" + Spaces(n) + value), decode)
            == u.(restrict := ["restrict-paths"])
  {
    KeyLine(a, "restrict-paths", n, value);
    UrlRestrict(u, TrimLine(Spaces(a) + "restrict-paths" + Spaces(n) + value), decode);
    BareRestrictValue();
  }
}
