/** The parse that GetConfig (public.go) runs over the config file: the
    physical lines are normalised into logical lines, then one pass
    dispatches every top-level line by its lower-cased prefix, handing the
    sections to getConfigLeaves (Leaves). The imperative loops are
    Config.NormalizeLines and Config.GetConfig (config.dfy). */
module Scan {
  import opened Defs
  import opened GoStrings
  import opened Util
  import opened Lines
  import opened Leaves

  // ---------------------------------------------------------------------
  // Logical lines

  /** Every physical line after trimLine. */
  function TrimLines(phys: seq<string>): (t: seq<string>)
    ensures |t| == |phys|
    ensures forall k :: 0 <= k < |t| ==> Clean(t[k])
  {
    seq(|phys|, k requires 0 <= k < |phys| => (TrimLineClean(phys[k]); TrimLine(phys[k])))
  }

  /** The logical lines made from the trimmed physical lines `i..`: a line
      that ends in a backslash loses it and absorbs the next line; a
      backslash on the last line drops that line. */
  function Joins(t: seq<string>, i: nat): (r: seq<string>)
    ensures i <= |t| ==> |r| <= |t| - i
    decreases |t| - i
  {
    if i >= |t| then []
    else if HasSuffix(t[i], "\\") then
      if i + 1 >= |t| then []
      else [t[i][..|t[i]| - 1] + t[i + 1]] + Joins(t, i + 2)
    else [t[i]] + Joins(t, i + 1)
  }

  /** The logical lines of a config file: a blank line is put first unless
      the first physical line is already "" or "#". */
  function Normalize(content: string): seq<string> {
    var phys := Split(content, '\n');
    (if phys[0] != "" && phys[0] != "#" then [""] else []) + Joins(TrimLines(phys), 0)
  }

  /** The first logical line is "" or "#", so the backward scan of
      getConfigLeaves, which never reads line 0, misses no header. */
  lemma NormalizeFirstLine(content: string)
    ensures |Normalize(content)| >= 1
    ensures Normalize(content)[0] == "" || Normalize(content)[0] == "#"
  {
    var phys := Split(content, '\n');
    if phys[0] == "" || phys[0] == "#" {
      assert Clean(phys[0]);
      TrimLineFixpoint(phys[0]);
      assert TrimLines(phys)[0] == phys[0];
      assert !HasSuffix(phys[0], "\\");
    }
  }

  /** A logical line holds no tab and does not start with a space. */
  predicate LogicalLine(l: string) {
    (forall k :: 0 <= k < |l| ==> l[k] != '\t') && (l == [] || l[0] != ' ')
  }

  lemma JoinedLine(t: string, n: string)
    requires Clean(t) && Clean(n) && t != []
    ensures LogicalLine(t[..|t| - 1] + n)
  {
    var j := t[..|t| - 1] + n;
    forall k | 0 <= k < |j| ensures j[k] != '\t' {
      if k < |t| - 1 {
        assert j[k] == t[k];
      } else {
        assert j[k] == n[k - (|t| - 1)];
      }
    }
    if |t| > 1 {
      assert j[0] == t[0];
    }
  }

  /** Every logical line is free of tabs and of leading spaces, joined
      continuation lines included. */
  lemma {:induction false} JoinsLines(t: seq<string>, i: nat)
    requires forall k :: 0 <= k < |t| ==> Clean(t[k])
    ensures forall k :: 0 <= k < |Joins(t, i)| ==> LogicalLine(Joins(t, i)[k])
    decreases |t| - i
  {
    if i < |t| {
      if HasSuffix(t[i], "\\") {
        if i + 1 < |t| {
          JoinedLine(t[i], t[i + 1]);
          JoinsLines(t, i + 2);
        }
      } else {
        JoinsLines(t, i + 1);
      }
    }
  }

  /** Without continuations, every trimmed line is a logical line of its own. */
  lemma {:induction false} JoinsPlain(t: seq<string>, i: nat)
    requires i <= |t|
    requires forall k :: i <= k < |t| ==> !HasSuffix(t[k], "\\")
    ensures Joins(t, i) == t[i..]
    decreases |t| - i
  {
    if i < |t| {
      JoinsPlain(t, i + 1);
      assert t[i..] == [t[i]] + t[i + 1..];
    }
  }

  /** A line ending in a backslash that is last in the file is dropped,
      whatever precedes it: the logical lines of `t + [x]` from a line start
      `i` are those of `t` when `x` ends in a backslash and `t` is used up
      exactly at its end. */
  lemma {:induction false} JoinsDropLast(t: seq<string>, x: string, i: nat)
    requires i <= |t| && HasSuffix(x, "\\")
    requires EndsAt(t, i)
    ensures Joins(t + [x], i) == Joins(t, i)
    decreases |t| - i
  {
    var u := t + [x];
    if i < |t| {
      assert u[i] == t[i];
      if HasSuffix(t[i], "\\") {
        assert u[i + 1] == t[i + 1];
        JoinsDropLast(t, x, i + 2);
      } else {
        JoinsDropLast(t, x, i + 1);
      }
    }
  }

  /** The walk of Joins from `i` lands exactly on the end of `t` (it never
      absorbs a line beyond it). */
  predicate EndsAt(t: seq<string>, i: nat)
    decreases |t| - i
  {
    if i >= |t| then i == |t|
    else if HasSuffix(t[i], "\\") then i + 1 < |t| && EndsAt(t, i + 2)
    else EndsAt(t, i + 1)
  }

  // ---------------------------------------------------------------------
  // Top-level dispatch

  /** What a top-level line is, by its lower-cased prefix, tested in the
      order of public.go. The section names are passed to getConfigLeaves
      as written there and lower-cased inside it. */
  datatype Directive =
    | MaintenanceWindow
    | RedirectHttpToHttps
    | SectionStart(name: string, keys: seq<string>)
    | Ignored

  function DirectiveOf(lower: string): Directive {
    if HasPrefix(lower, "maintenance-window") then MaintenanceWindow
    else if HasPrefix(lower, "site") then SectionStart("site", ["hostname", "alternate-hostnames", "portno", "proto"])
    else if HasPrefix(lower, "tls") then SectionStart("tls", ["cert", "key"])
    else if HasPrefix(lower, "admin") then SectionStart("admin", ["allowed-ip-addr", "run-on-startup", "portno"])
    else if HasPrefix(lower, "redirect-http-to-https") then RedirectHttpToHttps
    else if HasPrefix(lower, "messagebanner") then SectionStart("MessageBanner", ["display-mode", "seconds-to-display"])
    else if HasPrefix(lower, "http") then SectionStart("HTTP", ["allowed-methods"])
    else if HasPrefix(lower, "urlpaths") then
      SectionStart("URLPaths", ["restrict-paths", "exclude-paths", "forward-paths", "conditional-http-service"])
    else Ignored
  }

  /** The value of `maintenance-window`: on exactly when it is `on` in any case. */
  function MaintenanceOn(l: string): bool {
    ToLower(ParseConfigLine(l)) == "on"
  }

  /** The value of `redirect-http-to-https`: on exactly when it is `yes` in any case. */
  function RedirectOn(l: string): bool {
    ToLower(ParseConfigLine(l)) == "yes"
  }

  /** Comment and blank lines at the top level (the line is trimmed first). */
  predicate TopSkip(line: string) {
    var l := Trim(line);
    SkipLine(l) || l == ""
  }

  /** One top-level line `i`: the settings after it and the line the pass
      goes on with. A section hands the lines after its header to
      getConfigLeaves and resumes one past the cursor it returns. */
  function Step(st: Settings, lines: seq<string>, i: nat, decode: RuleDecoder): (r: (Settings, nat))
    requires i < |lines|
    ensures r.1 > i
  {
    if TopSkip(lines[i]) then (st, i + 1)
    else
      var l := Trim(lines[i]);
      match DirectiveOf(ToLower(l))
      case MaintenanceWindow => (st.(maintenanceWindowOn := MaintenanceOn(l)), i + 1)
      case RedirectHttpToHttps => (st.(redirectHTTPtoHTTPS := RedirectOn(l)), i + 1)
      case SectionStart(name, keys) =>
        var section, ks := ToLower(name), LowerAll(keys);
        (LeavesState(st, lines, i + 1, section, ks, decode), LeavesEnd(lines, i + 1, ks) + 1)
      case Ignored => (st, i + 1)
  }

  /** The top-level pass from line `i` to the end. */
  function ScanFrom(st: Settings, lines: seq<string>, i: nat, decode: RuleDecoder): Settings
    decreases |lines| - i
  {
    if i >= |lines| then st
    else
      var (st', next) := Step(st, lines, i, decode);
      ScanFrom(st', lines, next, decode)
  }

  /** Arming the banner after the pass: a banner that is on with a positive
      display time starts its countdown from that time. */
  function Arm(b: MessageBanner): (r: MessageBanner)
    ensures r.on == b.on && r.secondsToDisplay == b.secondsToDisplay
    ensures r.on && r.secondsToDisplay > 0 ==> r.tickCount == r.secondsToDisplay
    ensures !(b.on && b.secondsToDisplay > 0) ==> r.tickCount == b.tickCount
  {
    if b.on && b.secondsToDisplay > 0 then b.(tickCount := b.secondsToDisplay) else b
  }

  /** The top-level pass over the normalised lines, then the arming. */
  function ScanArm(st: Settings, lines: seq<string>, decode: RuleDecoder): Settings {
    var s := ScanFrom(st, lines, 0, decode);
    s.(messageBanner := Arm(s.messageBanner))
  }

  /** The settings after GetConfig has parsed `content` (past the digest gate). */
  function ParseSettings(st: Settings, content: string, decode: RuleDecoder): Settings {
    ScanArm(st, Normalize(content), decode)
  }

  lemma StepTickCount(st: Settings, lines: seq<string>, i: nat, decode: RuleDecoder)
    requires i < |lines|
    ensures Step(st, lines, i, decode).0.messageBanner.tickCount == st.messageBanner.tickCount
  {
    if !TopSkip(lines[i]) {
      var l := Trim(lines[i]);
      match DirectiveOf(ToLower(l))
      case SectionStart(name, keys) =>
        LeavesFrame(st, lines, i + 1, ToLower(name), LowerAll(keys), decode);
      case _ =>
    }
  }

  /** The pass never writes the countdown itself: only Arm does. */
  lemma {:induction false} ScanTickCount(st: Settings, lines: seq<string>, i: nat, decode: RuleDecoder)
    ensures ScanFrom(st, lines, i, decode).messageBanner.tickCount == st.messageBanner.tickCount
    decreases |lines| - i
  {
    if i < |lines| {
      var (st', next) := Step(st, lines, i, decode);
      StepTickCount(st, lines, i, decode);
      ScanTickCount(st', lines, next, decode);
    }
  }

  /** After a parse the countdown is armed from the display time when the
      banner is on with a positive display time, and is the one from before
      otherwise. */
  lemma ParseArmsBanner(st: Settings, content: string, decode: RuleDecoder)
    ensures var b := ParseSettings(st, content, decode).messageBanner;
      && (b.on && b.secondsToDisplay > 0 ==> b.tickCount == b.secondsToDisplay)
      && (!(b.on && b.secondsToDisplay > 0) ==> b.tickCount == st.messageBanner.tickCount)
  {
    ScanTickCount(st, Normalize(content), 0, decode);
  }

  /** A top-level line `<spaces>key<spaces>value`, trimmed as the pass
      trims it, has the trimmed value as its value, or the key when the value
      is blank. */
  lemma TopLevelValue(a: nat, key: string, n: nat, value: string)
    requires key != "" && ' ' !in key && '\t' !in key
    requires n >= 1
    ensures ParseConfigLine(Trim(Spaces(a) + key + Spaces(n) + value))
            == if TrimLine(value) == "" then key else TrimLine(value)
  {
    TrimLineOfTrim(Spaces(a) + key + Spaces(n) + value);
    ParseKeyValue(a, key, n, value);
  }

  /** A top-level `maintenance-window` line turns maintenance on exactly
      when its value is `on`, in any case; a bare key turns it off. */
  lemma MaintenanceLine(a: nat, n: nat, value: string)
    requires n >= 1
    ensures MaintenanceOn(Trim(Spaces(a) + "maintenance-window" + Spaces(n) + value))
            <==> ToLower(TrimLine(value)) == "on"
  {
    TopLevelValue(a, "maintenance-window", n, value);
  }

  /** A top-level `redirect-http-to-https` line turns the redirect on
      exactly when its value is `yes`, in any case. */
  lemma RedirectLine(a: nat, n: nat, value: string)
    requires n >= 1
    ensures RedirectOn(Trim(Spaces(a) + "redirect-http-to-https" + Spaces(n) + value))
            <==> ToLower(TrimLine(value)) == "yes"
  {
    TopLevelValue(a, "redirect-http-to-https", n, value);
  }
}
