/** The Config object of defs.go and the methods of private.go and
    public.go that update it in place: getConfigLeaves, getData, GetConfig,
    UpdateConfigValue and one tick of setTimeoutResetMsgBanner. The config
    file and the blocked-ip file are fields holding their text; the file
    digest and the JSON decoder of rule lists are given at construction. */
module WebConfig {
  import opened Defs
  import opened GoStrings
  import opened Util
  import opened Lines
  import opened Leaves
  import opened Scan
  import opened Data
  import opened Rewrite
  import opened Validate

  /** The settings of a Config that has not read any file yet. */
  function ZeroSettings(): Settings {
    Settings(
      Site("", [], "", 0),
      TlsFiles("", ""),
      Admin(false, 0, []),
      MessageBanner(false, 0, 0),
      Http([]),
      UrlPaths([], [], [], []),
      false,
      false)
  }

  // ---------------------------------------------------------------------
  // The banner countdown

  /** One pass of setTimeoutResetMsgBanner: None when the task stops (the
      banner is off, or has no countdown or display time left), otherwise
      the banner with one second less, turned off when none is left. */
  function TickBanner(b: MessageBanner): (r: Option<MessageBanner>)
    ensures r.None? <==> !b.on || b.tickCount < 1 || b.secondsToDisplay < 1
    ensures r.Some? ==>
      && r.value.tickCount == b.tickCount - 1 >= 0
      && r.value.secondsToDisplay == b.secondsToDisplay
      && (r.value.on <==> r.value.tickCount >= 1)
  {
    if !b.on || b.tickCount < 1 || b.secondsToDisplay < 1 then None
    else
      var n := b.tickCount - 1;
      Some(if n < 1 then b.(tickCount := n, on := false) else b.(tickCount := n))
  }

  /** The banner after `k` passes, or None when the task has stopped before. */
  function RunTicks(b: MessageBanner, k: nat): Option<MessageBanner>
    decreases k
  {
    if k == 0 then Some(b)
    else
      match RunTicks(b, k - 1)
      case None => None
      case Some(c) => TickBanner(c)
  }

  /** From a countdown of `n`, the banner stays on with `n - k` seconds left
      for the first `n - 1` passes, is turned off at pass `n`, and the task
      then stops; the countdown never goes below 0. */
  lemma {:induction false} Countdown(b: MessageBanner, n: nat, k: nat)
    requires b.on && b.secondsToDisplay >= 1 && b.tickCount == n >= 1
    requires k <= n
    ensures k < n ==> RunTicks(b, k) == Some(b.(tickCount := n - k))
    ensures k == n ==> RunTicks(b, k) == Some(b.(tickCount := 0, on := false))
    ensures k == n ==> TickBanner(RunTicks(b, k).value).None?
    decreases k
  {
    if k > 0 {
      Countdown(b, n, k - 1);
    }
  }

  /** Appending one line, regrouped. */
  lemma AppendAssoc(a: seq<string>, x: string, b: seq<string>)
    ensures a + ([x] + b) == (a + [x]) + b
  {
  }

  // ---------------------------------------------------------------------
  // The Config object

  class Config {
    var configFileLastHash: string
    var site: Site
    var tls: TlsFiles
    var admin: Admin
    var messageBanner: MessageBanner
    var http: Http
    var urlPaths: UrlPaths
    var maintenanceWindowOn: bool
    var redirectHTTPtoHTTPS: bool
    var validateRemoteHost: bool
    var blockedIP: seq<string>
    var data: map<string, string>

    /** The text of the config file and of the blocked-ip file (None when
        that file does not exist). */
    var configFile: string
    var blockedIPFile: Option<string>

    /** The hex digest of a file's text, and the JSON decoding of a rule list. */
    const digestOf: string -> string
    const decode: RuleDecoder

    /** The settings a parse writes. */
    function Snapshot(): Settings
      reads this`site, this`tls, this`admin, this`messageBanner, this`http, this`urlPaths
      reads this`maintenanceWindowOn, this`redirectHTTPtoHTTPS
    {
      Settings(site, tls, admin, messageBanner, http, urlPaths, maintenanceWindowOn, redirectHTTPtoHTTPS)
    }

    /** NewWebConfig without its directories: a zero Config that reads its
        file once. */
    constructor(file: string, blockedFile: Option<string>, digest: string -> string, dec: RuleDecoder)
      ensures configFile == file && blockedIPFile == blockedFile
      ensures digestOf == digest && decode == dec
      ensures !validateRemoteHost
      ensures digest(file) != "" ==>
        && configFileLastHash == digest(file)
        && Snapshot() == ParseSettings(ZeroSettings(), file, dec)
        && data == DataOf(map[], Normalize(file))
        && blockedIP == (if blockedFile.Some? then BlockedIPs(blockedFile.value) else [])
      ensures digest(file) == "" ==>
        && configFileLastHash == ""
        && Snapshot() == ZeroSettings()
        && data == map[] && blockedIP == []
    {
      configFileLastHash := "";
      site, tls, admin := Site("", [], "", 0), TlsFiles("", ""), Admin(false, 0, []);
      messageBanner, http := MessageBanner(false, 0, 0), Http([]);
      urlPaths := UrlPaths([], [], [], []);
      maintenanceWindowOn, redirectHTTPtoHTTPS, validateRemoteHost := false, false, false;
      blockedIP, data := [], map[];
      configFile, blockedIPFile := file, blockedFile;
      digestOf, decode := digest, dec;
      new;
      assert Snapshot() == ZeroSettings();
      GetConfig();
      ghost var parsed := Snapshot();
      if messageBanner.on && messageBanner.secondsToDisplay > 0 {
        messageBanner := messageBanner.(tickCount := messageBanner.secondsToDisplay);
      }
      assert digest(file) != "" ==> messageBanner == parsed.messageBanner;
    }

    /** One confirmed key line `l` (trimmed) of `section` (lower-case),
        written into the section's fields. */
    method ApplyLeaf(section: string, l: string)
      modifies this`site, this`tls, this`admin, this`messageBanner, this`http, this`urlPaths
      ensures Snapshot() == ApplyKey(old(Snapshot()), section, l, decode)
    {
      if section == "site" {
        SiteLeaf(l);
      } else if section == "tls" {
        TlsLeaf(l);
      } else if section == "admin" {
        AdminLeaf(l);
      } else if section == "messagebanner" {
        BannerLeaf(l);
      } else if section == "http" {
        HttpLeaf(l);
      } else if section == "urlpaths" {
        UrlPathsLeaf(l);
      }
    }

    /** The `site` keys: hostname, alternate-hostnames, portno, proto. */
    method SiteLeaf(l: string)
      modifies this`site
      ensures site == SiteKey(old(site), l)
    {
      var v := ParseConfigLine(l);
      if HasPrefix(l, "hostname") {
        site := site.(hostName := v);
      } else if HasPrefix(l, "alternate-hostnames") {
        var hs := AlternateHostNames(v);
        site := site.(alternateHostNames := hs);
      } else if HasPrefix(l, "portno") {
        site := site.(portNo := Atoi(v));
      } else if HasPrefix(l, "proto") {
        site := site.(proto := v);
      }
    }

    /** The `tls` keys: cert, key. */
    method TlsLeaf(l: string)
      modifies this`tls
      ensures tls == TlsKey(old(tls), l)
    {
      var v := ParseConfigLine(l);
      if HasPrefix(l, "cert") {
        tls := tls.(certFilePath := v);
      } else if HasPrefix(l, "key") {
        tls := tls.(keyFilePath := v);
      }
    }

    /** The `admin` keys: run-on-startup, portno, allowed-ip-addr. */
    method AdminLeaf(l: string)
      modifies this`admin
      ensures admin == AdminKey(old(admin), l)
    {
      var v := ParseConfigLine(l);
      if HasPrefix(l, "run-on-startup") {
        admin := admin.(runOnStartup := v == "yes");
      } else if HasPrefix(l, "portno") {
        admin := admin.(portNo := UintOf(Atoi(v)));
      } else if HasPrefix(l, "allowed-ip-addr") {
        var ips := TrimFields(Split(v, ','));
        admin := admin.(allowedIP := ips);
      }
    }

    /** The `messagebanner` keys: display-mode, seconds-to-display. */
    method BannerLeaf(l: string)
      modifies this`messageBanner
      ensures messageBanner == BannerKey(old(messageBanner), l)
    {
      var v := ParseConfigLine(l);
      if HasPrefix(l, "display-mode") {
        messageBanner := messageBanner.(on := v == "on");
      }
      if HasPrefix(l, "seconds-to-display") {
        messageBanner := messageBanner.(secondsToDisplay := Atoi(v));
      }
    }

    /** The `http` key: allowed-methods. */
    method HttpLeaf(l: string)
      modifies this`http
      ensures http == HttpKey(old(http), l)
    {
      if HasPrefix(l, "allowed-methods") {
        var ms := TrimFields(Split(ParseConfigLine(l), ','));
        http := http.(allowedMethods := ms);
      }
    }

    /** The `urlpaths` keys: forward-paths, restrict-paths, exclude-paths,
        conditional-http-service. */
    method UrlPathsLeaf(l: string)
      modifies this`urlPaths
      ensures urlPaths == UrlPathsKey(old(urlPaths), l, decode)
    {
      var v := ParseConfigLine(l);
      if HasPrefix(l, "forward-paths") {
        var fw := ForwardPaths(v);
        urlPaths := urlPaths.(forward := fw);
      } else if HasPrefix(l, "restrict-paths") {
        var rs := TrimFields(Split(v, ','));
        urlPaths := urlPaths.(restrict := rs);
      } else if HasPrefix(l, "exclude-paths") {
        var ex := TrimFields(Split(v, ','));
        urlPaths := urlPaths.(exclude := ex);
      } else if HasPrefix(l, "conditional-http-service") {
        match decode(v)
        case None =>
        case Some(rules) =>
          urlPaths := urlPaths.(serveOnlyTo := rules);
      }
    }

    /** getConfigLeaves: from line `i0`, walk forward over comment lines
        and key lines, apply each key line that a header above confirms,
        and return where the walk stopped (one less than the line that
        ended it). */
    method GetConfigLeaves(lines: seq<string>, i0: nat, section0: string, keys0: seq<string>)
      returns (next: int)
      modifies this`site, this`tls, this`admin, this`messageBanner, this`http, this`urlPaths
      ensures next == LeavesEnd(lines, i0, LowerAll(keys0))
      ensures Snapshot() == LeavesState(old(Snapshot()), lines, i0, ToLower(section0), LowerAll(keys0), decode)
    {
      var section := ToLower(section0);
      var keys := LowerKeys(keys0);
      ghost var c := ConsumableMap(lines, keys);
      ghost var target := LeavesState(Snapshot(), lines, i0, section, keys, decode);
      var i := i0;
      while true
        invariant i0 <= i
        invariant WalkEnd(c, i) == WalkEnd(c, i0)
        invariant LeavesState(Snapshot(), lines, i, section, keys, decode) == target
        decreases |lines| - i
      {
        var stop, n := WalkOnce(lines, i, section, keys);
        if stop {
          return n;
        }
        i := n;
      }
    }

    /** One round of the loop of getConfigLeaves from line `i`: pass over
        comment lines, then either stop (lines run out, or the line starts
        with no key) or take the key line and go on with the next one. */
    method WalkOnce(lines: seq<string>, i: nat, section: string, keys: seq<string>)
      returns (stop: bool, next: int)
      modifies this`site, this`tls, this`admin, this`messageBanner, this`http, this`urlPaths
      ensures stop ==>
        && next == WalkEnd(ConsumableMap(lines, keys), i)
        && Snapshot() == LeavesState(old(Snapshot()), lines, i, section, keys, decode)
      ensures !stop ==>
        && i < next <= |lines|
        && WalkEnd(ConsumableMap(lines, keys), next) == WalkEnd(ConsumableMap(lines, keys), i)
        && LeavesState(Snapshot(), lines, next, section, keys, decode)
           == LeavesState(old(Snapshot()), lines, i, section, keys, decode)
    {
      ghost var c := ConsumableMap(lines, keys);
      if i >= |lines| {
        assert WalkEnd(c, i) == i;
        return true, i;
      }
      var j := SkipComments(lines, i);
      WalkSkip(lines, i, j, keys);
      LeavesSkip(Snapshot(), lines, i, j, section, keys, decode);
      if j >= |lines| {
        assert WalkEnd(c, j) == j;
        return true, j;
      }
      ghost var st := Snapshot();
      LeavesAt(st, lines, j, section, keys, decode);
      var hitValue := Leaf(lines, j, section, keys);
      if !hitValue {
        return true, j - 1;
      }
      return false, j + 1;
    }

    /** The body of getConfigLeaves at a line that is not a comment: false
        when no key matches it; otherwise true, after applying the line
        when a header above confirms it. */
    method Leaf(lines: seq<string>, i: nat, section: string, keys: seq<string>) returns (hitValue: bool)
      requires i < |lines|
      modifies this`site, this`tls, this`admin, this`messageBanner, this`http, this`urlPaths
      ensures hitValue == LeafStep(old(Snapshot()), lines, i, section, keys, decode).Some?
      ensures hitValue ==> Snapshot() == LeafStep(old(Snapshot()), lines, i, section, keys, decode).value
      ensures !hitValue ==> Snapshot() == old(Snapshot())
    {
      var l := TrimLine(lines[i]);
      hitValue := HitsKey(l, keys);
      if !hitValue {
        return;
      }
      var hitSection := HeaderAbove(lines, i, section);
      if hitSection {
        ApplyLeaf(section, l);
      }
    }

    /** The comment loop of getConfigLeaves: the first line at or after
        `i` that is not a comment or blank line, or the line count. */
    static method SkipComments(lines: seq<string>, i: nat) returns (j: nat)
      requires i <= |lines|
      ensures i <= j <= |lines|
      ensures forall k :: i <= k < j ==> SkipLine(lines[k])
      ensures j < |lines| ==> !SkipLine(lines[j])
    {
      j := i;
      while j < |lines| && SkipLine(lines[j])
        invariant i <= j <= |lines|
        invariant forall k :: i <= k < j ==> SkipLine(lines[k])
      {
        j := j + 1;
      }
    }

    /** The key loop of getConfigLeaves: the keys lower-cased. */
    static method LowerKeys(keys0: seq<string>) returns (keys: seq<string>)
      ensures keys == LowerAll(keys0)
    {
      keys := keys0;
      var j := 0;
      while j < |keys|
        invariant 0 <= j <= |keys| == |keys0|
        invariant forall y :: 0 <= y < j ==> keys[y] == ToLower(keys0[y])
        invariant forall y :: j <= y < |keys| ==> keys[y] == keys0[y]
      {
        keys := keys[j := ToLower(keys[j])];
        j := j + 1;
      }
    }

    /** The hitValue loop of getConfigLeaves. */
    static method HitsKey(l: string, keys: seq<string>) returns (hit: bool)
      ensures hit == KeyHit(l, keys)
    {
      var j := 0;
      while j < |keys|
        invariant 0 <= j <= |keys|
        invariant forall y :: 0 <= y < j ==> !HasPrefix(l, keys[y])
      {
        if HasPrefix(l, keys[j]) {
          return true;
        }
        j := j + 1;
      }
      return false;
    }

    /** The hitSection loop of getConfigLeaves: walk up from line `i - 1`
        to line 1, over comment lines, looking for the section's header. */
    static method HeaderAbove(lines: seq<string>, i: nat, section: string) returns (hit: bool)
      requires i <= |lines|
      ensures hit == Confirmed(lines, i, section)
    {
      var x := i - 1;
      while x >= 1
        invariant x < i
        invariant forall y :: x < y < i && y >= 1 ==> !HeaderAt(lines, y, section)
      {
        if SkipLine(lines[x]) {
          x := x - 1;
          continue;
        }
        if ToLower(TrimLine(lines[x])) == section {
          assert HeaderAt(lines, x, section);
          return true;
        }
        x := x - 1;
      }
      return false;
    }

    /** The line normalisation of GetConfig: trimLine every physical line,
        join continuation lines, and put a blank line first unless the file
        starts with "" or "#". */
    method NormalizeLines(content: string) returns (line: seq<string>)
      ensures line == Normalize(content)
    {
      var linex := Split(content, '\n');
      ghost var ts := TrimLines(linex);
      line := if linex[0] != "" && linex[0] != "#" then [""] else [];
      var i := 0;
      while i < |linex|
        invariant 0 <= i <= |linex|
        invariant line + Joins(ts, i) == Normalize(content)
        decreases |linex| - i
      {
        var t := TrimLine(linex[i]);
        assert t == ts[i];
        if HasSuffix(t, "\\") {
          if i + 1 >= |linex| {
            assert Joins(ts, i) == [];
            break;
          }
          var s := t[..|t| - 1] + TrimLine(linex[i + 1]);
          assert Joins(ts, i) == [s] + Joins(ts, i + 2);
          AppendAssoc(line, s, Joins(ts, i + 2));
          line := line + [s];
          i := i + 2;
        } else {
          assert Joins(ts, i) == [t] + Joins(ts, i + 1);
          AppendAssoc(line, t, Joins(ts, i + 1));
          line := line + [t];
          i := i + 1;
        }
      }
    }

    /** getData: find the `data` header, then map the first token of every
        later data line to the rest of its tokens. */
    method GetData(line: seq<string>)
      modifies this`data
      ensures data == DataOf(old(data), line)
    {
      var inx := FindDataHeader(line);
      if inx < 0 {
        return;
      }
      data := ReadEntries(line, inx + 1);
    }

    /** The header loop of getData: the index of the `data` header, or -1. */
    static method FindDataHeader(line: seq<string>) returns (inx: int)
      ensures inx == FindData(line, 0)
    {
      inx := -1;
      var i := 0;
      while i < |line|
        invariant 0 <= i <= |line|
        invariant FindData(line, 0) == FindData(line, i)
      {
        var l := Trim(line[i]);
        if SkipLine(l) || l == "" {
          i := i + 1;
          continue;
        }
        if HasPrefix(ToLower(l), "data") {
          return i;
        }
        i := i + 1;
      }
    }

    /** The entry loop of getData: a fresh map of the lines from `inx` on. */
    static method ReadEntries(line: seq<string>, inx: nat) returns (m: map<string, string>)
      requires inx <= |line|
      ensures m == Fill(map[], Entries(line[inx..]))
    {
      ghost var es := Entries(line[inx..]);
      m := map[];
      var i := inx;
      while i < |line|
        invariant inx <= i <= |line|
        invariant m == Fill(map[], es[..i - inx])
      {
        ghost var e := Entry(line[i]);
        assert es[i - inx] == e by {
          assert line[inx..][i - inx] == line[i];
        }
        FillNext(map[], es, i - inx);
        var l := Trim(line[i]);
        if SkipLine(l) || l == "" {
          assert e.None?;
        } else {
          var v := Split(line[i], ' ');
          var key := v[0];
          var val := JoinValue(v);
          assert e == Some((key, val));
          m := m[key := val];
        }
        i := i + 1;
      }
      assert es[..i - inx] == es;
    }

    /** The value loop of getData: every non-empty field after the key,
        each with one space in front. */
    static method JoinValue(v: seq<string>) returns (val: string)
      requires |v| >= 1
      ensures val == JoinFields(v[1..])
    {
      val := "";
      var j := 1;
      while j < |v|
        invariant 1 <= j <= |v|
        invariant val == JoinFields(v[1..j])
      {
        assert v[1..j + 1][..j - 1] == v[1..j];
        if v[j] != "" {
          val := val + " " + v[j];
        }
        j := j + 1;
      }
      assert v[1..j] == v[1..];
    }

    /** The blocked-ip loop of GetConfig. */
    static method ReadBlockedIPs(text: string) returns (ips: seq<string>)
      ensures ips == BlockedIPs(text)
    {
      var line := Split(text, '\n');
      ips := [];
      var i := 0;
      while i < |line|
        invariant 0 <= i <= |line|
        invariant ips == BlockedList(line[..i])
      {
        assert line[..i + 1][..i] == line[..i];
        var l := Trim(line[i]);
        if HasPrefix(l, "#") || l == "" {
          i := i + 1;
          continue;
        }
        var v := Split(l, ' ');
        ips := ips + [v[0]];
        i := i + 1;
      }
      assert line[..i] == line;
    }

    /** GetConfig: an unchanged digest leaves everything as it is;
        otherwise the digest is stored, the settings are parsed, the banner
        countdown is armed, the data map is refilled and the blocked-ip list
        replaced when its file exists. */
    method GetConfig()
      modifies this
      ensures digestOf(old(configFile)) == old(configFileLastHash) ==> unchanged(this)
      ensures configFile == old(configFile) && blockedIPFile == old(blockedIPFile)
      ensures validateRemoteHost == old(validateRemoteHost)
      ensures digestOf(old(configFile)) != old(configFileLastHash) ==>
        && configFileLastHash == digestOf(configFile)
        && Snapshot() == ParseSettings(old(Snapshot()), configFile, decode)
        && data == DataOf(old(data), Normalize(configFile))
        && blockedIP == (if blockedIPFile.Some? then BlockedIPs(blockedIPFile.value) else old(blockedIP))
    {
      var hs := digestOf(configFile);
      if hs == configFileLastHash {
        return;
      }
      configFileLastHash := hs;
      Reload();
    }

    /** GetConfig past the digest gate. */
    method Reload()
      modifies this`site, this`tls, this`admin, this`messageBanner, this`http, this`urlPaths
      modifies this`maintenanceWindowOn, this`redirectHTTPtoHTTPS, this`data, this`blockedIP
      ensures Snapshot() == ParseSettings(old(Snapshot()), configFile, decode)
      ensures data == DataOf(old(data), Normalize(configFile))
      ensures blockedIP == (if blockedIPFile.Some? then BlockedIPs(blockedIPFile.value) else old(blockedIP))
    {
      var line := NormalizeLines(configFile);
      ParseLines(line);
      GetData(line);
      if blockedIPFile.Some? {
        blockedIP := ReadBlockedIPs(blockedIPFile.value);
      }
    }

    /** The top-level pass of GetConfig and the arming of the banner. */
    method ParseLines(line: seq<string>)
      modifies this`site, this`tls, this`admin, this`messageBanner, this`http, this`urlPaths
      modifies this`maintenanceWindowOn, this`redirectHTTPtoHTTPS
      ensures Snapshot() == ScanArm(old(Snapshot()), line, decode)
    {
      ScanLines(line);
      if messageBanner.on && messageBanner.secondsToDisplay > 0 {
        messageBanner := messageBanner.(tickCount := messageBanner.secondsToDisplay);
      }
    }

    /** The top-level loop of GetConfig over the normalised lines. */
    method ScanLines(line: seq<string>)
      modifies this`site, this`tls, this`admin, this`messageBanner, this`http, this`urlPaths
      modifies this`maintenanceWindowOn, this`redirectHTTPtoHTTPS
      ensures Snapshot() == ScanFrom(old(Snapshot()), line, 0, decode)
    {
      ghost var target := ScanFrom(Snapshot(), line, 0, decode);
      var i := 0;
      while i < |line|
        invariant 0 <= i
        invariant ScanFrom(Snapshot(), line, i, decode) == target
        decreases |line| - i
      {
        i := TopLine(line, i);
      }
    }

    /** One pass of the top-level loop of GetConfig at line `i`: a
        comment or blank line is passed over, `maintenance-window` and
        `redirect-http-to-https` set their flags, and a section header hands
        the following lines to getConfigLeaves. Returns the next line. */
    method TopLine(line: seq<string>, i: nat) returns (next: nat)
      requires i < |line|
      modifies this`site, this`tls, this`admin, this`messageBanner, this`http, this`urlPaths
      modifies this`maintenanceWindowOn, this`redirectHTTPtoHTTPS
      ensures (Snapshot(), next) == Step(old(Snapshot()), line, i, decode)
    {
      var l := Trim(line[i]);
      if SkipLine(l) || l == "" {
        return i + 1;
      }
      var lLower := ToLower(l);
      match DirectiveOf(lLower) {
        case MaintenanceWindow =>
          maintenanceWindowOn := ToLower(ParseConfigLine(l)) == "on";
          next := i + 1;
        case RedirectHttpToHttps =>
          redirectHTTPtoHTTPS := ToLower(ParseConfigLine(l)) == "yes";
          next := i + 1;
        case SectionStart(name, keys) =>
          var n := GetConfigLeaves(line, i + 1, name, keys);
          next := n + 1;
        case Ignored =>
          next := i + 1;
      }
    }

    /** UpdateConfigValue: rewrite the key line under the parent, collapse
        blank lines, write the file back and read it again. A missing key
        under a found parent is the out-of-range read, and then nothing is
        written. */
    method UpdateConfigValue(parent: string, key: string, newValue: string)
      returns (err: Option<UpdateError>)
      modifies this
      ensures err.Some? <==> UpdatedText(old(configFile), parent, key, newValue).Err?
      ensures err.Some? ==> unchanged(this)
      ensures err.None? ==>
        && configFile == UpdatedText(old(configFile), parent, key, newValue).value
        && blockedIPFile == old(blockedIPFile)
        && validateRemoteHost == old(validateRemoteHost)
        && (digestOf(configFile) == old(configFileLastHash) ==>
              && Snapshot() == old(Snapshot())
              && configFileLastHash == old(configFileLastHash)
              && data == old(data) && blockedIP == old(blockedIP))
        && (digestOf(configFile) != old(configFileLastHash) ==>
              && configFileLastHash == digestOf(configFile)
              && Snapshot() == ParseSettings(old(Snapshot()), configFile, decode)
              && data == DataOf(old(data), Normalize(configFile))
              && blockedIP == (if blockedIPFile.Some? then BlockedIPs(blockedIPFile.value) else old(blockedIP)))
    {
      var r := RewriteLines(Split(configFile, '\n'), parent, key, newValue);
      match r
      case Err(e) =>
        return Some(e);
      case Ok(line) =>
        var line2 := CollapseLines(line);
        configFile := Render(line2);
        GetConfig();
        return None;
    }

    /** ValidateHTTPRequest: the verdict of the rule pipeline on a request,
        read from the current settings. */
    method ValidateHTTPRequest(req: Request) returns (v: Verdict)
      ensures v == Decide(Snapshot(), validateRemoteHost, req)
    {
      var rPath := ToLower(req.path);
      if validateRemoteHost {
        var rHost := ToLower(Split(req.host, ':')[0]);
        if site.hostName != "" && rHost != site.hostName {
          var ok := Member(site.alternateHostNames, rHost);
          if !ok {
            return Verdict(false, StatusBadGateway, None);
          }
        }
      }
      var allowedMethod := Member(http.allowedMethods, req.httpMethod);
      if !allowedMethod {
        return Verdict(false, StatusMethodNotAllowed, None);
      }
      var restricted := Listed(urlPaths.restrict, rPath);
      if restricted {
        return Verdict(false, StatusUnauthorized, None);
      }
      var excluded := Listed(urlPaths.exclude, rPath);
      if excluded {
        return Verdict(false, StatusNotFound, None);
      }
      var target := Forward(urlPaths.forward, rPath);
      if target.Some? {
        return Verdict(false, StatusTemporaryRedirect, target);
      }
      v := Serve(urlPaths.serveOnlyTo, req, rPath);
    }

    /** One pass of setTimeoutResetMsgBanner (without its one-second
        sleep): when the banner is on with time left, one second is taken
        off; when none is left the banner is turned off and `display-mode
        off` is written to the file, which is then read again. */
    method Tick() returns (running: bool)
      modifies this
      ensures running <==> TickBanner(old(messageBanner)).Some?
      ensures !running ==> unchanged(this)
      ensures running ==> blockedIPFile == old(blockedIPFile) && validateRemoteHost == old(validateRemoteHost)
      ensures running && old(messageBanner).tickCount > 1 ==>
        && Snapshot() == old(Snapshot()).(messageBanner := TickBanner(old(messageBanner)).value)
        && configFile == old(configFile)
        && configFileLastHash == old(configFileLastHash)
        && data == old(data) && blockedIP == old(blockedIP)
      ensures running && old(messageBanner).tickCount == 1 &&
              UpdatedText(old(configFile), "MessageBanner", "display-mode", "off").Err? ==>
        && Snapshot() == old(Snapshot()).(messageBanner := old(messageBanner).(on := false, tickCount := 0))
        && configFile == old(configFile)
        && configFileLastHash == old(configFileLastHash)
        && data == old(data) && blockedIP == old(blockedIP)
      ensures running && old(messageBanner).tickCount == 1 &&
              UpdatedText(old(configFile), "MessageBanner", "display-mode", "off").Ok? ==>
        var off := old(messageBanner).(on := false, tickCount := 0);
        && configFile == UpdatedText(old(configFile), "MessageBanner", "display-mode", "off").value
        && (digestOf(configFile) == old(configFileLastHash) ==>
              && Snapshot() == old(Snapshot()).(messageBanner := off)
              && configFileLastHash == old(configFileLastHash)
              && data == old(data) && blockedIP == old(blockedIP))
        && (digestOf(configFile) != old(configFileLastHash) ==>
              && configFileLastHash == digestOf(configFile)
              && Snapshot() == ParseSettings(old(Snapshot()).(messageBanner := off), configFile, decode)
              && data == DataOf(old(data), Normalize(configFile))
              && blockedIP == (if blockedIPFile.Some? then BlockedIPs(blockedIPFile.value) else old(blockedIP)))
    {
      if !messageBanner.on || messageBanner.tickCount < 1 || messageBanner.secondsToDisplay < 1 {
        return false;
      }
      messageBanner := messageBanner.(tickCount := messageBanner.tickCount - 1);
      if messageBanner.tickCount < 1 {
        messageBanner := messageBanner.(on := false);
        var _ := UpdateConfigValue("MessageBanner", "display-mode", "off");
      }
      return true;
    }
  }
}
