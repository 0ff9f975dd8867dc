/** ValidateHTTPRequest (validate.go): the ordered rule pipeline a request
    goes through, host, method, restrict-paths, exclude-paths,
    forward-paths and conditional-http-service, the first stage that
    decides giving the verdict. `Decide` states the pipeline; the loops of
    the source are the methods below and Config.ValidateHTTPRequest
    (config.dfy). */
module Validate {
  import opened Defs
  import opened GoStrings

  const StatusTemporaryRedirect: int := 307
  const StatusUnauthorized: int := 401
  const StatusNotFound: int := 404
  const StatusMethodNotAllowed: int := 405
  const StatusBadGateway: int := 502

  /** What the pipeline reads of an http.Request. The header is a list of
      (name, values) pairs; the pipeline only asks whether some value
      matches, so the order of the pairs does not matter. */
  datatype Request = Request(
    httpMethod: string,
    host: string,
    path: string,
    rawQuery: string,
    remoteAddr: string,
    header: seq<(string, seq<string>)>)

  /** The pair (allowed, status) the source returns, and the target
      http.Redirect is given when the request is forwarded. */
  datatype Verdict = Verdict(allowed: bool, status: int, redirect: Option<string>)

  // ---------------------------------------------------------------------
  // The stages

  /** The request's host name: up to the first `:`, lower-cased. */
  function RequestHost(host: string): string {
    ToLower(Split(host, ':')[0])
  }

  /** The host stage lets the request through: the check is off, the site
      has no host name, or the request's host is the host name or one of
      the alternate host names. */
  predicate HostAccepted(site: Site, validateRemoteHost: bool, host: string) {
    var h := RequestHost(host);
    !validateRemoteHost || site.hostName == "" || h == site.hostName || h in site.alternateHostNames
  }

  /** The text the config reader leaves in a list when its value could not
      be read. */
  predicate ErrorText(sl: string) {
    HasPrefix(sl, "~@error")
  }

  /** Entry `i` of a restrict or exclude list names the (lower-case) path. */
  predicate ListedAt(list: seq<string>, i: nat, rPath: string)
    requires i < |list|
  {
    var sl := ToLower(list[i]);
    !ErrorText(sl) && sl == rPath
  }

  /** Some entry of the list names the path. */
  predicate PathListed(list: seq<string>, rPath: string) {
    exists i :: 0 <= i < |list| && ListedAt(list, i, rPath)
  }

  /** The from- and to-part of a lower-cased forward entry; both empty
      when it has no `|`. */
  function ForwardParts(sl: string): (string, string) {
    var v := Split(sl, '|');
    if |v| > 1 then (v[0], v[1]) else ("", "")
  }

  /** Entry `i` of the forward list forwards the path: its to-part is
      neither empty nor error text and its from-part is the path. */
  predicate ForwardsAt(fw: seq<string>, i: nat, rPath: string)
    requires i < |fw|
  {
    var (left, right) := ForwardParts(ToLower(fw[i]));
    right != "" && !ErrorText(right) && left == rPath
  }

  /** The to-part of the first forward entry at or after `i` that forwards
      the path. */
  function ForwardFrom(fw: seq<string>, rPath: string, i: nat): (r: Option<string>)
    ensures r.Some? <==> exists k :: i <= k < |fw| && ForwardsAt(fw, k, rPath)
    ensures r.Some? ==> exists k :: i <= k < |fw| && ForwardsAt(fw, k, rPath) && ForwardParts(ToLower(fw[k])).1 == r.value
                                 && forall m :: i <= m < k ==> !ForwardsAt(fw, m, rPath)
    decreases |fw| - i
  {
    if i >= |fw| then None
    else if ForwardsAt(fw, i, rPath) then Some(ForwardParts(ToLower(fw[i])).1)
    else ForwardFrom(fw, rPath, i + 1)
  }

  /** The client address: RemoteAddr without `[` and `]`, up to the first `:`. */
  function ClientIP(remoteAddr: string): string {
    Split(RemoveAll(RemoveAll(remoteAddr, '['), ']'), ':')[0]
  }

  /** Some value of a list contains `m`. */
  predicate ContainsAny(values: seq<string>, m: string) {
    exists k :: 0 <= k < |values| && Contains(values[k], m)
  }

  /** Some value of a list contains some criterion. */
  predicate ValuesMatch(values: seq<string>, criteria: seq<string>) {
    exists j :: 0 <= j < |criteria| && ContainsAny(values, criteria[j])
  }

  /** Some header value contains some criterion. */
  predicate HeaderMatch(header: seq<(string, seq<string>)>, criteria: seq<string>) {
    exists h :: 0 <= h < |header| && ValuesMatch(header[h].1, criteria)
  }

  /** Some criterion is the client address or part of the query string. */
  predicate CriterionMatch(criteria: seq<string>, ip: string, qs: string) {
    exists j :: 0 <= j < |criteria| && (criteria[j] == ip || Contains(qs, criteria[j]))
  }

  /** A conditional rule serves the request: by a header value (for rules
      of type `header` only), by the client address or by the query. */
  predicate RuleAllows(rule: ConditionalHTTPService, req: Request) {
    || (rule.ruleType == CondHTTPSvcHeader && HeaderMatch(req.header, rule.serveOnlyToCriteria))
    || CriterionMatch(rule.serveOnlyToCriteria, ClientIP(req.remoteAddr), req.rawQuery)
  }

  /** The status of a rule that refuses: its own, or 404 when below 1. */
  function DenyCode(rule: ConditionalHTTPService): (code: int)
    ensures code >= 1
    ensures rule.httpStatusCode >= 1 ==> code == rule.httpStatusCode
    ensures rule.httpStatusCode < 1 ==> code == StatusNotFound
  {
    if rule.httpStatusCode < 1 then StatusNotFound else rule.httpStatusCode
  }

  /** The first conditional rule at or after `i` for the path, or -1. */
  function FirstRule(rules: seq<ConditionalHTTPService>, rPath: string, i: nat): (r: int)
    ensures r == -1 || (i <= r < |rules| && rules[r].urlPath == rPath)
    ensures forall k :: i <= k < |rules| && (r < 0 || k < r) ==> rules[k].urlPath != rPath
    decreases |rules| - i
  {
    if i >= |rules| then -1
    else if rules[i].urlPath == rPath then i
    else FirstRule(rules, rPath, i + 1)
  }

  /** The conditional-http-service stage: the first rule for the path
      decides; without one the request is allowed. */
  function ServeVerdict(rules: seq<ConditionalHTTPService>, req: Request, rPath: string): Verdict {
    var k := FirstRule(rules, rPath, 0);
    if k < 0 || RuleAllows(rules[k], req) then Verdict(true, 0, None)
    else Verdict(false, DenyCode(rules[k]), None)
  }

  /** The verdict on a request: every stage in the source's order, the
      first that decides giving the result. An allowed request always
      carries status 0 and a refused one a status of at least 1; only a
      forwarded request carries a redirect target. */
  function Decide(st: Settings, validateRemoteHost: bool, req: Request): (v: Verdict)
    ensures v.allowed <==> v.status == 0
    ensures !v.allowed ==> v.status >= 1
    ensures v.redirect.Some? ==> !v.allowed && v.status == StatusTemporaryRedirect
  {
    var rPath := ToLower(req.path);
    if !HostAccepted(st.site, validateRemoteHost, req.host) then Verdict(false, StatusBadGateway, None)
    else if req.httpMethod !in st.http.allowedMethods then Verdict(false, StatusMethodNotAllowed, None)
    else if PathListed(st.urlPaths.restrict, rPath) then Verdict(false, StatusUnauthorized, None)
    else if PathListed(st.urlPaths.exclude, rPath) then Verdict(false, StatusNotFound, None)
    else
      match ForwardFrom(st.urlPaths.forward, rPath, 0)
      case Some(target) => Verdict(false, StatusTemporaryRedirect, Some(target))
      case None => ServeVerdict(st.urlPaths.serveOnlyTo, req, rPath)
  }

  // ---------------------------------------------------------------------
  // The loops of ValidateHTTPRequest

  /** The alternate-host and allowed-method loops: exact membership. */
  method Member(xs: seq<string>, x: string) returns (found: bool)
    ensures found <==> x in xs
  {
    var i := 0;
    while i < |xs|
      invariant 0 <= i <= |xs|
      invariant x !in xs[..i]
    {
      if xs[i] == x {
        return true;
      }
      assert xs[..i + 1] == xs[..i] + [xs[i]];
      i := i + 1;
    }
    assert xs[..i] == xs;
    return false;
  }

  /** The restrict-paths and exclude-paths loops. */
  method Listed(list: seq<string>, rPath: string) returns (found: bool)
    ensures found == PathListed(list, rPath)
  {
    var i := 0;
    while i < |list|
      invariant 0 <= i <= |list|
      invariant forall k :: 0 <= k < i ==> !ListedAt(list, k, rPath)
    {
      var sl := ToLower(list[i]);
      if HasPrefix(sl, "~@error") {
        i := i + 1;
        continue;
      }
      if sl == rPath {
        assert ListedAt(list, i, rPath);
        return true;
      }
      i := i + 1;
    }
    return false;
  }

  /** The forward-paths loop: the redirect target, if an entry forwards
      the path. */
  method Forward(fw: seq<string>, rPath: string) returns (target: Option<string>)
    ensures target == ForwardFrom(fw, rPath, 0)
  {
    var i := 0;
    while i < |fw|
      invariant 0 <= i <= |fw|
      invariant ForwardFrom(fw, rPath, i) == ForwardFrom(fw, rPath, 0)
    {
      var hit, right := ForwardEntry(fw, i, rPath);
      if hit {
        return Some(right);
      }
      i := i + 1;
    }
    return None;
  }

  /** One pass of the forward-paths loop: whether entry `i` forwards the
      path, and its lower-cased to-part. */
  method ForwardEntry(fw: seq<string>, i: nat, rPath: string) returns (hit: bool, right: string)
    requires i < |fw|
    ensures hit == ForwardsAt(fw, i, rPath)
    ensures hit ==> ForwardFrom(fw, rPath, i) == Some(right)
    ensures !hit ==> ForwardFrom(fw, rPath, i) == ForwardFrom(fw, rPath, i + 1)
  {
    var sl := ToLower(fw[i]);
    var v := Split(sl, '|');
    var left := "";
    right := "";
    if |v| > 1 {
      left := v[0];
      right := v[1];
    }
    hit := right != "" && !HasPrefix(right, "~@error") && left == rPath;
  }

  /** The innermost header loop: some value contains `m`. */
  method AnyContains(values: seq<string>, m: string) returns (found: bool)
    ensures found == ContainsAny(values, m)
  {
    var k := 0;
    while k < |values|
      invariant 0 <= k <= |values|
      invariant forall y :: 0 <= y < k ==> !Contains(values[y], m)
    {
      if Index(values[k], m) >= 0 {
        return true;
      }
      k := k + 1;
    }
    return false;
  }

  /** The criteria loop over the values of one header. */
  method AnyCriterionIn(values: seq<string>, criteria: seq<string>) returns (found: bool)
    ensures found == ValuesMatch(values, criteria)
  {
    var j := 0;
    while j < |criteria|
      invariant 0 <= j <= |criteria|
      invariant forall y :: 0 <= y < j ==> !ContainsAny(values, criteria[y])
    {
      found := AnyContains(values, criteria[j]);
      if found {
        return;
      }
      j := j + 1;
    }
    return false;
  }

  /** The loop over the request's headers. */
  method AnyHeader(header: seq<(string, seq<string>)>, criteria: seq<string>) returns (found: bool)
    ensures found == HeaderMatch(header, criteria)
  {
    var h := 0;
    while h < |header|
      invariant 0 <= h <= |header|
      invariant forall y :: 0 <= y < h ==> !ValuesMatch(header[y].1, criteria)
    {
      found := AnyCriterionIn(header[h].1, criteria);
      if found {
        return;
      }
      h := h + 1;
    }
    return false;
  }

  /** The address and query loop of a conditional rule. */
  method AnyCriterion(criteria: seq<string>, ip: string, qs: string) returns (found: bool)
    ensures found == CriterionMatch(criteria, ip, qs)
  {
    var j := 0;
    while j < |criteria|
      invariant 0 <= j <= |criteria|
      invariant forall y :: 0 <= y < j ==> !(criteria[y] == ip || Contains(qs, criteria[y]))
    {
      if criteria[j] == ip || Index(qs, criteria[j]) >= 0 {
        return true;
      }
      j := j + 1;
    }
    return false;
  }

  /** The conditional-http-service loop. */
  method Serve(rules: seq<ConditionalHTTPService>, req: Request, rPath: string) returns (v: Verdict)
    ensures v == ServeVerdict(rules, req, rPath)
  {
    var ip := Split(RemoveAll(RemoveAll(req.remoteAddr, '['), ']'), ':')[0];
    var qs := req.rawQuery;
    var i := 0;
    while i < |rules|
      invariant 0 <= i <= |rules|
      invariant FirstRule(rules, rPath, i) == FirstRule(rules, rPath, 0)
    {
      if rPath == rules[i].urlPath {
        if rules[i].ruleType == CondHTTPSvcHeader {
          var byHeader := AnyHeader(req.header, rules[i].serveOnlyToCriteria);
          if byHeader {
            return Verdict(true, 0, None);
          }
        }
        var byClient := AnyCriterion(rules[i].serveOnlyToCriteria, ip, qs);
        if byClient {
          return Verdict(true, 0, None);
        }
        var errCode := rules[i].httpStatusCode;
        if errCode < 1 {
          errCode := StatusNotFound;
        }
        return Verdict(false, errCode, None);
      }
      i := i + 1;
    }
    return Verdict(true, 0, None);
  }

  // ---------------------------------------------------------------------
  // Properties of the pipeline

  /** With the host check on and a site host name, a request for any
      other host is refused with 502, whatever else the config says. */
  lemma ForeignHostRefused(st: Settings, req: Request)
    requires st.site.hostName != ""
    requires RequestHost(req.host) != st.site.hostName
    requires RequestHost(req.host) !in st.site.alternateHostNames
    ensures Decide(st, true, req) == Verdict(false, StatusBadGateway, None)
  {
  }

  /** A request the host stage accepts gets the verdict it would get with
      the host check off. */
  lemma AcceptedHostPasses(st: Settings, validateRemoteHost: bool, req: Request)
    requires HostAccepted(st.site, validateRemoteHost, req.host)
    ensures Decide(st, validateRemoteHost, req) == Decide(st, false, req)
  {
  }

  /** A method not in the allowed list is refused with 405, whatever the
      path lists and rules say. */
  lemma MethodBeforePaths(st: Settings, validateRemoteHost: bool, req: Request, paths: UrlPaths)
    requires HostAccepted(st.site, validateRemoteHost, req.host)
    requires req.httpMethod !in st.http.allowedMethods
    ensures Decide(st.(urlPaths := paths), validateRemoteHost, req) == Verdict(false, StatusMethodNotAllowed, None)
  {
  }

  /** A path in both the restrict and the exclude list gets 401, never 404;
      and a restricted path gets 401 whatever the forward list and rules
      say. */
  lemma RestrictBeforeExclude(st: Settings, validateRemoteHost: bool, req: Request,
                              fw: seq<string>, rules: seq<ConditionalHTTPService>)
    requires HostAccepted(st.site, validateRemoteHost, req.host)
    requires req.httpMethod in st.http.allowedMethods
    requires PathListed(st.urlPaths.restrict, ToLower(req.path))
    ensures Decide(st, validateRemoteHost, req).status == StatusUnauthorized
    ensures Decide(st.(urlPaths := st.urlPaths.(forward := fw, serveOnlyTo := rules)), validateRemoteHost, req)
            == Verdict(false, StatusUnauthorized, None)
  {
  }

  /** An entry whose lower-cased text is error text never matches. */
  lemma {:induction false} ErrorEntryIgnored(list: seq<string>, e: string, rPath: string)
    requires ErrorText(ToLower(e))
    ensures PathListed(list + [e], rPath) == PathListed(list, rPath)
  {
    var l2 := list + [e];
    assert !ListedAt(l2, |list|, rPath);
    if PathListed(l2, rPath) {
      var i :| 0 <= i < |l2| && ListedAt(l2, i, rPath);
      assert l2[i] == list[i];
      assert ListedAt(list, i, rPath);
    }
    if PathListed(list, rPath) {
      var i :| 0 <= i < |list| && ListedAt(list, i, rPath);
      assert l2[i] == list[i];
      assert ListedAt(l2, i, rPath);
    }
  }

  /** An entry whose to-part is empty or error text never forwards. */
  lemma {:induction false} DeadForwardIgnored(fw: seq<string>, e: string, rPath: string, i: nat)
    requires var right := ForwardParts(ToLower(e)).1; right == "" || ErrorText(right)
    requires i <= |fw|
    ensures ForwardFrom(fw + [e], rPath, i) == ForwardFrom(fw, rPath, i)
    decreases |fw| - i
  {
    if i < |fw| {
      assert (fw + [e])[i] == fw[i];
      DeadForwardIgnored(fw, e, rPath, i + 1);
    } else {
      DeadForwardLast(fw, e, rPath);
    }
  }

  /** The dead entry itself, at the end of the list, forwards nothing. */
  lemma DeadForwardLast(fw: seq<string>, e: string, rPath: string)
    requires var right := ForwardParts(ToLower(e)).1; right == "" || ErrorText(right)
    ensures ForwardFrom(fw + [e], rPath, |fw|) == None
  {
    assert (fw + [e])[|fw|] == e;
    assert !ForwardsAt(fw + [e], |fw|, rPath);
  }

  /** Adding an error entry to the restrict list leaves every verdict as
      it was. */
  lemma DeadRestrictChangesNothing(st: Settings, validateRemoteHost: bool, req: Request, e: string)
    requires ErrorText(ToLower(e))
    ensures Decide(st.(urlPaths := st.urlPaths.(restrict := st.urlPaths.restrict + [e])), validateRemoteHost, req)
            == Decide(st, validateRemoteHost, req)
  {
    ErrorEntryIgnored(st.urlPaths.restrict, e, ToLower(req.path));
  }

  /** Adding an error entry to the exclude list leaves every verdict as it
      was. */
  lemma DeadExcludeChangesNothing(st: Settings, validateRemoteHost: bool, req: Request, e: string)
    requires ErrorText(ToLower(e))
    ensures Decide(st.(urlPaths := st.urlPaths.(exclude := st.urlPaths.exclude + [e])), validateRemoteHost, req)
            == Decide(st, validateRemoteHost, req)
  {
    ErrorEntryIgnored(st.urlPaths.exclude, e, ToLower(req.path));
  }

  /** Adding a forward entry whose to-part is empty, missing or error text
      leaves every verdict as it was. */
  lemma DeadForwardChangesNothing(st: Settings, validateRemoteHost: bool, req: Request, e: string)
    requires var right := ForwardParts(ToLower(e)).1; right == "" || ErrorText(right)
    ensures Decide(st.(urlPaths := st.urlPaths.(forward := st.urlPaths.forward + [e])), validateRemoteHost, req)
            == Decide(st, validateRemoteHost, req)
  {
    DeadForwardIgnored(st.urlPaths.forward, e, ToLower(req.path), 0);
  }

  /** When the path is in no list, a forward entry for it gives 307 and the
      to-part of the first such entry; without one the conditional rules
      decide. */
  lemma ForwardDecides(st: Settings, validateRemoteHost: bool, req: Request)
    requires HostAccepted(st.site, validateRemoteHost, req.host)
    requires req.httpMethod in st.http.allowedMethods
    requires !PathListed(st.urlPaths.restrict, ToLower(req.path))
    requires !PathListed(st.urlPaths.exclude, ToLower(req.path))
    ensures var v := Decide(st, validateRemoteHost, req);
      && (v.redirect.Some? <==> exists k :: 0 <= k < |st.urlPaths.forward| && ForwardsAt(st.urlPaths.forward, k, ToLower(req.path)))
      && (v.redirect.Some? ==>
            exists k :: 0 <= k < |st.urlPaths.forward| && ForwardsAt(st.urlPaths.forward, k, ToLower(req.path))
                        && ForwardParts(ToLower(st.urlPaths.forward[k])).1 == v.redirect.value
                        && forall m :: 0 <= m < k ==> !ForwardsAt(st.urlPaths.forward, m, ToLower(req.path)))
      && (v.redirect.None? ==> v == ServeVerdict(st.urlPaths.serveOnlyTo, req, ToLower(req.path)))
  {
  }

  /** The first rule for the path decides: the request is allowed exactly
      when that rule serves it, refused with the rule's code otherwise, and
      rules after it are never read. */
  lemma {:induction false} FirstRuleDecides(rules: seq<ConditionalHTTPService>, more: seq<ConditionalHTTPService>,
                                            req: Request, rPath: string)
    requires FirstRule(rules, rPath, 0) >= 0
    ensures var k := FirstRule(rules, rPath, 0);
      && ServeVerdict(rules, req, rPath).allowed == RuleAllows(rules[k], req)
      && (!RuleAllows(rules[k], req) ==> ServeVerdict(rules, req, rPath).status == DenyCode(rules[k]))
    ensures ServeVerdict(rules + more, req, rPath) == ServeVerdict(rules, req, rPath)
  {
    FirstRuleAppend(rules, more, rPath, 0);
  }

  lemma {:induction false} FirstRuleAppend(rules: seq<ConditionalHTTPService>, more: seq<ConditionalHTTPService>,
                                           rPath: string, i: nat)
    requires i <= |rules|
    requires FirstRule(rules, rPath, i) >= 0
    ensures FirstRule(rules + more, rPath, i) == FirstRule(rules, rPath, i)
    decreases |rules| - i
  {
    assert (rules + more)[i] == rules[i];
    if rules[i].urlPath != rPath {
      FirstRuleAppend(rules, more, rPath, i + 1);
    }
  }

  /** A request that no list names, no entry forwards and no rule covers is
      allowed. */
  lemma NothingDecidesAllows(st: Settings, validateRemoteHost: bool, req: Request)
    requires HostAccepted(st.site, validateRemoteHost, req.host)
    requires req.httpMethod in st.http.allowedMethods
    requires !PathListed(st.urlPaths.restrict, ToLower(req.path))
    requires !PathListed(st.urlPaths.exclude, ToLower(req.path))
    requires forall k :: 0 <= k < |st.urlPaths.forward| ==> !ForwardsAt(st.urlPaths.forward, k, ToLower(req.path))
    requires forall k :: 0 <= k < |st.urlPaths.serveOnlyTo| ==> st.urlPaths.serveOnlyTo[k].urlPath != ToLower(req.path)
    ensures Decide(st, validateRemoteHost, req) == Verdict(true, 0, None)
  {
  }

  /** Path matching ignores case: requests that differ only in the case of
      their path get the same verdict. */
  lemma PathCaseIgnored(st: Settings, validateRemoteHost: bool, req: Request, p: string)
    requires ToLower(p) == ToLower(req.path)
    ensures Decide(st, validateRemoteHost, req.(path := p)) == Decide(st, validateRemoteHost, req)
  {
  }
}
