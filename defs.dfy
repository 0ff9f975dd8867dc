/** The record types of the configuration snapshot (defs.go). Each Go
    struct whose fields the parser overwrites one at a time is a value
    here; the Config object that holds them is a class (config.dfy). */
module Defs {

  datatype Option<+T> = None | Some(value: T)

  datatype Result<+T, +E> = Ok(value: T) | Err(error: E)

  /** The three rule types of a conditional-http-service rule. */
  const CondHTTPSvcHeader: string := "header"
  const CondHTTPSvcIPAddress: string := "ip-address"
  const CondHTTPSvcQueryString: string := "query-string"

  /** A rule that serves `urlPath` only to requests that match one of the
      criteria; the others get `httpStatusCode` (404 when below 1). */
  datatype ConditionalHTTPService = ConditionalHTTPService(
    ruleType: string,
    urlPath: string,
    serveOnlyToCriteria: seq<string>,
    httpStatusCode: int)

  /** The site-wide banner: `tickCount` is the live countdown. */
  datatype MessageBanner = MessageBanner(on: bool, secondsToDisplay: int, tickCount: int)

  datatype Http = Http(allowedMethods: seq<string>)

  datatype TlsFiles = TlsFiles(certFilePath: string, keyFilePath: string)

  datatype UrlPaths = UrlPaths(
    restrict: seq<string>,
    forward: seq<string>,
    exclude: seq<string>,
    serveOnlyTo: seq<ConditionalHTTPService>)

  /** `portNo` is a Go `uint`: a natural number below 2^64. */
  datatype Admin = Admin(runOnStartup: bool, portNo: nat, allowedIP: seq<string>)

  datatype Site = Site(hostName: string, alternateHostNames: seq<string>, proto: string, portNo: int)

  /** The part of Config that a parse of the config file writes (apart from
      the Data map, the blocked-ip list and the digest). */
  datatype Settings = Settings(
    site: Site,
    tls: TlsFiles,
    admin: Admin,
    messageBanner: MessageBanner,
    http: Http,
    urlPaths: UrlPaths,
    maintenanceWindowOn: bool,
    redirectHTTPtoHTTPS: bool)

  /** The JSON decoding of a `conditional-http-service` value: the decoded
      rule list, or None when decoding leaves the list as it was. */
  type RuleDecoder = string -> Option<seq<ConditionalHTTPService>>
}
