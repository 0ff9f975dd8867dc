# go-webconfig in Dafny

A model of the configuration core of go-webconfig. The core has four parts:

- **Reading the `.cfg` file.** `GetConfig` splits the text into lines. It trims each line with `trimLine` and joins lines that end in `\`. It then walks the top-level lines: `maintenance-window`, `redirect-http-to-https`, and the section headers `Site`, `TLS`, `Admin`, `MessageBanner`, `HTTP` and `URLPaths`. For each section header it hands over to `getConfigLeaves`. That function consumes the key lines below the header and confirms each one by a backward scan for the header. `GetConfig` finally arms the banner countdown, fills the `Data` map (`getData`) and reads the blocked-ip list.
- **Rewriting one value.** `UpdateConfigValue` finds the parent line and then the key line, and replaces that line with a canonical `key value` line. It collapses runs of blank lines and reparses the result.
- **The banner countdown.** `setTimeoutResetMsgBanner` counts the banner down one tick per second. When the count runs out, it switches `display-mode` to `off` in the file.
- **The request filter.** `ValidateHTTPRequest` runs the checks in this order: host, method, restrict-paths, exclude-paths, forward-paths, conditional-http-service.

`RemovePhraseFromString` is modelled as well.

## How the model is laid out

- **strings.dfy (`GoStrings`):** the Go `strings` and `strconv` functions the core calls.
  - `Split` on one character, where `Split("")` is `[""]`.
  - `Index`, which returns -1 when the substring is absent and 0 for an empty substring.
  - `Trim`, `TrimLeft` and `TrimRight` of spaces.
  - `ToLower`, ASCII only.
  - `Atoi`, which saturates to the int64 bounds when the leading digits overflow and gives 0 on any other error.
  - Conversion to `uint`.
- **util.dfy (`Util`):** `trimLine`.
- **lines.dfy (`Lines`):** `skipLine` and `parseCofigLine`.
- **leaves.dfy (`Leaves`):** what `getConfigLeaves` means.
  - `LeavesEnd` is the cursor it returns.
  - `LeavesState` is the settings after the walk.
  - `ApplyKey` is the effect of one confirmed key line.
  - The list parsers, as loop methods.
- **scan.dfy (`Scan`):**
  - `Normalize`, the line normalisation of `GetConfig`.
  - `ScanFrom`, the top-level walk.
  - `ParseSettings`, the walk followed by the banner arming.
- **data.dfy (`Data`):** `getData` (`DataOf`) and the blocked-ip list.
- **rewrite.dfy (`Rewrite`):**
  - The line rewrite and blank-line collapse of `UpdateConfigValue`.
  - `RemovePhraseFromString`.
- **validate.dfy (`Validate`):** `Decide`, the request pipeline as a function, and the loops that compute each stage.
- **config.dfy (`WebConfig`):** the `Config` object as a class.
  - Its fields are those of defs.go.
  - Its methods update those fields in place, as the Go methods do: `GetConfigLeaves`, `GetData`, `GetConfig`, `UpdateConfigValue`, `Tick` (one pass of the banner countdown) and `ValidateHTTPRequest`.
  - Each method is proved equal to the specification functions above.

Three things the source reaches outside the core for are parameters of the model:

- the text of the config file and of the blocked-ip file, held as fields;
- the file digest (`digestOf`);
- the JSON decoding of a `conditional-http-service` value (`decode`). It returns `None` when the list is to be left as it was.

Where the code and the documented design of the project disagree, the model follows the code:

- The host name is stored as written; only the alternate host names are lower-cased (private.go:168).
- Alternate host names are not de-duplicated (private.go:176-183).
- A key is matched against the trimmed line without lower-casing the line. Only the keys are lower-cased (private.go:105-108, 127-134).
- The backward scan accepts any earlier line that names the section, not only the nearest non-comment line. It never looks at line 0 (private.go:142-157).
- A key line that no header confirms is stepped over and the walk goes on. It does not end the section (private.go:158-164).
- List values keep empty fields: `allowed-ip-addr`, `allowed-methods`, `restrict-paths`, `exclude-paths` and `forward-paths` are a plain split on `,` (private.go:220, 243, 251, 273, 280). Only `alternate-hostnames` drops empty fields.
- The `Data` section reads every later non-comment line up to the end of the file, later section headers included. Each value starts with a space (public.go:96-110).
- `UpdateConfigValue` with no matching parent rewrites the file with its lines trimmed and blank runs collapsed. With a parent but no key line after it, the Go slice index runs past the end and panics (public.go:285-287). The model returns an error for that case.

## Model

| member | source | states |
|---|---|---|
| Util.TrimLine | util.go:10-18 | definition of `trimLine`: tabs become spaces, then spaces are cut at both ends; its meaning is stated by the TrimLine lemmas below |
| Util.TrimLineClean | util.go:10-18 | the result holds no tab and neither starts nor ends with a space |
| Util.TrimLineFinalTrim | util.go:15 | the last `strings.Trim` of the chain changes nothing |
| Util.TrimLineFrame | util.go:10-18 | the tab-free line is exactly the result padded with spaces on both sides |
| Util.TrimLineIdempotent | util.go:10-18 | trimming a trimmed line changes nothing |
| Util.TrimLineBlank | util.go:10-18 | a line of only spaces and tabs becomes the empty line |
| Util.TrimLinePadded | util.go:10-18 | a clean core padded with any spaces trims back to the core |
| Util.TrimLineOuterPad | util.go:10-18 | extra spaces around a line do not change its trimLine |
| Util.TrimLineOfTrim | util.go:10-18 | trimming spaces first does not change trimLine |
| Lines.SkipLine | private.go:63-72 | definition of `skipLine`: the line trimmed of spaces is empty or starts with `#`; SkipLineLead and SkipLineMeaning state what that means for the raw line |
| Lines.SkipLineLead | private.go:63-72 | a line is skipped iff it is all spaces or its first non-space is `#` |
| Lines.SkipLineMeaning | private.go:63-72 | the same, stated as a quantifier over the characters of the line |
| Lines.ParseConfigLine | private.go:48-60 | the extracted value is always clean (trimmed, tab-free) |
| Lines.ValueOf | private.go:52-59 | the value part of a trimmed line is itself trimmed and tab-free |
| Lines.ParseBareKey | private.go:52-57 | a line with no space after its key yields the key itself |
| Lines.ParseKeyValue | private.go:48-60 | `key value` with any padding yields the trimmed value, or the key when the value is blank |
| Lines.KeyLine | private.go:48-60 | a trimmed `key value` line starts with the key and parses back to the trimmed value |
| Lines.TrimKeyPair | util.go:10-18 | trimLine of a padded `key value` line is the key, the gap, then the trimmed value |
| Leaves.TrimFields | private.go:220-223 | the loop trims every field in place and keeps the order, giving fields with no space at either end |
| Leaves.AlternateHostNames | private.go:170-184 | the loop keeps the non-empty fields, trimmed and lower-cased, in order; a blank value gives none |
| Leaves.HostsOfNoEmpty | private.go:176-183 | with no empty field, every field is kept, trimmed and lower-cased, position by position |
| Leaves.LowerTrim | private.go:181 | a kept host name has no space at either end and no upper-case letter |
| Leaves.ForwardPaths | private.go:249-270 | the loop turns every comma field into its forward entry, one for one |
| Leaves.ForwardEntryShape | private.go:253-268 | every stored forward entry has a bar separator; its to-part starts with `/` (and the trimmed entry is kept) or is the error text; the from-part is kept |
| Leaves.ForwardErrorTextShape | private.go:267 | the error text has no bar character, starts with `~@error` and not with `/` |
| Leaves.ApplyKey | private.go:166-289 | definition: the effect of one confirmed key line, dispatched on the lower-cased section name; ApplyKeyFrame states what it leaves alone |
| Leaves.LeavesEnd | private.go:101-137 | the cursor getConfigLeaves returns from `i` is at least `i - 1` and at most the line count; WalkEndMeaning states where it stops |
| Leaves.LeavesState | private.go:101-299 | definition: the settings after the walk, applying every confirmed key line in order and stepping over unconfirmed ones; LeavesFrame and LeavesUnconfirmed state its properties |
| Leaves.WalkEndMeaning | private.go:110-137 | the cursor returned is the end of the lines when every line from the start is consumable, otherwise one before the first line that is not |
| Leaves.LeavesUnconfirmed | private.go:141-164 | with no header for the section anywhere below line 0, the walk changes nothing |
| Leaves.ApplyKeyFrame | private.go:166-289 | a key line of one section changes no other part of the settings and leaves the countdown alone |
| Leaves.LeavesFrame | private.go:101-299 | a whole walk over one section changes only that section's fields |
| Leaves.ConfirmedIgnoresFirstLine | private.go:142-146 | the backward scan never reads line 0 |
| Leaves.BannerDisplay | private.go:226-234 | `display-mode` sets `on` exactly when its value is `on` |
| Leaves.DisplayModeLine | private.go:226-234 | a `display-mode <value>` line switches the banner on exactly when the trimmed value is `on` |
| Leaves.AdminRun | private.go:205-212 | `run-on-startup` is set exactly when its value is `yes` |
| Leaves.RunOnStartupLine | private.go:205-212 | a `run-on-startup <value>` line sets the flag exactly when the trimmed value is `yes` |
| Leaves.SitePort | private.go:185-187 | `portno` stores Atoi of its value |
| Leaves.SitePortLine | private.go:185-187 | a `portno <value>` line stores Atoi of the trimmed value, and 0 when it is blank |
| Leaves.UrlRestrict | private.go:271-277 | `restrict-paths` stores the trimmed comma fields of its value |
| Leaves.BareRestrictLine | private.go:271-277 | a `restrict-paths` line with no value stores the one path `restrict-paths` |
| Scan.Normalize | public.go:131-164 | definition of the logical lines: a leading `""` unless the first physical line is `""` or `#`, then the trimmed lines with continuations joined; the Normalize and Joins lemmas state its properties |
| Scan.NormalizeFirstLine | public.go:134-138 | the first logical line is `""` or `#`, so no header can sit on the unread line 0 |
| Scan.JoinsLines | public.go:140-164 | every logical line is tab-free and does not start with a space |
| Scan.JoinsPlain | public.go:142-164 | with no line ending in `\`, the logical lines are the trimmed lines |
| Scan.JoinsDropLast | public.go:146-150 | a last line ending in `\` is dropped |
| Scan.Step | public.go:167-222 | one top-level line always moves the cursor forward |
| Scan.ScanFrom | public.go:166-223 | definition of the top-level walk, one Step at a time; ScanTickCount and the directive lemmas state its properties |
| Scan.Arm | public.go:225-228 | arming keeps `On` and the display time, and sets the countdown to the display time exactly when the banner is on with a positive display time |
| Scan.ParseSettings | public.go:131-228 | definition: the top-level walk over the normalised lines, followed by the arming |
| Scan.TopLevelValue | public.go:167-175 | a top-level `key value` line yields the trimmed value, or the key when the value is blank |
| Scan.MaintenanceLine | public.go:174-181 | `maintenance-window` is on exactly when its value lower-cased is `on` |
| Scan.RedirectLine | public.go:197-203 | `redirect-http-to-https` is on exactly when its value lower-cased is `yes` |
| Scan.ScanTickCount | public.go:166-223 | the top-level walk never touches the banner countdown |
| Scan.ParseArmsBanner | public.go:225-228 | after a parse, a banner that is on with a positive display time counts from that time; otherwise the countdown is as before |
| Data.DataOf | public.go:62-111 | definition of `getData`: the map as it was when there is no data header, otherwise a fresh map filled from the lines after the first header; FillKeys and FillLastWins state its content |
| Data.Fill | public.go:96-111 | definition: the entries assigned into the map in order, so a later entry overwrites an earlier one with the same key |
| Data.BlockedIPs | public.go:240-250 | definition: the blocked-ip text split on newlines, then BlockedList |
| Data.FindData | public.go:64-74 | the header index is the first non-comment line starting with `data` in any case, or -1 when there is none |
| Data.JoinFieldsShape | public.go:105-109 | the value is empty or starts with one space, never ends with one and holds no two spaces in a row |
| Data.DataValueShape | public.go:101-109 | a data value is empty or a space followed by the non-empty fields, single-spaced |
| Data.EntryShape | public.go:97-102 | a line gives an entry iff it is not a comment or blank line; the key is a prefix of the line with no space |
| Data.FillKeys | public.go:96-111 | a key is in the map iff some data line below the header carries it |
| Data.FillLastWins | public.go:110 | when a key repeats, the last line's value is the one kept |
| Data.BlockedList | public.go:240-250 | each blocked address is non-empty, has no space and does not start with `#`; there are at most as many as lines |
| Rewrite.RewriteSpec | public.go:272-303 | definition of the rewritten lines; RewriteTarget, RewriteChangesOneLine and RewriteRoundTrip state what they mean |
| Rewrite.RewriteLines | public.go:272-303 | the scan gives the specified lines: all trimmed without a parent, the key line replaced and the lines after it untouched, or the index error when the key is missing |
| Rewrite.RewriteKey | public.go:285-301 | from the parent line on, the first matching key line is replaced, or the index error when none follows |
| Rewrite.RewriteTarget | public.go:275-300 | the parent line is the first non-comment line starting with the parent name in any case; the key line is the first such line after it for the key |
| Rewrite.RewriteChangesOneLine | public.go:275-303 | a rewrite keeps the line count and changes the trimmed text of at most one line |
| Rewrite.NewLineParses | public.go:298 | the written line starts with the key and parses back to the new value (or the key when the value is blank) |
| Rewrite.RewriteRoundTrip | public.go:284-299 | after a successful rewrite under a parent, the key line parses back to the new value |
| Rewrite.Collapse | public.go:313-327 | the collapse is never longer than its input; CollapseKeepsText and CollapseNoDoubleBlank state what it keeps |
| Rewrite.CollapseLines | public.go:313-327 | the loop yields the collapsed lines |
| Rewrite.CollapseKeepsText | public.go:313-327 | the collapse drops only empty lines; the non-empty lines stay, in order |
| Rewrite.CollapseNoDoubleBlank | public.go:313-327 | on trimmed lines, no two empty lines remain in a row and the last line is not empty |
| Rewrite.CollapseKeepsDoubleBlank | public.go:317-324 | as written, `["", "  ", "x"]` collapses to `["", "", "x"]`, keeping two empty lines in a row |
| Rewrite.CollapseFixed | public.go:313-327 | corrected, with every line trimmed before the next test: never longer than the input, and never two empty lines in a row or an empty last line, for every input |
| Rewrite.CollapseFixedSingleBlank | public.go:313-327 | corrected, `["", "  ", "x"]` collapses to `["", "x"]` |
| Rewrite.CollapseHead | public.go:313-327 | a non-empty first line is kept first |
| Rewrite.UpdatedText | public.go:266-332 | definition: the new file text, which is the rewritten lines collapsed and each followed by a newline, or the index error |
| Rewrite.Pass | public.go:410-424 | one pass never lengthens the text, and a pass that leaves the length unchanged leaves the text unchanged; a missing end marker with `len(end) - 1` past the end is the slice panic |
| Rewrite.RemovePhrase | public.go:402-433 | definition: the markers trimmed of spaces, then the passes |
| Rewrite.RemovePhraseFromString | public.go:402-433 | the goto loop gives the outcome of the passes as written (text, slice panic or no end) |
| Rewrite.RemoveLoop | public.go:409-432 | a run that ends leaves no begin marker and never lengthens the text |
| Rewrite.EmptyEndLoops | public.go:405-424 | an end marker that trims to nothing makes the loop cut nothing, forever |
| Rewrite.EmptyBeginNeverDone | public.go:404-416 | a begin marker that trims to nothing never lets the function return |
| Rewrite.LeadingTextNotKept | public.go:409-424 | the text before the first begin marker is not always kept: `"//**/*/"` with `/*`, `*/` ends as `""`, because a cut joins a `/` and a `*` into a new begin marker |
| Rewrite.FixedPassAgrees | public.go:417-424 | where an end marker follows the begin marker, the corrected pass is the pass as written |
| Rewrite.UnterminatedBlockAsWritten | public.go:421-422 | as written, `"a/*b"` with `/*`, `*/` returns `"a*b"` |
| Rewrite.UnterminatedBlockLoops | public.go:421-424 | as written, an unterminated block with a one-byte end marker never ends |
| Rewrite.RemoveBlocks | public.go:402-433 | the corrected removal always ends, leaves no begin marker and never lengthens the text |
| Rewrite.UnterminatedBlockFixed | public.go:421-422 | corrected, `"a/*b"` with `/*`, `*/` returns `"a"` |
| WebConfig.TickBanner | private.go:17-28 | a tick runs iff the banner is on with ticks and display time left; it takes one tick off and switches the banner off at zero |
| WebConfig.RunTicks | private.go:15-32 | definition: the banner after `k` passes of the countdown loop, or None once the task has stopped; Countdown states the whole run |
| WebConfig.Countdown | private.go:15-32 | a banner with n ticks counts down one per tick, is off after exactly n ticks, and the next tick stops the countdown |
| WebConfig.Config.constructor | init.go:41-48 | a new Config holds the settings, data and blocked-ip list that one parse of its file gives, with the banner armed |
| WebConfig.Config.GetConfigLeaves | private.go:101-299 | the walk returns the specified cursor and leaves the settings the specified walk gives |
| WebConfig.Config.WalkOnce | private.go:110-164 | one round of the outer loop keeps the walk's end and its final settings unchanged |
| WebConfig.Config.Leaf | private.go:127-292 | a non-key line stops the walk and changes nothing; an unconfirmed key changes nothing; a confirmed key is applied |
| WebConfig.Config.ApplyLeaf | private.go:166-289 | a confirmed key line updates the section's fields as `ApplyKey` says |
| WebConfig.Config.SiteLeaf | private.go:166-191 | the `site` keys |
| WebConfig.Config.TlsLeaf | private.go:193-202 | the `tls` keys |
| WebConfig.Config.AdminLeaf | private.go:204-224 | the `admin` keys |
| WebConfig.Config.BannerLeaf | private.go:225-238 | the `messagebanner` keys, tested separately |
| WebConfig.Config.HttpLeaf | private.go:240-247 | the `http` key |
| WebConfig.Config.UrlPathsLeaf | private.go:248-288 | the `urlpaths` keys |
| WebConfig.Config.SkipComments | private.go:114-123 | the cursor stops on the first line that is not a comment or blank line, or at the end |
| WebConfig.Config.LowerKeys | private.go:105-108 | every key is lower-cased, in order |
| WebConfig.Config.HitsKey | private.go:128-134 | the line starts with some key iff the loop finds one |
| WebConfig.Config.HeaderAbove | private.go:141-157 | the backward scan finds a header iff some line from 1 to i-1 names the section |
| WebConfig.Config.NormalizeLines | public.go:131-164 | the loop yields the normalised logical lines |
| WebConfig.Config.GetData | public.go:62-112 | without a data header the map is kept; otherwise it is rebuilt from the lines after the first header |
| WebConfig.Config.FindDataHeader | public.go:64-74 | the loop finds the first data header, or -1 |
| WebConfig.Config.ReadEntries | public.go:95-111 | the loop builds the map of the entries after the header |
| WebConfig.Config.JoinValue | public.go:103-109 | the loop joins the non-empty fields after the key, each after a space |
| WebConfig.Config.ReadBlockedIPs | public.go:240-250 | the loop keeps the first word of every non-comment line |
| WebConfig.Config.GetConfig | public.go:117-252 | an unchanged digest changes nothing; a new one is stored and the settings, data and blocked-ip list become those of one parse of the file |
| WebConfig.Config.Reload | public.go:131-251 | the settings, data and blocked-ip list become those of one parse of the file |
| WebConfig.Config.ParseLines | public.go:166-228 | the settings are those of the top-level walk, with the banner armed |
| WebConfig.Config.ScanLines | public.go:166-223 | the loop gives the settings of the top-level walk |
| WebConfig.Config.TopLine | public.go:167-222 | one top-level line: a directive, or a section whose walk resumes one past the returned cursor |
| WebConfig.Config.UpdateConfigValue | public.go:266-344 | the file becomes the rewritten text and is reparsed when its digest changed; the missing-key case leaves everything as it was |
| WebConfig.Config.Tick | private.go:15-31 | a tick runs iff the banner is counting; at the last tick the file gets `display-mode off` and the settings are reparsed from it |
| WebConfig.Config.ValidateHTTPRequest | validate.go:13-147 | the loops give the verdict of the pipeline on the current settings |
| Validate.HostAccepted | validate.go:18-41 | definition of the host stage: it passes when the check is off, no host name is configured, or the request host up to the first `:`, lower-cased, is the host name or an alternate; ForeignHostRefused and AcceptedHostPasses state its effect |
| Validate.Decide | validate.go:13-147 | a verdict allows iff its status is 0; a refusal has a status of at least 1; only a 307 refusal carries a redirect |
| Validate.DenyCode | validate.go:136-140 | a rule refuses with its own status when that is at least 1, and with 404 when it is below 1 |
| Validate.FirstRule | validate.go:105-106 | the rule used is the first whose path is the request path |
| Validate.ForwardFrom | validate.go:83-99 | a redirect is found iff some live forward entry's from-part is the path, and then its target is the to-part of the first such entry |
| Validate.Member | validate.go:29-35 | the loop finds an element iff it is in the list |
| Validate.Listed | validate.go:59-69 | the loop finds a path iff a non-error entry of the list, lower-cased, equals it |
| Validate.Forward | validate.go:83-99 | the loop gives the first live forward target for the path |
| Validate.ForwardEntry | validate.go:84-98 | one entry forwards the path iff its to-part is neither empty nor error text and its from-part is the path; then the search stops with that entry's to-part, otherwise it goes on to the next entry |
| Validate.AnyContains | validate.go:112-118 | the loop finds a value containing the criterion iff there is one |
| Validate.AnyCriterionIn | validate.go:110-119 | the loop finds a criterion contained in some value iff there is one |
| Validate.AnyHeader | validate.go:109-120 | the loop finds a header value matching a criterion iff there is one |
| Validate.AnyCriterion | validate.go:124-130 | the loop finds a criterion equal to the client address or inside the query iff there is one |
| Validate.Serve | validate.go:101-146 | the loop gives the verdict of the first rule for the path, or allows when there is none |
| Validate.ServeVerdict | validate.go:101-146 | definition of the conditional stage: the first rule for the path decides; FirstRuleDecides states it |
| Validate.ForeignHostRefused | validate.go:18-41 | with the host check on, a host that is neither the host name nor an alternate is refused with 502 |
| Validate.AcceptedHostPasses | validate.go:18-41 | an accepted host decides nothing: the verdict is that of the pipeline without the host check |
| Validate.MethodBeforePaths | validate.go:43-54 | a method not allowed is refused with 405, whatever the path rules |
| Validate.RestrictBeforeExclude | validate.go:56-69 | a restricted path is refused with 401, whatever the forward and conditional rules |
| Validate.ErrorEntryIgnored | validate.go:61-65 | an error-text entry never makes a path listed |
| Validate.DeadForwardIgnored | validate.go:92-94 | a forward entry with an empty or error to-part never forwards |
| Validate.DeadRestrictChangesNothing | validate.go:59-69 | adding an error-text entry to restrict-paths changes no verdict |
| Validate.DeadExcludeChangesNothing | validate.go:72-80 | adding an error-text entry to exclude-paths changes no verdict |
| Validate.DeadForwardChangesNothing | validate.go:83-99 | adding a dead forward entry changes no verdict |
| Validate.ForwardDecides | validate.go:83-99 | past the path lists, the request is redirected iff a live forward entry matches, and to the target of the first such entry; otherwise the conditional rules decide |
| Validate.FirstRuleDecides | validate.go:105-143 | the first rule for the path decides: allowed iff it matches, else its deny code; rules after it change nothing |
| Validate.NothingDecidesAllows | validate.go:146 | a request no stage decides is allowed with status 0 |
| Validate.PathCaseIgnored | validate.go:15 | the verdict does not depend on the case of the request path |
| GoStrings.Atoi | private.go:187 | the port is in the int64 range; an empty number, a lone sign, or a non-digit before the digits overflow gives 0; digits that overflow 64 bits saturate to the bound of the sign whatever follows; a digit string within range gives its signed value |
| GoStrings.AtoiLoneSign | private.go:187 | a lone `+` or `-` gives 0 |
| GoStrings.AtoiOverflowBeforeGarbage | private.go:187 | overflowing digits followed by anything give the int64 maximum, not 0 |
| GoStrings.UintOf | private.go:215-216 | the admin port is the int64 value wrapped to a 64-bit unsigned |

## Left out

- File I/O: `ReadFile`, `os.Create`, `os.Rename` and `writeDefaultConfig`. The config and blocked-ip files are fields holding their text. Writing the swap file and renaming it is one assignment to `configFile`. `log.Fatal` on a read error is not modelled.
- `fileOrDirExists` and the directory creation of `NewWebConfig`. Whether the blocked-ip file exists is the `Option` of `blockedIPFile`.
- The SHA-256 double hash (`mathsets.Hash256Twice`) is a function parameter (`digestOf`).
- `encoding/json`: the decoding of `conditional-http-service` is a function parameter (`decode`). `None` leaves the rule list as it was.
- `GetJSON` and `LoadJSONConfig` are not modelled (JSON output and the JSON pre-filter). `RemovePhraseFromString`, which `LoadJSONConfig` calls, is modelled.
- `hasSection` is not modelled: nothing in the core calls it.
- `refreshConfig` and the goroutines: the sleeps, the re-reading every 15 seconds, and the concurrent access to the Config fields. `Tick` is one pass of the `setTimeoutResetMsgBanner` loop, without the sleep. `Countdown` states the whole run.
- `net/http`: a request is the `Request` datatype. `http.Redirect` is the `redirect` field of the verdict.
- Go maps iterate in random order; the request header is a list of (name, values) pairs. The verdict only asks whether some value matches, so the order does not matter.
- The first loop of `getData` only counts lines to size the map, so it is not modelled.
- Character case: `strings.ToLower` is modelled for ASCII letters only.
- Rewrite.RemovePhraseFromString: strings are sequences of characters. Go indexes and slices strings by byte, so offsets and lengths agree with Go only on ASCII text. For example, an end marker `"é"` is one character here but two bytes in Go, so `RemovePhrase("a/*b", "/*", "é")` is `Loops` here, while Go cuts one byte and returns `"a*b"`. The same holds for every `Index`, `Split` and slice in the model.
- WebConfig.Config.UpdateConfigValue: when the parent line is found but no key line follows it, the Go code panics. The model returns `IndexOutOfRange` and leaves the object unchanged.
- WebConfig.Config.Tick: when the last tick's rewrite of `display-mode` hits that same missing-key error, the Go code panics inside the countdown goroutine. The model leaves the banner off with its countdown at 0, and the rest of the object as it was.
- Rewrite.RewriteRoundTrip: the round trip is stated for the rewritten line only: it parses back to the new value, or to the key when the value is blank. It is not stated that a reparse of the updated file leaves every other key as it was, because that does not hold for the code. Key lines are matched case-sensitively when the file is read (private.go:127-134), but case-insensitively when a value is written (public.go:283-297), and the key is written lower-cased. In the file `TLS`, `CERT a`, `key b`, the first parse stops the `TLS` section at `CERT a`, so `key b` is never read. `UpdateConfigValue("TLS", "cert", "v")` rewrites that line as `cert      v`, and the reparse then also reads `key b`, so the key file path, which nobody updated, changes.
- Rewrite.RemovePhraseFromString: keeping the text before the first begin marker is not stated, because it does not hold (Rewrite.LeadingTextNotKept).
- Rewrite.RemovePhraseFromString: a pass that cuts nothing would repeat forever. The model reports it as `Loops` rather than running forever.

## Findings

| source | as written | input that shows it | evidently intended | confidence | as-written member | corrected member |
|---|---|---|---|---|---|---|
| public.go:421-422 | with no end marker after the begin marker, `Index` gives -1 and the slice starts at `len(end) - 1`. Part of the begin marker is kept, or, with a one-byte end marker, nothing is cut and the loop never ends | `RemovePhraseFromString("a/*b", "/*", "*/")` returns `"a*b"`; with end marker `"!"` it never returns | an unterminated block is removed to the end of the string, giving `"a"`, and the function always returns | medium, not executed | Rewrite.UnterminatedBlockAsWritten | Rewrite.UnterminatedBlockFixed |
| public.go:317-324 | the collapse tests whether the next line is empty before that line is trimmed. A line of spaces after an empty line keeps the empty line, then is trimmed to an empty line itself, so two empty lines remain in a row. The rewrite loop (public.go:275-291) has already trimmed every line up to and including the key line, so this happens only below the rewritten key line; the input shown stands for that part of the file | `["", "  ", "x"]` collapses to `["", "", "x"]` | a run of blank lines, spaces or not, is collapsed to at most one empty line | medium, not executed | Rewrite.CollapseKeepsDoubleBlank | Rewrite.CollapseFixed |
