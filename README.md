# EdgeKV access-token handler: a Dafny model

This project models the local decision logic of the EdgeKV command handler
(`src/edgekv/ekv-handler.ts`) of the EdgeWorkers/EdgeKV command-line client.
Most of that handler awaits a call to the remote EdgeKV management API and prints the
result, or prints the service's `error_reason` with its `traceId`. The model keeps only
the logic that runs locally:

- **Permission grammar** (`Permissions`). `create-token --namespace` takes comma-separated
  `name+flags` segments, with flags drawn from `r`, `w` and `d`. The handler compiles them
  into a map from namespace name to flag characters. It fails fast with one of three
  messages: an empty part, a flag that is not allowed (which also covers the wrong number
  of `+` parts), or a repeated namespace. The handler's nested loops are a Dafny `method`
  (`ParseNameSpacePermissions`). That method is proved equal to the specification function
  `ParsePermissions`, and lemmas characterise that function.
- **Token commands** (`Tokens`). For `create-token`, the checks run in this order: expiry
  normalisation, permission compilation, save-path check, then the staging/production
  allow/deny rule. The model then gives the single create request that follows. For
  `retrieve-token`, the save-path check runs before the single fetch. `processToken` has
  three ways to deliver the returned token: terminal, standalone file, or a `.tgz` bundle.
  Each flow is a function that returns a `Run`. A `Run` lists the remote requests issued
  and how the invocation ended, so "at most one request, and only after every check" is
  part of the contract.
- **Initialization banners** (`Initialization`). These decide the banner that `initialize`
  and the status query print, from the body's `accountStatus` and the HTTP status. This
  includes the assignment `(status = 200)` in `initializeEdgeKv`.
- **Namespace rules** (`Namespaces`). These are the `groupId` guard of namespace creation,
  the fallbacks of namespace update, and the rows of the namespace listing.
- **JavaScript text** (`JsText`). This is `String.prototype.split` with a one-character
  separator, proved inverse to `join` in both directions.

Helpers whose bodies are not part of this model are parameters of the model functions.
They are collected in `Tokens.Platform` or passed as function arguments:
`isValidDate`, `new Date(x).toISOString()` on a non-empty date text (`None` when it throws), `checkIfFileExists`,
`getFileExtension`, `decodeJWTToken`, `getNameSpaceListFromJWT`, `convertDaysToSeconds`,
`convertRetentionPeriod` and `validateNetwork` (its verdict on an environment). Remote calls (`createEdgeKVToken`, `getSingleToken`,
`getNameSpace`) are also parameters. Each returns `Reply.Ok(value)` or
`Reply.Fail(reason, traceId)`. `logAndExit` and `process.exit(1)` become error results.

Points of the code's behaviour that are easy to misread, each of which the model reproduces
(line numbers refer to `src/edgekv/ekv-handler.ts`):

- A wrong number of `+` parts and a flag character outside `r`, `w`, `d` exit with the same
  "Please provide from the following : r,w,d" message (lines 676-677 and 684). Both are
  `NotAllowed` in the model.
- An empty first or second part is checked before the number of parts (line 669), so
  `a++` is an empty-part error and `a+r+w` an arity error.
- The flags of a namespace are kept as the characters given, in input order and with repeats
  (lines 682 and 694): `blog+rr` gives `rr`.
- `createToken` checks the expiry first (line 453), then the permissions (line 456),
  then the save path (lines 458-459), then environment access (lines 461-466).
- `--expiry` is declared optional (line 448), but leaving it out never succeeds:
  `new Date(undefined)` is an Invalid Date, its `toISOString()` throws, and the catch at
  lines 654-655 exits with the invalid-expiry message. An empty `--expiry` ends the same
  way. So `create-token` without `--expiry` sends no request, whatever `isValidDate` says.
- The handler's only check of the save path is `checkIfFileExists(savePath)` (lines 700-701);
  what that helper tests is not modelled.

## Model

| member | source | states |
|---|---|---|
| JsText.Split | src/edgekv/ekv-handler.ts:665-666 | `split` on one character: at least one piece, and no piece contains the separator |
| JsText.JoinSplit | src/edgekv/ekv-handler.ts:474 | joining the pieces of a split with the separator gives back the original string |
| JsText.SplitJoin | src/edgekv/ekv-handler.ts:665-666 | pieces without the separator are recovered exactly by splitting their join |
| JsText.FirstPiece | src/edgekv/ekv-handler.ts:652 | the first piece of a split is the longest prefix without the separator, followed by the end of the string or a separator |
| JsText.Truthy | src/edgekv/ekv-handler.ts:700 | JavaScript truthiness of an optional string, as in `if (savePath)` at lines 700 and 715 and `if (!geoLocation)` at line 141: falsy exactly for `undefined` and the empty string |
| Permissions.CheckSegment | src/edgekv/ekv-handler.ts:666-686 | a segment that passes gives a non-empty name and non-empty flags, neither containing `+`, all flags in r/w/d, and the segment is exactly `name+flags` |
| Permissions.ParseSegments | src/edgekv/ekv-handler.ts:688-694 | on success, every entry already in the map keeps its flags |
| Permissions.ParsePermissions | src/edgekv/ekv-handler.ts:659-697 | the function form of the whole compiler: on success, one entry per comma segment, each a non-empty name bound to a non-empty flag string of `r`, `w`, `d` |
| Permissions.ParseSegmentsGrants | src/edgekv/ekv-handler.ts:665-695 | each successfully compiled segment adds exactly one entry, and every entry added is a well-formed grant |
| Permissions.ParseNameSpacePermissions | src/edgekv/ekv-handler.ts:659-697 | the handler's loop (segments, then flag characters one at a time) returns exactly the `ParsePermissions` result: the first error or the complete map |
| Permissions.CheckValidSegment | src/edgekv/ekv-handler.ts:666-686 | a well-formed `name+flags` compiles to that name and those flags, order and repeats kept |
| Permissions.CheckEmptyName | src/edgekv/ekv-handler.ts:669-674 | an empty segment, or a segment starting with `+`, fails with the empty-part message |
| Permissions.CheckEmptyFlags | src/edgekv/ekv-handler.ts:669-674 | `name+` and `name++...` fail with the empty-part message |
| Permissions.CheckNoSeparator | src/edgekv/ekv-handler.ts:676-678 | a non-empty segment without `+` fails with the allowed-permission message |
| Permissions.CheckThreeParts | src/edgekv/ekv-handler.ts:676-678 | `name+flags+rest` with non-empty first parts fails with the allowed-permission message |
| Permissions.CheckBadFlag | src/edgekv/ekv-handler.ts:680-686 | a flag character outside r/w/d fails with the allowed-permission message |
| Permissions.UnfoldSegments | src/edgekv/ekv-handler.ts:665 | validity, names and distinctness of a segment list split into its first segment and the rest |
| Permissions.ParseSegmentsSuccess | src/edgekv/ekv-handler.ts:665-696 | compilation succeeds if and only if every segment is well formed and no name repeats; the map's keys are then exactly the names, each bound to its segment's flags |
| Permissions.ParseAppend | src/edgekv/ekv-handler.ts:665-695 | compiling a concatenation compiles the first part, then continues from its map; a failure in the first part ends it |
| Permissions.ParseStopsAtInvalid | src/edgekv/ekv-handler.ts:669-686 | if the segments before k are fine and segment k fails its own checks, the whole parse fails with that error, whatever follows |
| Permissions.ParseStopsAtRepeat | src/edgekv/ekv-handler.ts:688-693 | if the segments before k are fine and segment k repeats an earlier name, the parse fails as repeated, whatever follows |
| Permissions.RepeatedNameNeverCompiles | src/edgekv/ekv-handler.ts:688-693 | two well-formed segments with the same name mean that no map is returned |
| Permissions.Segments | src/edgekv/ekv-handler.ts:665 | the i-th rendered segment is `name+flags` of the i-th grant |
| Permissions.GrantSegment | src/edgekv/ekv-handler.ts:666-686 | a valid grant's segment contains no comma and compiles back to the grant |
| Permissions.RenderedSplit | src/edgekv/ekv-handler.ts:665 | the rendered text splits on commas into exactly the grants' segments |
| Permissions.RenderedValid | src/edgekv/ekv-handler.ts:666-686 | every rendered segment compiles to its own grant |
| Permissions.RenderRoundTrip | src/edgekv/ekv-handler.ts:659-697 | compiling the text of distinct well-formed grants yields exactly those names as keys, each bound to its flags |
| Permissions.OneNamespace | src/edgekv/ekv-handler.ts:665-696 | `name+flags` alone compiles to a one-entry map (`blog+rr` gives blog -> rr) |
| Permissions.TwoNamespaces | src/edgekv/ekv-handler.ts:665-696 | two well-formed segments compile to both entries if their names differ (`blog+rw,videos+r`), and fail as repeated if the names are equal (`blog+rw,blog+r`) |
| Tokens.ToIsoString | src/edgekv/ekv-handler.ts:652 | a missing or empty date text has no ISO string (`new Date` gives an Invalid Date and `toISOString` throws); any other text gets the date helper's answer |
| Tokens.GetExpiryDate | src/edgekv/ekv-handler.ts:645-657 | fails (invalid expiry) exactly when `isValidDate` rejects, the expiry is missing or empty (its conversion always throws), or the conversion of the given text throws; otherwise the result is the ISO string cut at its first `.`, plus `Z` |
| Tokens.AbsentExpiryNeverCreates | src/edgekv/ekv-handler.ts:448-453 | without `--expiry`, `create-token` exits with the invalid-expiry error before any request, whatever the helpers and other options are |
| Tokens.ExpiryDropsFraction | src/edgekv/ekv-handler.ts:652 | an ISO string `P.rest` with no dot in P normalises to `PZ` |
| Tokens.ValidateSavePath | src/edgekv/ekv-handler.ts:699-708 | passes if and only if the path is absent, empty, or an existing file |
| Tokens.EnvAccess | src/edgekv/ekv-handler.ts:457 | `allow` reads as true and `deny` as false |
| Tokens.ProcessToken | src/edgekv/ekv-handler.ts:710-743 | exactly one delivery: terminal when there is no save path, bundle merge when the extension is exactly `.tgz`, standalone file otherwise; path, overwrite flag and token are passed through unchanged |
| Tokens.PrepareCreate | src/edgekv/ekv-handler.ts:452-476 | errors in priority order (expiry, permissions, save path, both-deny); succeeds if and only if all pass, with the parsed map, the two booleans, `ewids` split on `,` and the normalised expiry |
| Tokens.CreateToken | src/edgekv/ekv-handler.ts:440-488 | at most one create request, issued if and only if every check passed; a service failure is echoed with its reason and trace id; a token is handed to processToken |
| Tokens.RetrieveToken | src/edgekv/ekv-handler.ts:490-510 | the save path is checked before the single fetch; with no fetch the outcome is the save-path error |
| Tokens.DenyDenyNeverCreates | src/edgekv/ekv-handler.ts:461-466 | staging = production = deny: no create request, and the invocation exits |
| Tokens.AllowedAccessCreates | src/edgekv/ekv-handler.ts:468-476 | any other allow/deny combination, with the other checks passing, issues one request carrying the two booleans |
| Tokens.CreateSendsEwids | src/edgekv/ekv-handler.ts:474 | the edge-worker ids sent contain no comma and join back to the `--ewids` text |
| Tokens.BadSavePathStopsBeforeRequest | src/edgekv/ekv-handler.ts:494-498 | a non-empty save path that does not exist stops both commands before any remote request |
| Initialization.InitializeBanner | src/edgekv/ekv-handler.ts:179-204 | the `initialize` decision table; an INITIALIZED account gives "successfully" on 201 and "already INITIALIZED" on every other status; a banner is printed if and only if `accountStatus` is present |
| Initialization.InitializeBannerIntended | src/edgekv/ekv-handler.ts:185-190 | with `status == 200`, "already INITIALIZED" appears if and only if the account is INITIALIZED and the status is 200 |
| Initialization.StatusBanner | src/edgekv/ekv-handler.ts:225-248 | the status-query decision table: 200/201 for INITIALIZED accounts, 102 for in progress, UNINITIALIZED as failed, otherwise the `account_status` field |
| Initialization.FailureReason | src/edgekv/ekv-handler.ts:207-211 | HTTP 403 replaces the service's reason by the permission hint; any other status keeps the reason |
| Initialization.AssignmentInStatusTest | src/edgekv/ekv-handler.ts:188 | as written, an INITIALIZED account with status 500 reads as already initialized, where the intended test prints no banner |
| Initialization.IntendedAgreesWithStatusQuery | src/edgekv/ekv-handler.ts:231-236 | with the intended test, `initialize` and the status query agree on every INITIALIZED response |
| Namespaces.CreateNamespace | src/edgekv/ekv-handler.ts:75-94 | succeeds if and only if a non-zero group id is given (0 is rejected despite the message) and `validateNetwork` accepts the environment; the group id is checked first; the request carries that group id |
| Namespaces.UpdateNameSpace | src/edgekv/ekv-handler.ts:129-155 | `default` is refused before any fetch; otherwise one fetch; a missing namespace gives its trace id; the update keeps the stored group id and falls back to the stored geo location |
| Namespaces.UpdateIgnoresGroupIdOption | src/edgekv/ekv-handler.ts:144 | changing the `groupId` option changes nothing in the update |
| Namespaces.AccessGroupId | src/edgekv/ekv-handler.ts:24 | a missing group id is shown as 0, a present one as itself |
| Namespaces.NamespaceRows | src/edgekv/ekv-handler.ts:19-34 | one row per namespace, in order; detailed rows carry the converted retention, the geo location and the access group id |

## Left out

- Remote I/O: every `edgekvSvc.*` and `edgeWorkersSvc.*` call and its HTTP transport. Each remote call is a function parameter that returns a success value or a reason with a trace id.
- Presentation: spinners, `logWithBorder`, `console.table`/`console.log` and the `response.log*` formatting. The model returns which banner, error or delivery action results, not the printed text.
- Process exit: `logAndExit` and `process.exit(1)` become error results. The exit code is not modelled.
- Helpers whose bodies are not part of this model are uninterpreted function parameters: `isValidDate`, JavaScript `Date` parsing and `toISOString` of a non-empty date text, `checkIfFileExists`, `getFileExtension`, `decodeJWTToken`, `getNameSpaceListFromJWT`, `convertDaysToSeconds` and `convertRetentionPeriod`. This is why the calendar-date validation itself is not modelled. `validateNetwork` is a `string -> bool` parameter of `Namespaces.CreateNamespace`.
- Token-file and bundle writing: `createTokenFileWithoutBundle` and `saveTokenToBundle` are not part of this model. The model ends at the chosen action, so overwrite idempotence and archive-merge preservation are not modelled.
- Claims decoding: the handler passes the decoded token only to display and file helpers and decides nothing on it; `decodeJWTToken` is opaque here, so the decoded JWT is an opaque string.
- Permissions.ParseNameSpacePermissions: uses a plain map. The source's object lookup `permissionList[name] != null` also sees inherited properties, so a name such as `constructor` would be rejected as repeated. The model does not reproduce that.
- Tokens.CreateToken: `--staging` and `--production` are restricted to `allow`/`deny`. For other values the source would pass `undefined` to the service.
- Tokens.CreateToken: `--namespace` and `--ewids` are taken as present strings. When either is missing, the source crashes with a type error when it calls `split`.
- Tokens.CreateToken: the overwrite option is modelled as a boolean. An absent flag is `false`.
- Namespaces.CreateNamespace: the group id is an optional integer. NaN, and a value passed as text rather than a number, are not modelled. For text values, JavaScript truthiness would differ for `"0"`.
- Namespaces.NamespaceRows: the rows are built from the namespace list as given. The `validateNetwork` call at line 8, the `sortObjectArray` sort at line 17 that precedes the rows, and the case where the response lacks a `namespaces` field, are not modelled.
- Commands outside the token and namespace core are not modelled, nor is their local branching: `listAuthGroups` and `getEwGroups` (including the `any` default for a missing group id at lines 600-602), `listGroups`, the item commands (including the `itemType` choice of `writeItemToEdgeKV` at lines 278-305 and the `null` item that `readItemFromEdgeKV` treats as found at line 334), `listTokens`, `revokeToken`, `modifyAuthGroupPermission` and `getNameSpace`.

## Findings

| source | as written | input that shows it | evidently intended | confidence | as-written member | corrected member |
|---|---|---|---|---|---|---|
| src/edgekv/ekv-handler.ts:188 | `else if ((status = 200))` assigns 200, which is always truthy | `accountStatus` = `INITIALIZED`, HTTP status 500 | `status == 200`, as in the status query at line 232, so that other statuses print no "already INITIALIZED" banner | medium, not executed | Initialization.InitializeBanner, Initialization.AssignmentInStatusTest | Initialization.InitializeBannerIntended, Initialization.IntendedAgreesWithStatusQuery |
