/** The access-token commands `create-token` and `retrieve-token`: local validation of the
    expiry date, the permission grammar, the save path and the environment access, the single
    remote request that follows, and the choice of how the returned token is delivered. */
module Tokens {
  import opened Wrappers
  import opened JsText
  import Permissions

  /** The helpers whose bodies live outside the handler, taken as given functions. */
  datatype Platform = Platform(
    isValidDate: Option<string> -> bool,               // ekvhelper.isValidDate
    dateToIsoString: string -> Option<string>,         // new Date(x).toISOString() on a given text; None when it throws
    checkIfFileExists: string -> bool,                 // ekvhelper.checkIfFileExists
    getFileExtension: string -> string,                // ekvhelper.getFileExtension
    decodeJwtToken: string -> string,                  // ekvhelper.decodeJWTToken (display only)
    nameSpaceListFromJwt: string -> seq<string>)       // ekvhelper.getNameSpaceListFromJWT

  /** The two values `--staging` and `--production` take. */
  datatype Access = Allow | Deny

  /** Every way a token command ends without delivering a token. */
  datatype TokenError =
    | InvalidExpiry
    | Permission(reason: Permissions.PermError)
    | InvalidSavePath
    | NoEnvironmentAccess
    | ServiceFailure(errorReason: string, traceId: string)

  /** A token as the service returns it. */
  datatype Token = Token(name: string, value: string)

  /** The request `createEdgeKVToken` is called with. */
  datatype TokenRequest = TokenRequest(
    tokenName: string,
    permissionList: map<string, string>,
    stagingAllowed: bool,
    productionAllowed: bool,
    ewids: seq<string>,
    expiry: string)

  /** The options of `create-token`. */
  datatype CreateOptions = CreateOptions(
    savePath: Option<string>,
    staging: Access,
    production: Access,
    ewids: string,
    namespace: string,
    expiry: Option<string>,
    overwrite: bool)

  /** How the token is delivered once the service has returned it. */
  datatype Action =
    | ShowOnTerminal(name: string, value: string, decoded: string, nameSpaceList: seq<string>)
    | CreateTokenFile(path: string, overwrite: bool, token: Token, decoded: string, nameSpaceList: seq<string>)
    | SaveTokenToBundle(path: string, overwrite: bool, token: Token, decoded: string, nameSpaceList: seq<string>)

  /** How an invocation ends. */
  datatype Outcome = Exit(error: TokenError) | Delivered(action: Action)

  /** The remote requests an invocation issued, in order, and how it ended. */
  datatype Run<Q> = Run(requests: seq<Q>, outcome: Outcome)

  // ---------------------------------------------------------------------------
  // Expiry

  /** `iso` cut at its first `.`, with `Z` appended: the prefix before the first dot
      (the whole string when it has none). */
  ghost predicate TruncatedIso(iso: string, expiry: string) {
    && |expiry| >= 1 && expiry[|expiry| - 1] == 'Z'
    && var head := expiry[..|expiry| - 1];
       && head <= iso && '.' !in head
       && (|head| == |iso| || iso[|head|] == '.')
  }

  /** `new Date(x).toISOString()` as JavaScript defines it where the answer does not depend on
      the date text: `new Date(undefined)` and `new Date("")` are Invalid Dates, whose
      `toISOString` throws; any other text is left to `dateToIsoString`. */
  function ToIsoString(p: Platform, expiry: Option<string>): (iso: Option<string>)
    ensures expiry.None? ==> iso.None?
    ensures expiry.Some? && expiry.value == "" ==> iso.None?
    ensures expiry.Some? && expiry.value != "" ==> iso == p.dateToIsoString(expiry.value)
  {
    if expiry.None? || expiry.value == "" then None else p.dateToIsoString(expiry.value)
  }

  /** getExpiryDate: the date must pass `isValidDate` and convert to an ISO string; the
      result is that string up to its first `.`, followed by `Z`. A missing or empty
      `--expiry` always fails, whatever `isValidDate` says, because its conversion throws. */
  function GetExpiryDate(p: Platform, expiry: Option<string>): (r: Result<string, TokenError>)
    ensures r.Failure? <==>
      !p.isValidDate(expiry) || expiry.None? || expiry.value == "" || p.dateToIsoString(expiry.value).None?
    ensures r.Failure? ==> r.error == InvalidExpiry
    ensures r.Success? ==> TruncatedIso(p.dateToIsoString(expiry.value).value, r.value)
  {
    if !p.isValidDate(expiry) then Failure(InvalidExpiry)
    else match ToIsoString(p, expiry)
      case None => Failure(InvalidExpiry)
      case Some(iso) =>
        var head := Split(iso, '.')[0];
        FirstPiece(iso, '.');
        assert (head + "Z")[..|head|] == head;
        Success(head + "Z")
  }

  /** An ISO string `P.rest` whose date part `P` has no dot normalises to `PZ`:
      `2025-06-01T00:00:00.000Z` becomes `2025-06-01T00:00:00Z`. */
  lemma ExpiryDropsFraction(p: Platform, expiry: Option<string>, head: string, rest: string)
    requires p.isValidDate(expiry)
    requires expiry.Some? && expiry.value != ""
    requires p.dateToIsoString(expiry.value) == Some(head + "." + rest)
    requires '.' !in head
    ensures GetExpiryDate(p, expiry) == Success(head + "Z")
  {
    SplitAtSeparator(head, rest, '.');
    assert head + ['.'] + rest == head + "." + rest;
  }

  // ---------------------------------------------------------------------------
  // Save path and environment access

  /** validateSavePath: an absent or empty path passes; any other must exist. */
  function ValidateSavePath(p: Platform, savePath: Option<string>): (r: Result<(), TokenError>)
    ensures r.Success? <==> savePath.None? || savePath.value == "" || p.checkIfFileExists(savePath.value)
    ensures r.Failure? ==> r.error == InvalidSavePath
  {
    if Truthy(savePath) && !p.checkIfFileExists(savePath.value) then Failure(InvalidSavePath)
    else Success(())
  }

  /** The lookup `{ allow: true, deny: false }[x]`. */
  function EnvAccess(a: Access): (allowed: bool)
    ensures allowed <==> a == Allow
  {
    match a
    case Allow => true
    case Deny => false
  }

  // ---------------------------------------------------------------------------
  // Delivery

  /** processToken: no save path shows the token on the terminal; a path whose extension is
      exactly `.tgz` merges it into that bundle; any other path gets a standalone token file. */
  function ProcessToken(p: Platform, token: Token, savePath: Option<string>, overwrite: bool): (a: Action)
    ensures a.ShowOnTerminal? <==> !Truthy(savePath)
    ensures a.SaveTokenToBundle? <==> Truthy(savePath) && p.getFileExtension(savePath.value) == ".tgz"
    ensures a.CreateTokenFile? <==> Truthy(savePath) && p.getFileExtension(savePath.value) != ".tgz"
    ensures a.ShowOnTerminal? ==> a.name == token.name && a.value == token.value
    ensures !a.ShowOnTerminal? ==> a.path == savePath.value && a.overwrite == overwrite && a.token == token
    ensures a.decoded == p.decodeJwtToken(token.value)
    ensures a.nameSpaceList == p.nameSpaceListFromJwt(a.decoded)
  {
    var decoded := p.decodeJwtToken(token.value);
    var nameSpaceList := p.nameSpaceListFromJwt(decoded);
    if Truthy(savePath) then
      if p.getFileExtension(savePath.value) != ".tgz" then
        CreateTokenFile(savePath.value, overwrite, token, decoded, nameSpaceList)
      else
        SaveTokenToBundle(savePath.value, overwrite, token, decoded, nameSpaceList)
    else
      ShowOnTerminal(token.name, token.value, decoded, nameSpaceList)
  }

  // ---------------------------------------------------------------------------
  // create-token and retrieve-token

  /** The checks of createToken in the order it runs them (expiry, permissions, save path,
      environment access), and the request it sends when all of them pass. */
  function PrepareCreate(p: Platform, tokenName: string, opts: CreateOptions): (r: Result<TokenRequest, TokenError>)
    ensures
      var expiry := GetExpiryDate(p, opts.expiry);
      var permissions := Permissions.ParsePermissions(opts.namespace);
      var savePath := ValidateSavePath(p, opts.savePath);
      && (expiry.Failure? ==> r == Failure(InvalidExpiry))
      && (expiry.Success? && permissions.Failure? ==> r == Failure(Permission(permissions.error)))
      && (expiry.Success? && permissions.Success? && savePath.Failure? ==> r == Failure(InvalidSavePath))
      && (r == Failure(NoEnvironmentAccess) <==>
            expiry.Success? && permissions.Success? && savePath.Success? && opts.staging == opts.production == Deny)
      && (r.Success? <==>
            expiry.Success? && permissions.Success? && savePath.Success? && (opts.staging == Allow || opts.production == Allow))
      && (r.Success? ==> r.value == TokenRequest(tokenName, permissions.value, opts.staging == Allow,
                                                 opts.production == Allow, Split(opts.ewids, ','), expiry.value))
  {
    match GetExpiryDate(p, opts.expiry)
    case Failure(e) => Failure(e)
    case Success(expiry) =>
      match Permissions.ParsePermissions(opts.namespace)
      case Failure(e) => Failure(Permission(e))
      case Success(permissionList) =>
        match ValidateSavePath(p, opts.savePath)
        case Failure(e) => Failure(e)
        case Success(_) =>
          if opts.staging == Deny && opts.production == Deny then Failure(NoEnvironmentAccess)
          else Success(TokenRequest(tokenName, permissionList,
                                    EnvAccess(opts.staging), EnvAccess(opts.production),
                                    Split(opts.ewids, ','), expiry))
  }

  /** createToken: one create request, issued only when every check passed; its reply is
      either echoed as a failure or handed to processToken. */
  function CreateToken(p: Platform, tokenName: string, opts: CreateOptions,
                       create: TokenRequest -> Reply<Token>): (run: Run<TokenRequest>)
    ensures |run.requests| <= 1
    ensures |run.requests| == 1 <==> PrepareCreate(p, tokenName, opts).Success?
    ensures run.requests == [] ==> run.outcome == Exit(PrepareCreate(p, tokenName, opts).error)
    ensures |run.requests| == 1 ==> run.requests[0] == PrepareCreate(p, tokenName, opts).value
    ensures |run.requests| == 1 && create(run.requests[0]).Fail? ==>
      run.outcome == Exit(ServiceFailure(create(run.requests[0]).errorReason, create(run.requests[0]).traceId))
    ensures |run.requests| == 1 && create(run.requests[0]).Ok? ==>
      run.outcome == Delivered(ProcessToken(p, create(run.requests[0]).value, opts.savePath, opts.overwrite))
  {
    match PrepareCreate(p, tokenName, opts)
    case Failure(e) => Run([], Exit(e))
    case Success(request) =>
      match create(request)
      case Fail(reason, traceId) => Run([request], Exit(ServiceFailure(reason, traceId)))
      case Ok(token) => Run([request], Delivered(ProcessToken(p, token, opts.savePath, opts.overwrite)))
  }

  /** retrieveToken: the save path is checked before the single fetch by name. */
  function RetrieveToken(p: Platform, tokenName: string, savePath: Option<string>, overwrite: bool,
                         getSingleToken: string -> Reply<Token>): (run: Run<string>)
    ensures run.requests == [] <==> ValidateSavePath(p, savePath).Failure?
    ensures run.requests == [] ==> run.outcome == Exit(InvalidSavePath)
    ensures run.requests != [] ==> run.requests == [tokenName]
    ensures run.requests != [] && getSingleToken(tokenName).Fail? ==>
      run.outcome == Exit(ServiceFailure(getSingleToken(tokenName).errorReason, getSingleToken(tokenName).traceId))
    ensures run.requests != [] && getSingleToken(tokenName).Ok? ==>
      run.outcome == Delivered(ProcessToken(p, getSingleToken(tokenName).value, savePath, overwrite))
  {
    match ValidateSavePath(p, savePath)
    case Failure(e) => Run([], Exit(e))
    case Success(_) =>
      match getSingleToken(tokenName)
      case Fail(reason, traceId) => Run([tokenName], Exit(ServiceFailure(reason, traceId)))
      case Ok(token) => Run([tokenName], Delivered(ProcessToken(p, token, savePath, overwrite)))
  }

  // ---------------------------------------------------------------------------
  // Properties of the flow

  /** Staging and production both denied: no create request, whatever else the options say. */
  lemma DenyDenyNeverCreates(p: Platform, tokenName: string, opts: CreateOptions, create: TokenRequest -> Reply<Token>)
    requires opts.staging == Deny && opts.production == Deny
    ensures CreateToken(p, tokenName, opts, create).requests == []
    ensures CreateToken(p, tokenName, opts, create).outcome.Exit?
  {
  }

  /** Any other access combination with otherwise valid options creates a token whose two
      environment flags are the allow/deny choices read as booleans. */
  lemma AllowedAccessCreates(p: Platform, tokenName: string, opts: CreateOptions, create: TokenRequest -> Reply<Token>)
    requires GetExpiryDate(p, opts.expiry).Success?
    requires Permissions.ParsePermissions(opts.namespace).Success?
    requires ValidateSavePath(p, opts.savePath).Success?
    requires opts.staging == Allow || opts.production == Allow
    ensures |CreateToken(p, tokenName, opts, create).requests| == 1
    ensures CreateToken(p, tokenName, opts, create).requests[0].stagingAllowed == EnvAccess(opts.staging)
    ensures CreateToken(p, tokenName, opts, create).requests[0].productionAllowed == EnvAccess(opts.production)
  {
  }

  /** The edge-worker ids sent are the `--ewids` text split on commas: joined back they give it. */
  lemma CreateSendsEwids(p: Platform, tokenName: string, opts: CreateOptions, create: TokenRequest -> Reply<Token>)
    requires |CreateToken(p, tokenName, opts, create).requests| == 1
    ensures Join(CreateToken(p, tokenName, opts, create).requests[0].ewids, ',') == opts.ewids
    ensures forall i :: 0 <= i < |CreateToken(p, tokenName, opts, create).requests[0].ewids| ==>
      ',' !in CreateToken(p, tokenName, opts, create).requests[0].ewids[i]
  {
    JoinSplit(opts.ewids, ',');
  }

  /** Without `--expiry` no token is ever created: the command exits with the invalid-expiry
      error before any request, whatever the helpers and the other options are. */
  lemma AbsentExpiryNeverCreates(p: Platform, tokenName: string, opts: CreateOptions,
                                 create: TokenRequest -> Reply<Token>)
    requires opts.expiry.None?
    ensures CreateToken(p, tokenName, opts, create).requests == []
    ensures CreateToken(p, tokenName, opts, create).outcome == Exit(InvalidExpiry)
  {
  }

  /** A save path that does not exist stops both commands before any remote request. */
  lemma BadSavePathStopsBeforeRequest(p: Platform, tokenName: string, opts: CreateOptions,
                                      create: TokenRequest -> Reply<Token>, getSingleToken: string -> Reply<Token>)
    requires Truthy(opts.savePath) && !p.checkIfFileExists(opts.savePath.value)
    ensures CreateToken(p, tokenName, opts, create).requests == []
    ensures RetrieveToken(p, tokenName, opts.savePath, opts.overwrite, getSingleToken).requests == []
    ensures RetrieveToken(p, tokenName, opts.savePath, opts.overwrite, getSingleToken).outcome == Exit(InvalidSavePath)
  {
  }
}
