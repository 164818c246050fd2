/** The banners `initialize` and `show status` print for the account-status response of the
    EdgeKV service, as a decision on the body's `accountStatus` and the HTTP status. */
module Initialization {
  import opened Wrappers

  /** The response-body fields the two commands read. */
  datatype InitBody = InitBody(
    accountStatus: Option<string>,       // `accountStatus`; None when the body lacks it
    snakeAccountStatus: Option<string>)  // `account_status`, shown by the fallback banner

  /** The one-line banner printed before the body itself. */
  datatype Banner =
    | InitializedSuccessfully          // "EdgeKV INITIALIZED successfully"
    | AlreadyInitialized               // "EdgeKV already INITIALIZED"
    | InProgress                       // "EdgeKV initialization is IN PROGRESS"
    | NotInitialized                   // "EdgeKV was not INITIALIZED"
    | InitializationFailed             // "EdgeKV Initialization failed. Please try again"
    | InitializationIs(shown: Option<string>)  // "EdgeKV initialization is ${account_status}"
    | NoBanner

  /** initializeEdgeKv, as written. Its second test is `(status = 200)`, an assignment whose
      value 200 is truthy, so an INITIALIZED account with any status but 201 reads as
      already initialized. */
  function InitializeBanner(body: InitBody, status: int): (b: Banner)
    ensures body.accountStatus.None? <==> b == NoBanner
    ensures body.accountStatus == Some("INITIALIZED") ==>
      (b == InitializedSuccessfully <==> status == 201) && (b == AlreadyInitialized <==> status != 201)
    ensures body.accountStatus.Some? && body.accountStatus != Some("INITIALIZED") ==>
      && (b == InProgress <==> status == 200)
      && (b == NotInitialized <==> status == 404)
      && (b == InitializationFailed <==> status != 200 && status != 404 && body.accountStatus == Some("UNINITIALIZED"))
      && (b.InitializationIs? <==> status != 200 && status != 404 && body.accountStatus != Some("UNINITIALIZED"))
    ensures b.InitializationIs? ==> b.shown == body.snakeAccountStatus
  {
    match body.accountStatus
    case None => NoBanner
    case Some(accountStatus) =>
      if accountStatus == "INITIALIZED" then
        if status == 201 then InitializedSuccessfully
        else (
          // the value of the assignment is 200, and a non-zero number is truthy
          var assignedValue := 200;
          if assignedValue != 0 then AlreadyInitialized else NoBanner)
      else if status == 200 && accountStatus != "INITIALIZED" then InProgress
      else if status == 404 then NotInitialized
      else if accountStatus == "UNINITIALIZED" then InitializationFailed
      else InitializationIs(body.snakeAccountStatus)
  }

  /** initializeEdgeKv with the comparison `status == 200` its authors evidently meant. */
  function InitializeBannerIntended(body: InitBody, status: int): (b: Banner)
    ensures body.accountStatus == Some("INITIALIZED") && status == 201 ==> b == InitializedSuccessfully
    ensures b == AlreadyInitialized <==> body.accountStatus == Some("INITIALIZED") && status == 200
    ensures body.accountStatus == Some("INITIALIZED") && status != 200 && status != 201 ==> b == NoBanner
    ensures body.accountStatus != Some("INITIALIZED") ==> b == InitializeBanner(body, status)
  {
    match body.accountStatus
    case None => NoBanner
    case Some(accountStatus) =>
      if accountStatus == "INITIALIZED" then
        if status == 201 then InitializedSuccessfully
        else if status == 200 then AlreadyInitialized
        else NoBanner
      else InitializeBanner(body, status)
  }

  /** getInitializationStatus: the same decision for the status query, with 102 for
      "in progress" and no 404 case. */
  function StatusBanner(body: InitBody, status: int): (b: Banner)
    ensures body.accountStatus.None? ==> b == NoBanner
    ensures body.accountStatus == Some("INITIALIZED") ==>
      && (b == AlreadyInitialized <==> status == 200)
      && (b == InitializedSuccessfully <==> status == 201)
      && (b == NoBanner <==> status != 200 && status != 201)
    ensures body.accountStatus.Some? && body.accountStatus != Some("INITIALIZED") ==>
      && (b == InProgress <==> status == 102)
      && (b == InitializationFailed <==> status != 102 && body.accountStatus == Some("UNINITIALIZED"))
      && (b == InitializationIs(body.snakeAccountStatus) <==> status != 102 && body.accountStatus != Some("UNINITIALIZED"))
  {
    match body.accountStatus
    case None => NoBanner
    case Some(accountStatus) =>
      if accountStatus == "INITIALIZED" then
        if status == 200 then AlreadyInitialized
        else if status == 201 then InitializedSuccessfully
        else NoBanner
      else if status == 102 then InProgress
      else if accountStatus == "UNINITIALIZED" then InitializationFailed
      else InitializationIs(body.snakeAccountStatus)
  }

  /** The text substituted for the error reason when either command fails. */
  const PermissionHint: string :=
    "(You don't have permission to access this resource). Please make sure you have the EdgeKV product added to your contract."

  /** Both commands replace the service's reason by the permission hint on HTTP 403 only. */
  function FailureReason(status: Option<int>, errorReason: string): (reason: string)
    ensures status == Some(403) ==> reason == PermissionHint
    ensures status != Some(403) ==> reason == errorReason
  {
    if status.Some? && status.value == 403 then PermissionHint else errorReason
  }

  /** As written, `initialize` prints "already INITIALIZED" for an INITIALIZED account whatever
      the status other than 201, say 500, where the intended test prints no banner. */
  lemma AssignmentInStatusTest(body: InitBody)
    requires body.accountStatus == Some("INITIALIZED")
    ensures InitializeBanner(body, 500) == AlreadyInitialized
    ensures InitializeBannerIntended(body, 500) == NoBanner
  {
  }

  /** With the intended comparison, `initialize` and `show status` agree on every response
      that reports an INITIALIZED account. */
  lemma IntendedAgreesWithStatusQuery(body: InitBody, status: int)
    requires body.accountStatus == Some("INITIALIZED")
    ensures InitializeBannerIntended(body, status) == StatusBanner(body, status)
  {
  }
}
