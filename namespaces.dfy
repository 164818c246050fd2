/** The local rules of the namespace commands: the `groupId` guard of `create-ns`, the
    fallbacks of `update-ns`, and the rows `list-ns --details` prints. */
module Namespaces {
  import opened Wrappers
  import opened JsText

  /** A namespace as the service describes it. */
  datatype NamespaceRecord = NamespaceRecord(
    namespace: string,
    retentionInSeconds: int,
    geoLocation: Option<string>,
    groupId: Option<int>)

  datatype NamespaceError =
    | MissingGroupId                     // "The mandatory "groupId" parameter is missing. ..."
    | InvalidEnvironment                 // validateNetwork exits on an environment it does not accept
    | DefaultNamespace                   // "You cannot modify the retention period for the "default" namespace."
    | NamespaceNotFound(traceId: string) // "Namespace ... is not found ... [TraceId: ...]"

  // ---------------------------------------------------------------------------
  // create-ns

  /** The create request the command sends. */
  datatype CreateRequest = CreateRequest(
    environment: string, nameSpace: string, retentionSeconds: int, groupId: int, geoLocation: string)

  /** createNamespace: `if (!groupId)` rejects a missing group id and also the group id 0,
      although the message itself tells the user to pass 0 for an unrestricted namespace.
      Only then is the environment checked, by `validateNetwork` (whose verdict is a
      parameter here), before the create request is built. */
  function CreateNamespace(environment: string, nameSpace: string, retention: int, groupId: Option<int>,
                           geoLocation: string, validateNetwork: string -> bool,
                           convertDaysToSeconds: int -> int): (r: Result<CreateRequest, NamespaceError>)
    ensures r.Success? <==> groupId.Some? && groupId.value != 0 && validateNetwork(environment)
    ensures (groupId.None? || groupId.value == 0) ==> r == Failure(MissingGroupId)
    ensures groupId.Some? && groupId.value != 0 && !validateNetwork(environment) ==> r == Failure(InvalidEnvironment)
    ensures r.Success? ==>
      && r.value.groupId == groupId.value && r.value.nameSpace == nameSpace
      && r.value.environment == environment && r.value.geoLocation == geoLocation
      && r.value.retentionSeconds == convertDaysToSeconds(retention)
  {
    if groupId.None? || groupId.value == 0 then Failure(MissingGroupId)
    else if !validateNetwork(environment) then Failure(InvalidEnvironment)
    else Success(CreateRequest(environment, nameSpace, convertDaysToSeconds(retention), groupId.value, geoLocation))
  }

  // ---------------------------------------------------------------------------
  // update-ns

  datatype UpdateOptions = UpdateOptions(retention: int, groupId: int, geoLocation: Option<string>)

  /** The update request the command sends. */
  datatype UpdateRequest = UpdateRequest(
    environment: string, nameSpace: string, retentionSeconds: int,
    groupId: Option<int>, geoLocation: Option<string>)

  /** The namespaces fetched (environment and name) and the update that follows. */
  datatype UpdateRun = UpdateRun(fetches: seq<(string, string)>, outcome: Result<UpdateRequest, NamespaceError>)

  /** updateNameSpace: `default` is refused before anything is fetched; otherwise the
      namespace is fetched once; a missing geo location falls back to the stored one, and
      the group id is always the stored one, whatever the options say. */
  function UpdateNameSpace(environment: string, nameSpace: string, options: UpdateOptions,
                           convertDaysToSeconds: int -> int,
                           getNameSpace: (string, string) -> Reply<NamespaceRecord>): (run: UpdateRun)
    ensures nameSpace == "default" ==> run == UpdateRun([], Failure(DefaultNamespace))
    ensures nameSpace != "default" ==> run.fetches == [(environment, nameSpace)]
    ensures nameSpace != "default" && getNameSpace(environment, nameSpace).Fail? ==>
      run.outcome == Failure(NamespaceNotFound(getNameSpace(environment, nameSpace).traceId))
    ensures nameSpace != "default" && getNameSpace(environment, nameSpace).Ok? ==>
      && var existing := getNameSpace(environment, nameSpace).value;
      && run.outcome.Success?
      && run.outcome.value.groupId == existing.groupId
      && run.outcome.value.geoLocation == (if Truthy(options.geoLocation) then options.geoLocation else existing.geoLocation)
      && run.outcome.value.retentionSeconds == convertDaysToSeconds(options.retention)
      && run.outcome.value.environment == environment && run.outcome.value.nameSpace == nameSpace
  {
    if nameSpace == "default" then UpdateRun([], Failure(DefaultNamespace))
    else
      var fetches := [(environment, nameSpace)];
      match getNameSpace(environment, nameSpace)
      case Fail(_, traceId) => UpdateRun(fetches, Failure(NamespaceNotFound(traceId)))
      case Ok(existing) =>
        var geoLocation := if !Truthy(options.geoLocation) then existing.geoLocation else options.geoLocation;
        UpdateRun(fetches, Success(UpdateRequest(environment, nameSpace, convertDaysToSeconds(options.retention),
                                                 existing.groupId, geoLocation)))
  }

  /** The `groupId` option of update-ns has no effect on what the command does. */
  lemma UpdateIgnoresGroupIdOption(environment: string, nameSpace: string, options: UpdateOptions, otherGroupId: int,
                                   convertDaysToSeconds: int -> int,
                                   getNameSpace: (string, string) -> Reply<NamespaceRecord>)
    ensures UpdateNameSpace(environment, nameSpace, options.(groupId := otherGroupId), convertDaysToSeconds, getNameSpace)
         == UpdateNameSpace(environment, nameSpace, options, convertDaysToSeconds, getNameSpace)
  {
  }

  // ---------------------------------------------------------------------------
  // list-ns

  /** One row of the namespace table. */
  datatype NamespaceRow =
    | Brief(namespaceId: string)
    | Detailed(namespaceId: string, retentionPeriod: string, geoLocation: Option<string>, accessGroupId: int)

  /** A namespace without a group id is listed with access group 0. */
  function AccessGroupId(groupId: Option<int>): (id: int)
    ensures groupId.None? ==> id == 0
    ensures groupId.Some? ==> id == groupId.value
  {
    match groupId
    case None => 0
    case Some(g) => g
  }

  /** The rows listNameSpaces pushes, one per namespace, in the order given. */
  method NamespaceRows(namespaces: seq<NamespaceRecord>, details: bool, convertRetentionPeriod: int -> string)
    returns (rows: seq<NamespaceRow>)
    ensures |rows| == |namespaces|
    ensures forall i :: 0 <= i < |rows| ==> rows[i].namespaceId == namespaces[i].namespace
    ensures forall i :: 0 <= i < |rows| ==> (rows[i].Detailed? <==> details)
    ensures forall i :: 0 <= i < |rows| && details ==>
      && rows[i].accessGroupId == AccessGroupId(namespaces[i].groupId)
      && rows[i].retentionPeriod == convertRetentionPeriod(namespaces[i].retentionInSeconds)
      && rows[i].geoLocation == namespaces[i].geoLocation
  {
    rows := [];
    for i := 0 to |namespaces|
      invariant |rows| == i
      invariant forall k :: 0 <= k < i ==> rows[k].namespaceId == namespaces[k].namespace
      invariant forall k :: 0 <= k < i ==> (rows[k].Detailed? <==> details)
      invariant forall k :: 0 <= k < i && details ==>
        && rows[k].accessGroupId == AccessGroupId(namespaces[k].groupId)
        && rows[k].retentionPeriod == convertRetentionPeriod(namespaces[k].retentionInSeconds)
        && rows[k].geoLocation == namespaces[k].geoLocation
    {
      var value := namespaces[i];
      if details {
        var retentionPeriod := convertRetentionPeriod(value.retentionInSeconds);
        rows := rows + [Detailed(value.namespace, retentionPeriod, value.geoLocation, AccessGroupId(value.groupId))];
      } else {
        rows := rows + [Brief(value.namespace)];
      }
    }
  }
}
