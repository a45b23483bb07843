/** The app metadata shown for an action (`precheckAction` and
    `fetchMetadata`): defaults built from the request are overlaid with the
    Developer Portal's precheck response, when there is one. Every failure of
    the precheck becomes `null`. */
module Metadata {
  import opened JsValues

  datatype MetadataRequest = MetadataRequest(
    appId: string,
    action: string,
    nullifierHash: string,
    externalNullifier: string,
    actionDescription: string)

  /** The outcome of the precheck POST. `body` is `None` when the body is
      not valid JSON. */
  datatype PrecheckFetch =
    | PrecheckRejected
    | PrecheckResponse(ok: bool, status: int, body: Option<JsValue>)

  const NotFoundStatus := 404

  /** The JSON body posted to the precheck endpoint. */
  function PrecheckBody(r: MetadataRequest): (body: map<string, JsValue>)
    ensures body.Keys == {"action", "nullifier_hash", "external_nullifier"}
    ensures body["external_nullifier"] == Str(r.externalNullifier)
  {
    map["action" := Str(r.action),
        "nullifier_hash" := Str(r.nullifierHash),
        "external_nullifier" := Str(r.externalNullifier)]
  }

  /** `precheckAction`: `None` is the `null` it resolves to. A 404 is
      reported as an unregistered action, any other non-ok status throws and
      is caught, and so is a rejected fetch or a body that is not JSON. */
  function PrecheckAction(fetch: PrecheckFetch): (r: Option<JsValue>)
    ensures r.Some? ==> fetch.PrecheckResponse? && fetch.ok && fetch.body == r
    ensures fetch.PrecheckResponse? && fetch.ok && fetch.body.Some? ==> r.Some?
  {
    match fetch
    case PrecheckRejected => None
    case PrecheckResponse(ok, status, body) =>
      if !ok && status == NotFoundStatus then None
      else if !ok then None
      else body
  }

  /** `{ id: app_id, action: { description: action_description } }`. */
  function DefaultMetadata(r: MetadataRequest): map<string, JsValue>
  {
    map["id" := Str(r.appId), "action" := Obj(map["description" := Str(r.actionDescription)])]
  }

  /** `fetchMetadata`: a truthy precheck response is spread over the
      defaults. */
  function FetchMetadata(r: MetadataRequest, fetch: PrecheckFetch): map<string, JsValue>
  {
    var response := PrecheckAction(fetch);
    if response.Some? && Truthy(response.value) then DefaultMetadata(r) + OwnProperties(response.value)
    else DefaultMetadata(r)
  }

  // ---------------------------------------------------------------------
  // Properties

  /** A 404, any other non-ok status and a rejected fetch all give `null`. */
  lemma NotOkGivesNull(fetch: PrecheckFetch)
    requires fetch.PrecheckRejected? || !fetch.ok
    ensures PrecheckAction(fetch).None?
  {
  }

  /** Without a precheck response the result is exactly the defaults. */
  lemma NullPrecheckGivesDefaults(r: MetadataRequest, fetch: PrecheckFetch)
    requires PrecheckAction(fetch).None?
    ensures FetchMetadata(r, fetch) == DefaultMetadata(r)
    ensures FetchMetadata(r, fetch).Keys == {"id", "action"}
  {
  }

  /** An object response is laid over the defaults: its keys win
      (replacing `action` as a whole, not merging into it), the defaults
      survive where it is silent, and no other key appears. */
  lemma ResponseOverlaysDefaults(r: MetadataRequest, fetch: PrecheckFetch, response: map<string, JsValue>)
    requires PrecheckAction(fetch) == Some(Obj(response))
    ensures var m := FetchMetadata(r, fetch);
      && m.Keys == {"id", "action"} + response.Keys
      && (forall k :: k in response ==> m[k] == response[k])
      && ("id" !in response ==> m["id"] == Str(r.appId))
      && ("action" !in response ==> m["action"] == Obj(map["description" := Str(r.actionDescription)]))
  {
  }
}
