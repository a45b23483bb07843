/** The display metadata of an approval request
    (`fetchApprovalRequestMetadata`): a `meta` object is built from the first
    request parameter, then, if the registry of verified actions lists the
    request's `action_id`, the registry entry is copied onto `meta` in place
    and `meta.validated` is set. Every failure of the registry lookup is
    caught and leaves `meta` as first built. */
module ApprovalMetadata {
  import opened JsValues

  /** The first element of the request's `params`: its string fields. A
      field that is not a key is `undefined`. */
  type Params = map<string, string>

  /** The outcome of fetching the registry document. `body` is `None` when
      the response body is not valid JSON. */
  datatype RegistryFetch =
    | FetchRejected
    | Fetched(ok: bool, body: Option<JsValue>)

  const ValidatedKey := "validated"

  /** A field of the parameter record as a JavaScript value. */
  function Field(p: Params, key: string): JsValue
  {
    if key in p then Str(p[key]) else Undefined
  }

  /** The property key that `action_id in content` looks up: ToPropertyKey
      turns an absent `action_id` (undefined) into "undefined". */
  function ActionKey(p: Params): string
  {
    if "action_id" in p then p["action_id"] else "undefined"
  }

  /** `meta` as first built: `action_id`, `project_name := app_name` and
      `description := signal_description`. */
  function InitialMeta(p: Params): map<string, JsValue>
  {
    map["action_id" := Field(p, "action_id"),
        "project_name" := Field(p, "app_name"),
        "description" := Field(p, "signal_description")]
  }

  /** The properties every object inherits from `Object.prototype`
      (section 20.1.3 of ECMA-262, with the accessors and methods of its
      Annex B.2.2): `key in content` finds these on any object. */
  const ObjectPrototypeKeys: set<string> := {
    "constructor", "hasOwnProperty", "isPrototypeOf", "propertyIsEnumerable",
    "toLocaleString", "toString", "valueOf", "__proto__",
    "__defineGetter__", "__defineSetter__", "__lookupGetter__", "__lookupSetter__"}

  /** What `action_id in content` and `content[action_id]` find in the
      registry: nothing (the lookup failed, or the key is absent), an own
      entry, or a property inherited from `Object.prototype` (a function,
      or the prototype itself for "__proto__"), none of whose own
      properties are enumerable. */
  datatype RegistryLookup = NotListed | OwnEntry(entry: JsValue) | InheritedEntry

  /** The registry lookup. It is `NotListed` when the fetch is rejected, the
      status is not ok, the body is not JSON or not an object (`in` on a
      primitive throws), or the action is not a key of it, own or inherited. */
  function RegistryEntry(p: Params, fetch: RegistryFetch): RegistryLookup
  {
    match fetch
    case FetchRejected => NotListed
    case Fetched(ok, body) =>
      if !ok || body.None? || !body.value.Obj? then NotListed
      else if ActionKey(p) in body.value.fields then OwnEntry(body.value.fields[ActionKey(p)])
      else if ActionKey(p) in ObjectPrototypeKeys then InheritedEntry
      else NotListed
  }

  /** The own properties `Object.assign(meta, v)` creates on `meta`. It
      writes with [[Set]], so a "__proto__" key calls the prototype setter
      of `meta` and creates no own property; every other own property of
      `v` is copied. */
  function AssignedProperties(v: JsValue): (props: map<string, JsValue>)
    ensures "__proto__" !in props
    ensures forall k :: k in OwnProperties(v) && k != "__proto__" ==> k in props && props[k] == OwnProperties(v)[k]
    ensures props.Keys <= OwnProperties(v).Keys
  {
    map k | k in OwnProperties(v) && k != "__proto__" :: OwnProperties(v)[k]
  }

  /** The object `fetchApprovalRequestMetadata` resolves to for a
      non-empty `params`. */
  function ExpectedMeta(p: Params, fetch: RegistryFetch): map<string, JsValue>
  {
    match RegistryEntry(p, fetch)
    case NotListed => InitialMeta(p)
    case OwnEntry(entry) => (InitialMeta(p) + AssignedProperties(entry))[ValidatedKey := Bool(true)]
    case InheritedEntry => InitialMeta(p)[ValidatedKey := Bool(true)]
  }

  /** The `meta` object, whose properties are written in place. */
  class MetaObject {
    var fields: map<string, JsValue>

    constructor (p: Params)
      ensures fields == InitialMeta(p)
    {
      fields := InitialMeta(p);
    }

    /** `Object.assign(meta, source)`: the source's own properties win,
        except "__proto__", which creates no own property. */
    method Assign(source: JsValue)
      modifies this
      ensures fields == old(fields) + AssignedProperties(source)
    {
      fields := fields + AssignedProperties(source);
    }

    /** `meta.validated = true`. */
    method SetValidated()
      modifies this
      ensures fields == old(fields)[ValidatedKey := Bool(true)]
    {
      fields := fields[ValidatedKey := Bool(true)];
    }
  }

  /** `fetchApprovalRequestMetadata`: `None` is the TypeError thrown when
      `params` has no first element to destructure (before the `try`). */
  method FetchApprovalRequestMetadata(params: seq<Params>, fetch: RegistryFetch) returns (meta: Option<MetaObject>)
    ensures meta.None? <==> params == []
    ensures meta.Some? ==> fresh(meta.value) && meta.value.fields == ExpectedMeta(params[0], fetch)
  {
    if params == [] {
      return None;
    }
    var p := params[0];
    var m := new MetaObject(p);
    match fetch {
      case FetchRejected =>
      case Fetched(ok, body) =>
        if ok && body.Some? && body.value.Obj? {
          var key := ActionKey(p);
          if key in body.value.fields {
            m.Assign(body.value.fields[key]);
            m.SetValidated();
          } else if key in ObjectPrototypeKeys {
            // the inherited value has no enumerable own property to copy
            m.SetValidated();
          }
        }
    }
    meta := Some(m);
  }

  // ---------------------------------------------------------------------
  // Properties

  /** The initial object carries exactly the three renamed parameters. */
  lemma InitialMetaFields(p: Params)
    ensures InitialMeta(p).Keys == {"action_id", "project_name", "description"}
    ensures InitialMeta(p)["project_name"] == Field(p, "app_name")
    ensures InitialMeta(p)["description"] == Field(p, "signal_description")
    ensures ValidatedKey !in InitialMeta(p)
  {
  }

  /** A failed or non-ok fetch, or a body that is not an object, leaves the
      initial object unchanged and without `validated`. */
  lemma FailedFetchKeepsInitial(p: Params, fetch: RegistryFetch)
    requires fetch.FetchRejected? || !fetch.ok || fetch.body.None? || !fetch.body.value.Obj?
    ensures ExpectedMeta(p, fetch) == InitialMeta(p)
    ensures ValidatedKey !in ExpectedMeta(p, fetch)
  {
  }

  /** An action that is neither a key of the registry nor a property of
      `Object.prototype` leaves the initial object unchanged. */
  lemma UnknownActionKeepsInitial(p: Params, content: map<string, JsValue>)
    requires ActionKey(p) !in content && ActionKey(p) !in ObjectPrototypeKeys
    ensures ExpectedMeta(p, Fetched(true, Some(Obj(content)))) == InitialMeta(p)
  {
  }

  /** An action named like a property of `Object.prototype` ("constructor",
      "toString", ...) is found by `in` even when the registry does not
      list it: nothing is copied, and `validated` is set. */
  lemma InheritedActionValidates(p: Params, content: map<string, JsValue>)
    requires ActionKey(p) !in content && ActionKey(p) in ObjectPrototypeKeys
    ensures ExpectedMeta(p, Fetched(true, Some(Obj(content)))) == InitialMeta(p)[ValidatedKey := Bool(true)]
  {
  }

  /** `validated` is present exactly when the registry body is an object
      and the action is one of its keys, own or inherited; it is then
      `true`, whatever the entry said. */
  lemma ValidatedIffFound(p: Params, fetch: RegistryFetch)
    ensures ValidatedKey in ExpectedMeta(p, fetch) <==>
      && fetch.Fetched? && fetch.ok && fetch.body.Some? && fetch.body.value.Obj?
      && (ActionKey(p) in fetch.body.value.fields || ActionKey(p) in ObjectPrototypeKeys)
    ensures ValidatedKey in ExpectedMeta(p, fetch) ==> ExpectedMeta(p, fetch)[ValidatedKey] == Bool(true)
  {
  }

  /** A found object entry is laid over the initial object: the entry's
      values win, the initial values survive where the entry is silent, an
      entry's "__proto__" creates no property, and no other key appears. */
  lemma FoundEntryOverlays(p: Params, content: map<string, JsValue>, entry: map<string, JsValue>)
    requires ActionKey(p) in content && content[ActionKey(p)] == Obj(entry)
    ensures var m := ExpectedMeta(p, Fetched(true, Some(Obj(content))));
      && m.Keys == InitialMeta(p).Keys + (entry.Keys - {"__proto__"}) + {ValidatedKey}
      && (forall k :: k in entry && k != ValidatedKey && k != "__proto__" ==> m[k] == entry[k])
      && (forall k :: k in InitialMeta(p) && k !in entry ==> m[k] == InitialMeta(p)[k])
      && "__proto__" !in m
  {
  }
}
