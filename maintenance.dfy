/** The maintenance banner (`Maintenance`): hidden at first, shown once the
    status page reports that the staging network is not "ok", does not list
    it, or cannot be read. Nothing ever hides it again. */
module Maintenance {
  import opened JsValues

  datatype Service = Service(name: string, status: string)

  /** The outcome of fetching and parsing the status document; a rejected
      fetch, a body that is not JSON and a body without a `services` array
      all throw inside the `try`. */
  datatype StatusFetch =
    | StatusUnavailable
    | StatusFetched(services: seq<Service>)

  const StagingServiceName := "SDK Staging Network"
  const OkStatus := "ok"

  /** The index `Array.prototype.find` stops at: the first service with that
      exact name, or the length when there is none. */
  function FirstIndex(services: seq<Service>, name: string): (i: nat)
    ensures i <= |services|
    ensures forall j :: 0 <= j < i ==> services[j].name != name
    ensures i < |services| ==> services[i].name == name
    decreases |services|
  {
    if services == [] then 0
    else if services[0].name == name then 0
    else 1 + FirstIndex(services[1..], name)
  }

  /** `services.find(service => service.name === name)`. */
  function FindService(services: seq<Service>, name: string): Option<Service>
  {
    var i := FirstIndex(services, name);
    if i < |services| then Some(services[i]) else None
  }

  /** Whether one status check shows the banner:
      `sdkStagingNetwork?.status !== "ok"`, or the `catch`. */
  predicate ShowsBanner(fetch: StatusFetch)
  {
    match fetch
    case StatusUnavailable => true
    case StatusFetched(services) =>
      match FindService(services, StagingServiceName)
      case None => true
      case Some(service) => service.status != OkStatus
  }

  class Banner {
    var visible: bool

    constructor ()
      ensures !visible
    {
      visible := false;
    }

    /** `checkStatus`: sets `visible` to true or leaves it as it was. */
    method CheckStatus(fetch: StatusFetch)
      modifies this
      ensures visible == (old(visible) || ShowsBanner(fetch))
      ensures old(visible) ==> visible
    {
      match fetch {
        case StatusUnavailable =>
          visible := true;
        case StatusFetched(services) =>
          var found := FindService(services, StagingServiceName);
          if found.None? || found.value.status != OkStatus {
            visible := true;
          }
      }
    }
  }

  // ---------------------------------------------------------------------
  // Properties

  /** A status document shows the banner unless its FIRST service named
      "SDK Staging Network" has status "ok". */
  lemma ShownUnlessFirstStagingOk(services: seq<Service>)
    ensures ShowsBanner(StatusFetched(services)) <==>
      !(exists i :: 0 <= i < |services| && services[i].name == StagingServiceName && services[i].status == OkStatus
          && forall j :: 0 <= j < i ==> services[j].name != StagingServiceName)
  {
    var i := FirstIndex(services, StagingServiceName);
    if i < |services| && services[i].status == OkStatus {
      assert services[i].name == StagingServiceName;
    }
    if exists k :: 0 <= k < |services| && services[k].name == StagingServiceName && services[k].status == OkStatus
          && forall j :: 0 <= j < k ==> services[j].name != StagingServiceName {
      var k :| 0 <= k < |services| && services[k].name == StagingServiceName && services[k].status == OkStatus
          && forall j :: 0 <= j < k ==> services[j].name != StagingServiceName;
      assert i == k;
    }
  }

  /** A status page without the staging network shows the banner. */
  lemma MissingStagingShows(services: seq<Service>)
    requires forall i :: 0 <= i < |services| ==> services[i].name != StagingServiceName
    ensures ShowsBanner(StatusFetched(services))
  {
  }

  /** Only the first matching entry is consulted: a later "ok" entry does
      not hide the banner. */
  lemma LaterOkEntryIgnored(down: Service, rest: seq<Service>)
    requires down.name == StagingServiceName && down.status != OkStatus
    ensures ShowsBanner(StatusFetched([down] + rest))
  {
  }
}
