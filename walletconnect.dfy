/** The verifier-request engine of `connectWallet`
    (src/lib/init-walletconnect.ts), as a state machine driven by the
    relay's events and by the outcomes of the calls it awaits.

    One call of `connectWallet` pairs with the verifier, approves proposals,
    takes the FIRST proposal and then the FIRST request, checks the request
    method, validates the external nullifier and then the signal with
    `BigInt`, builds the proof and returns. Each rejection sends one
    JSON-RPC error (section 5.1 of the JSON-RPC 2.0 specification: -32601
    method not found, -32602 invalid params), disconnects the pairing topic
    when there is one, and throws. Two `beforeunload` listeners send a
    disconnect (while waiting for the verifier) or a user rejection (-32100,
    after the method check, until the session is deleted).

    `Step` is the specification; `WalletConnectSession.Connection` performs
    the same effects one statement at a time and is proved equal to it. The
    relay calls (`pair`, `approve`, `reject`, `respond`, `disconnect`) are
    entries appended to an action log. */
module WalletConnect {
  import opened JsValues
  import BigIntSyntax
  import ApprovalMetadata

  const ProtocolMethod := "world_id_v1"

  // JSON-RPC 2.0 error codes (section 5.1) and the vendor code for a user
  // rejection, with the messages sent beside them
  const MethodNotFoundCode := -32601
  const InvalidParamsCode := -32602
  const UserRejectedCode := -32100
  const MethodNotFoundMessage := "method_not_found"
  const InvalidAppIdMessage := "invalid_app_id"
  const InvalidSignalMessage := "invalid_signal"
  const VerificationRejectedMessage := "verification_rejected"

  const ExternalNullifierKey := "external_nullifier"
  const SignalKey := "signal"

  /** `session_proposal`: only the id and the pairing topic are used. */
  datatype Proposal = Proposal(id: int, pairingTopic: Option<string>)

  /** `session_request`: its id, its topic and the inner JSON-RPC request.
      `params` is the array of string records the validators index; an
      absent array behaves like an empty one. */
  datatype Request = Request(id: int, topic: string, rpcMethod: string, params: seq<map<string, string>>)

  /** The proof returned by `getFullProof`, opaque here. */
  datatype FullProof = FullProof(nullifierHash: string, proof: seq<string>)

  datatype ErrorReason = ErrorReason(code: int, message: string)

  /** The relay calls, in the order they are made. `Disconnect` always
      carries the reason USER_DISCONNECTED; `Approve` always declares the
      namespace `eip155` with account `eip155:1:0`, method `world_id_v1` and
      event `accountsChanged`. */
  datatype RelayAction =
    | Pair(uri: string)
    | Approve(proposalId: int)
    | Reject(requestId: int, reason: ErrorReason)
    | Respond(topic: string, requestId: int, error: ErrorReason)
    | Disconnect(topic: string)

  /** Why `connectWallet` threw. */
  datatype Failure =
    | PairingFailed
    | UnsupportedMethod(rpcMethod: string)
    | InvalidExternalNullifier
    | InvalidSignal
    | ProofFailed
  {
    /** The failures that were answered with a JSON-RPC error. */
    predicate Answered()
    {
      UnsupportedMethod? || InvalidExternalNullifier? || InvalidSignal?
    }
  }

  datatype Stage =
    | AwaitingProposal
    | AwaitingRequest
    | Proving(externalNullifier: string, signal: string, first: map<string, string>)
    | Connected(meta: map<string, JsValue>, fullProof: FullProof)
    | Failed(failure: Failure)

  /** What happens to the engine: relay events, the page unloading, and the
      completion of the awaited proof and metadata lookup. */
  datatype Event =
    | ProposalArrived(proposal: Proposal)
    | RequestArrived(request: Request)
    | ProofFinished(proof: Option<FullProof>, registry: ApprovalMetadata.RegistryFetch)
    | SessionDeleted
    | Unload

  /** The state of one `connectWallet` call: where it is, the proposal and
      request it holds on to, which listeners are registered, and every
      relay call made so far. */
  datatype Engine = Engine(
    stage: Stage,
    proposal: Option<Proposal>,
    request: Option<Request>,
    disconnectOnUnload: bool,
    rejectOnUnload: bool,
    deleteHandler: bool,
    log: seq<RelayAction>)

  // ---------------------------------------------------------------------
  // Request validation

  /** `params[0][key]`, or `None` when `params[0]` or the field is missing
      (reading it throws a TypeError, or `BigInt(undefined)` does). */
  function ParamField(params: seq<map<string, string>>, key: string): Option<string>
  {
    if params == [] || key !in params[0] then None else Some(params[0][key])
  }

  /** `validateExternalNullifier` / `validateSignal` without their error
      path: the field itself when `BigInt` accepts it. */
  function ValidateParam(params: seq<map<string, string>>, key: string): Option<string>
  {
    match ParamField(params, key)
    case None => None
    case Some(v) => if BigIntSyntax.StringToBigInt(v).Some? then Some(v) else None
  }

  /** The disconnect made on a failure path and on unload, guarded by the
      truthiness of the pairing topic. */
  function DisconnectIfTopic(topic: Option<string>): seq<RelayAction>
  {
    if TruthyString(topic) then [Disconnect(topic.value)] else []
  }

  // ---------------------------------------------------------------------
  // The engine

  /** `Client.init`, the listeners registered before pairing, and
      `pair({ uri })`. A failed pairing throws before the unload listener is
      added. */
  function Start(uri: string, pairOk: bool): Engine
  {
    if pairOk then Engine(AwaitingProposal, None, None, true, false, false, [Pair(uri)])
    else Engine(Failed(PairingFailed), None, None, false, false, false, [Pair(uri)])
  }

  /** The part of `connectWallet` that runs once the first request has
      arrived, up to the awaited `getFullProof`. */
  function HandleRequest(e: Engine, r: Request): Engine
    requires e.stage.AwaitingRequest? && e.proposal.Some?
  {
    var topic := e.proposal.value.pairingTopic;
    var e1 := e.(request := Some(r), disconnectOnUnload := false);
    if r.rpcMethod != ProtocolMethod then
      e1.(stage := Failed(UnsupportedMethod(r.rpcMethod)),
          log := e.log + [Reject(r.id, ErrorReason(MethodNotFoundCode, MethodNotFoundMessage))] + DisconnectIfTopic(topic))
    else
      CheckParams(e1.(rejectOnUnload := true, deleteHandler := true), r, topic)
  }

  /** The validators, external nullifier first: the first failure answers
      with -32602, disconnects, and throws. */
  function CheckParams(e: Engine, r: Request, topic: Option<string>): Engine
  {
    match ValidateParam(r.params, ExternalNullifierKey)
    case None =>
      e.(stage := Failed(InvalidExternalNullifier),
         log := e.log + [Respond(r.topic, r.id, ErrorReason(InvalidParamsCode, InvalidAppIdMessage))] + DisconnectIfTopic(topic))
    case Some(externalNullifier) =>
      match ValidateParam(r.params, SignalKey)
      case None =>
        e.(stage := Failed(InvalidSignal),
           log := e.log + [Respond(r.topic, r.id, ErrorReason(InvalidParamsCode, InvalidSignalMessage))] + DisconnectIfTopic(topic))
      case Some(signal) =>
        e.(stage := Proving(externalNullifier, signal, r.params[0]))
  }

  /** The effect of one event. */
  function Step(e: Engine, ev: Event): Engine
  {
    match ev
    case ProposalArrived(p) =>
      // the first listener approves every proposal; the awaited promise
      // resolves with the first one only
      var approved := e.(log := e.log + [Approve(p.id)]);
      if e.stage.AwaitingProposal? then approved.(stage := AwaitingRequest, proposal := Some(p)) else approved
    case RequestArrived(r) =>
      // the resolving listener exists only while the request is awaited
      if e.stage.AwaitingRequest? && e.proposal.Some? then HandleRequest(e, r) else e
    case ProofFinished(proof, registry) =>
      if !e.stage.Proving? then e
      else if proof.None? then e.(stage := Failed(ProofFailed))
      else e.(stage := Connected(ApprovalMetadata.ExpectedMeta(e.stage.first, registry), proof.value))
    case SessionDeleted =>
      if e.deleteHandler then e.(rejectOnUnload := false) else e
    case Unload =>
      // before the proposal, the disconnect handler reads `sessionProposal`
      // before its initialisation and throws a ReferenceError
      var disconnect := if e.disconnectOnUnload && e.proposal.Some? then DisconnectIfTopic(e.proposal.value.pairingTopic) else [];
      var reject := if e.rejectOnUnload && e.request.Some?
        then [Reject(e.request.value.id, ErrorReason(UserRejectedCode, VerificationRejectedMessage))] else [];
      e.(log := e.log + disconnect + reject)
  }

  /** The engine after a sequence of events. */
  function Run(e: Engine, events: seq<Event>): Engine
    decreases |events|
  {
    if events == [] then e else Run(Step(e, events[0]), events[1..])
  }

  // ---------------------------------------------------------------------
  // The invariant of every reachable engine

  predicate IsErrorResponse(a: RelayAction)
  {
    a.Respond? || (a.Reject? && a.reason.code == MethodNotFoundCode)
  }

  /** The number of JSON-RPC error answers (respond, or reject with
      -32601) in a log. */
  function ErrorResponses(log: seq<RelayAction>): nat
    decreases |log|
  {
    if log == [] then 0
    else ErrorResponses(log[..|log| - 1]) + (if IsErrorResponse(log[|log| - 1]) then 1 else 0)
  }

  lemma {:induction false} ErrorResponsesAppend(s: seq<RelayAction>, t: seq<RelayAction>)
    ensures ErrorResponses(s + t) == ErrorResponses(s) + ErrorResponses(t)
    decreases |t|
  {
    if t == [] {
      assert s + t == s;
    } else {
      var u := t[..|t| - 1];
      assert (s + t)[..|s + t| - 1] == s + u;
      ErrorResponsesAppend(s, u);
    }
  }

  /** Every disconnect in the log is of the proposal's pairing topic, and
      that topic is truthy. */
  predicate DisconnectsTruthyTopic(e: Engine)
  {
    forall a :: a in e.log && a.Disconnect? ==>
      e.proposal.Some? && e.proposal.value.pairingTopic == Some(a.topic) && a.topic != ""
  }

  ghost predicate Inv(e: Engine)
  {
    // the unload-disconnect listener is registered from pairing until the
    // request arrives
    && (e.disconnectOnUnload <==> (e.stage.AwaitingProposal? || e.stage.AwaitingRequest?))
    && (e.proposal.None? <==> (e.stage.AwaitingProposal? || e.stage == Failed(PairingFailed)))
    && (e.request.None? <==> (e.stage.AwaitingProposal? || e.stage.AwaitingRequest? || e.stage == Failed(PairingFailed)))
    // the session_delete handler is added with the unload-reject listener,
    // right after the method check passes
    && (e.deleteHandler <==> (e.request.Some? && e.request.value.rpcMethod == ProtocolMethod))
    && (e.rejectOnUnload ==> e.deleteHandler)
    && (e.stage.Proving? ==> e.request.Some? && e.request.value.params != [] && e.request.value.params[0] == e.stage.first)
    && DisconnectsTruthyTopic(e)
    // exactly one error answer on an answered failure, none otherwise
    && ErrorResponses(e.log) == (if e.stage.Failed? && e.stage.failure.Answered() then 1 else 0)
  }

  lemma StartInv(uri: string, pairOk: bool)
    ensures Inv(Start(uri, pairOk))
  {
    assert [Pair(uri)][..0] == [];
  }

  lemma DisconnectIfTopicFacts(topic: Option<string>)
    ensures ErrorResponses(DisconnectIfTopic(topic)) == 0
    ensures forall a :: a in DisconnectIfTopic(topic) ==> a.Disconnect? && topic == Some(a.topic) && a.topic != ""
  {
    if TruthyString(topic) {
      assert DisconnectIfTopic(topic)[..0] == [];
    }
  }

  /** A failure path's log: the one answer, then the optional disconnect. */
  lemma AnsweredFailureLog(log: seq<RelayAction>, answer: RelayAction, topic: Option<string>)
    requires IsErrorResponse(answer)
    ensures ErrorResponses(log + [answer] + DisconnectIfTopic(topic)) == ErrorResponses(log) + 1
  {
    DisconnectIfTopicFacts(topic);
    assert [answer][..0] == [];
    ErrorResponsesAppend(log, [answer]);
    ErrorResponsesAppend(log + [answer], DisconnectIfTopic(topic));
  }

  lemma HandleRequestInv(e: Engine, r: Request)
    requires Inv(e) && e.stage.AwaitingRequest? && e.proposal.Some?
    ensures Inv(HandleRequest(e, r))
  {
    var topic := e.proposal.value.pairingTopic;
    DisconnectIfTopicFacts(topic);
    if r.rpcMethod != ProtocolMethod {
      AnsweredFailureLog(e.log, Reject(r.id, ErrorReason(MethodNotFoundCode, MethodNotFoundMessage)), topic);
    } else if ValidateParam(r.params, ExternalNullifierKey).None? {
      AnsweredFailureLog(e.log, Respond(r.topic, r.id, ErrorReason(InvalidParamsCode, InvalidAppIdMessage)), topic);
    } else if ValidateParam(r.params, SignalKey).None? {
      AnsweredFailureLog(e.log, Respond(r.topic, r.id, ErrorReason(InvalidParamsCode, InvalidSignalMessage)), topic);
    }
  }

  lemma UnloadInv(e: Engine)
    requires Inv(e)
    ensures Inv(Step(e, Unload))
  {
    var disconnect := if e.disconnectOnUnload && e.proposal.Some? then DisconnectIfTopic(e.proposal.value.pairingTopic) else [];
    var reject := if e.rejectOnUnload && e.request.Some?
      then [Reject(e.request.value.id, ErrorReason(UserRejectedCode, VerificationRejectedMessage))] else [];
    if e.proposal.Some? {
      DisconnectIfTopicFacts(e.proposal.value.pairingTopic);
    }
    ErrorResponsesAppend(e.log, disconnect);
    ErrorResponsesAppend(e.log + disconnect, reject);
    if reject != [] {
      assert reject[..0] == [];
    }
    assert ErrorResponses(reject) == 0;
  }

  /** Every event keeps the invariant. */
  lemma StepInv(e: Engine, ev: Event)
    requires Inv(e)
    ensures Inv(Step(e, ev))
  {
    match ev
    case ProposalArrived(p) =>
      ErrorResponsesAppend(e.log, [Approve(p.id)]);
      assert [Approve(p.id)][..0] == [];
    case RequestArrived(r) =>
      if e.stage.AwaitingRequest? && e.proposal.Some? {
        HandleRequestInv(e, r);
      }
    case ProofFinished(_, _) =>
    case SessionDeleted =>
    case Unload =>
      UnloadInv(e);
  }

  lemma {:induction false} RunInv(e: Engine, events: seq<Event>)
    requires Inv(e)
    ensures Inv(Run(e, events))
    decreases |events|
  {
    if events != [] {
      StepInv(e, events[0]);
      RunInv(Step(e, events[0]), events[1..]);
    }
  }

  // ---------------------------------------------------------------------
  // Properties of whole runs

  /** Whatever the relay and the page do, at most one JSON-RPC error answer
      is sent, and one is sent exactly when the call failed a check. */
  lemma AtMostOneErrorResponse(uri: string, pairOk: bool, events: seq<Event>)
    ensures var e := Run(Start(uri, pairOk), events);
      && ErrorResponses(e.log) <= 1
      && (ErrorResponses(e.log) == 1 <==> e.stage.Failed? && e.stage.failure.Answered())
  {
    StartInv(uri, pairOk);
    RunInv(Start(uri, pairOk), events);
  }

  /** `disconnect` is only ever called, on the failure paths and on unload
      alike, with the proposal's pairing topic, and only when it is truthy. */
  lemma DisconnectOnlyWithTruthyTopic(uri: string, pairOk: bool, events: seq<Event>)
    ensures var e := Run(Start(uri, pairOk), events);
      forall a :: a in e.log && a.Disconnect? ==>
        e.proposal.Some? && e.proposal.value.pairingTopic == Some(a.topic) && a.topic != ""
  {
    StartInv(uri, pairOk);
    RunInv(Start(uri, pairOk), events);
  }

  /** Once held, the proposal and the request are never replaced. */
  lemma StepKeepsFirst(e: Engine, ev: Event)
    requires Inv(e)
    ensures e.proposal.Some? ==> Step(e, ev).proposal == e.proposal
    ensures e.request.Some? ==> Step(e, ev).request == e.request
  {
  }

  lemma {:induction false} RunKeepsFirst(e: Engine, events: seq<Event>)
    requires Inv(e)
    ensures e.proposal.Some? ==> Run(e, events).proposal == e.proposal
    ensures e.request.Some? ==> Run(e, events).request == e.request
    decreases |events|
  {
    if events != [] {
      StepKeepsFirst(e, events[0]);
      StepInv(e, events[0]);
      RunKeepsFirst(Step(e, events[0]), events[1..]);
    }
  }

  /** The first proposal is the one held after any further events. */
  lemma FirstProposalDrives(uri: string, p: Proposal, events: seq<Event>)
    ensures Run(Start(uri, true), [ProposalArrived(p)] + events).proposal == Some(p)
  {
    var e1 := Step(Start(uri, true), ProposalArrived(p));
    StartInv(uri, true);
    StepInv(Start(uri, true), ProposalArrived(p));
    assert ([ProposalArrived(p)] + events)[1..] == events;
    RunKeepsFirst(e1, events);
  }

  /** A proposal that is not the first is approved but changes nothing else. */
  lemma LaterProposalOnlyApproved(e: Engine, p: Proposal)
    requires !e.stage.AwaitingProposal?
    ensures Step(e, ProposalArrived(p)) == e.(log := e.log + [Approve(p.id)])
  {
  }

  // ---------------------------------------------------------------------
  // The paths through one request

  /** A method other than `world_id_v1` is rejected with -32601
      "method_not_found", then the pairing is disconnected when it has a
      topic, and the call throws; neither validator runs and the
      unload-reject listener is never added. */
  lemma UnsupportedMethodPath(e: Engine, p: Proposal, r: Request)
    requires Inv(e) && e.stage.AwaitingRequest? && e.proposal == Some(p)
    requires r.rpcMethod != ProtocolMethod
    ensures var e' := Step(e, RequestArrived(r));
      && e'.log == e.log + [Reject(r.id, ErrorReason(-32601, "method_not_found"))]
                         + (if TruthyString(p.pairingTopic) then [Disconnect(p.pairingTopic.value)] else [])
      && e'.stage == Failed(UnsupportedMethod(r.rpcMethod))
      && !e'.disconnectOnUnload && !e'.rejectOnUnload && !e'.deleteHandler
      && (forall a :: a in e'.log[|e.log|..] ==> !a.Respond?)
  {
  }

  /** A bad external nullifier is answered with -32602 "invalid_app_id",
      then the disconnect, then the rethrow; the unload-reject listener is
      already registered and stays. */
  lemma InvalidExternalNullifierPath(e: Engine, p: Proposal, r: Request)
    requires e.stage.AwaitingRequest? && e.proposal == Some(p)
    requires r.rpcMethod == ProtocolMethod
    requires ValidateParam(r.params, ExternalNullifierKey).None?
    ensures var e' := Step(e, RequestArrived(r));
      && e'.log == e.log + [Respond(r.topic, r.id, ErrorReason(-32602, "invalid_app_id"))]
                         + (if TruthyString(p.pairingTopic) then [Disconnect(p.pairingTopic.value)] else [])
      && e'.stage == Failed(InvalidExternalNullifier)
      && !e'.disconnectOnUnload && e'.rejectOnUnload
  {
  }

  /** A bad signal after a good external nullifier is answered with -32602
      "invalid_signal", then the disconnect, then the rethrow. */
  lemma InvalidSignalPath(e: Engine, p: Proposal, r: Request)
    requires e.stage.AwaitingRequest? && e.proposal == Some(p)
    requires r.rpcMethod == ProtocolMethod
    requires ValidateParam(r.params, ExternalNullifierKey).Some?
    requires ValidateParam(r.params, SignalKey).None?
    ensures var e' := Step(e, RequestArrived(r));
      && e'.log == e.log + [Respond(r.topic, r.id, ErrorReason(-32602, "invalid_signal"))]
                         + (if TruthyString(p.pairingTopic) then [Disconnect(p.pairingTopic.value)] else [])
      && e'.stage == Failed(InvalidSignal)
  {
  }

  /** The external nullifier is checked first: when it fails, the outcome
      does not depend on the signal (or any other parameter). */
  lemma SignalIgnoredAfterBadExternalNullifier(e: Engine, r: Request, r': Request)
    requires e.stage.AwaitingRequest? && e.proposal.Some?
    requires r.id == r'.id && r.topic == r'.topic && r.rpcMethod == r'.rpcMethod
    requires ValidateParam(r.params, ExternalNullifierKey).None?
    requires ValidateParam(r'.params, ExternalNullifierKey).None?
    ensures Step(e, RequestArrived(r)).(request := None) == Step(e, RequestArrived(r')).(request := None)
  {
  }

  /** A field `BigInt` accepts passes its validator unchanged. */
  lemma ValidateParamAccepts(params: seq<map<string, string>>, key: string)
    requires params != [] && key in params[0]
    requires BigIntSyntax.IsStringIntegerLiteral(params[0][key])
    ensures ValidateParam(params, key) == Some(params[0][key])
  {
    BigIntSyntax.StringToBigIntAcceptsGrammar(params[0][key]);
  }

  /** A request that passes both validators makes no relay call before the
      proof is built, and proving works on the two strings as sent. */
  lemma ValidRequestProceeds(e: Engine, r: Request)
    requires e.stage.AwaitingRequest? && e.proposal.Some?
    requires r.rpcMethod == ProtocolMethod
    requires ValidateParam(r.params, ExternalNullifierKey).Some?
    requires ValidateParam(r.params, SignalKey).Some?
    ensures var e' := Step(e, RequestArrived(r));
      && e'.log == e.log
      && e'.stage == Proving(r.params[0][ExternalNullifierKey], r.params[0][SignalKey], r.params[0])
      && e'.rejectOnUnload && !e'.disconnectOnUnload
  {
  }

  /** A proof that cannot be built makes the call throw with no answer and
      no disconnect. */
  lemma ProofFailureIsSilent(e: Engine, registry: ApprovalMetadata.RegistryFetch)
    requires e.stage.Proving?
    ensures Step(e, ProofFinished(None, registry)).log == e.log
    ensures Step(e, ProofFinished(None, registry)).stage == Failed(ProofFailed)
  {
  }

  /** The validators: a field is accepted exactly when `params[0]` has it and
      `BigInt` accepts it (a StringIntegerLiteral), and it is returned
      unchanged. */
  lemma ValidateParamSpec(params: seq<map<string, string>>, key: string, v: string)
    ensures ValidateParam(params, key) == Some(v) <==>
      params != [] && key in params[0] && params[0][key] == v && BigIntSyntax.IsStringIntegerLiteral(v)
    ensures ValidateParam(params, key).Some? ==> ValidateParam(params, key) == ParamField(params, key)
  {
    BigIntSyntax.StringToBigIntAcceptsGrammar(v);
  }

  /** There is no range or sign check: every integer written in decimal is
      accepted, negative and arbitrarily large ones included. */
  lemma NoRangeCheck(key: string, n: int)
    ensures ValidateParam([map[key := BigIntSyntax.IntToDecimal(n)]], key) == Some(BigIntSyntax.IntToDecimal(n))
  {
    BigIntSyntax.DecimalRoundTrip(n);
  }

  // ---------------------------------------------------------------------
  // Unload and session deletion

  /** While waiting for the request, unload disconnects a truthy pairing
      topic; while waiting for the proposal it sends nothing (the handler
      throws). */
  lemma UnloadWhileWaiting(e: Engine)
    requires Inv(e) && (e.stage.AwaitingProposal? || e.stage.AwaitingRequest?)
    ensures e.stage.AwaitingProposal? ==> Step(e, Unload).log == e.log
    ensures e.stage.AwaitingRequest? ==>
      Step(e, Unload).log == e.log + DisconnectIfTopic(e.proposal.value.pairingTopic)
  {
  }

  /** After the method check, unload rejects the request with -32100 until
      the session is deleted; it never disconnects. */
  lemma UnloadAfterMethodCheck(e: Engine)
    requires Inv(e) && e.rejectOnUnload
    ensures Step(e, Unload).log == e.log + [Reject(e.request.value.id, ErrorReason(-32100, "verification_rejected"))]
    ensures !Step(e, SessionDeleted).rejectOnUnload
  {
  }

  /** The unload-reject listener is removed by session deletion and by
      nothing else, and is only ever added by a request with the protocol
      method. */
  lemma RejectListenerWindow(e: Engine, ev: Event)
    requires Inv(e)
    ensures e.rejectOnUnload && ev != SessionDeleted ==> Step(e, ev).rejectOnUnload
    ensures !e.rejectOnUnload && Step(e, ev).rejectOnUnload ==>
      e.stage.AwaitingRequest? && ev.RequestArrived? && ev.request.rpcMethod == ProtocolMethod
  {
  }
}
