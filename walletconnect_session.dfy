/** One call of `connectWallet` (src/lib/init-walletconnect.ts) as an object
    whose fields the awaited steps and the listeners update in place. Each
    method does what the source does when the corresponding event arrives,
    statement by statement, and is proved to produce exactly the state that
    `WalletConnect.Step` specifies, so every property proved about `Step`
    and `Run` holds of the object. */
module WalletConnectSession {
  import opened JsValues
  import opened WalletConnect
  import BigIntSyntax
  import ApprovalMetadata

  class Connection {
    var stage: Stage
    var proposal: Option<Proposal>
    var request: Option<Request>
    /** `disconnectSessionOnUnload` is registered on `beforeunload`. */
    var disconnectOnUnload: bool
    /** `rejectRequest` is registered on `beforeunload`. */
    var rejectOnUnload: bool
    /** The `session_delete` listener that removes `rejectRequest` exists. */
    var deleteHandler: bool
    /** Every relay call made so far, in order. */
    var log: seq<RelayAction>

    function Snapshot(): Engine
      reads this
    {
      Engine(stage, proposal, request, disconnectOnUnload, rejectOnUnload, deleteHandler, log)
    }

    ghost predicate Valid()
      reads this
    {
      Inv(Snapshot())
    }

    /** `Client.init`, the listener registrations, `pair({ uri })` and, when
        pairing succeeds, the unload-disconnect listener. */
    constructor (uri: string, pairOk: bool)
      ensures Snapshot() == Start(uri, pairOk)
      ensures Valid()
    {
      stage := AwaitingProposal;
      proposal := None;
      request := None;
      rejectOnUnload := false;
      deleteHandler := false;
      log := [Pair(uri)];
      if pairOk {
        disconnectOnUnload := true;
      } else {
        disconnectOnUnload := false;
        stage := Failed(PairingFailed);
      }
      StartInv(uri, pairOk);
    }

    /** The guarded `client.disconnect` of a failure path. */
    method DisconnectPairing()
      requires proposal.Some?
      modifies this
      ensures Snapshot() == old(Snapshot()).(log := log)
      ensures log == old(log) + DisconnectIfTopic(proposal.value.pairingTopic)
    {
      if proposal.value.pairingTopic.Some? && proposal.value.pairingTopic.value != "" {
        log := log + [Disconnect(proposal.value.pairingTopic.value)];
      }
    }

    /** `validateExternalNullifier` / `validateSignal`: the field when `BigInt`
        accepts it; otherwise `respond` with -32602 and `message`, the
        guarded disconnect, and `None` for the rethrow. */
    method ValidateField(key: string, message: string) returns (v: Option<string>)
      requires request.Some? && proposal.Some?
      modifies this
      ensures Snapshot() == old(Snapshot()).(log := log)
      ensures v == ValidateParam(request.value.params, key)
      ensures log == old(log) + (if v.Some? then [] else
        [Respond(request.value.topic, request.value.id, ErrorReason(InvalidParamsCode, message))]
        + DisconnectIfTopic(proposal.value.pairingTopic))
    {
      var r := request.value;
      if r.params != [] && key in r.params[0] && BigIntSyntax.StringToBigInt(r.params[0][key]).Some? {
        return Some(r.params[0][key]);
      }
      log := log + [Respond(r.topic, r.id, ErrorReason(InvalidParamsCode, message))];
      DisconnectPairing();
      v := None;
    }

    /** The three `session_proposal` listeners: the approving one, the
        logging one and, while the proposal is awaited, the resolving one. */
    method OnProposal(p: Proposal)
      modifies this
      ensures Snapshot() == Step(old(Snapshot()), ProposalArrived(p))
    {
      log := log + [Approve(p.id)];
      if stage.AwaitingProposal? {
        proposal := Some(p);
        stage := AwaitingRequest;
      }
    }

    /** The awaited request resolves: the unload-disconnect listener is
        removed, the method is checked, the unload-reject and
        `session_delete` listeners are added, and the external nullifier and
        then the signal are validated. */
    method OnRequest(r: Request)
      modifies this
      ensures Snapshot() == Step(old(Snapshot()), RequestArrived(r))
    {
      if !stage.AwaitingRequest? || proposal.None? {
        return;
      }
      request := Some(r);
      disconnectOnUnload := false;
      if r.rpcMethod != ProtocolMethod {
        log := log + [Reject(r.id, ErrorReason(MethodNotFoundCode, MethodNotFoundMessage))];
        DisconnectPairing();
        stage := Failed(UnsupportedMethod(r.rpcMethod));
        return;
      }
      rejectOnUnload := true;
      deleteHandler := true;
      RunValidators(r);
    }

    /** `await validateExternalNullifier()`, then `await validateSignal()`. */
    method RunValidators(r: Request)
      requires request == Some(r) && proposal.Some?
      modifies this
      ensures Snapshot() == CheckParams(old(Snapshot()), r, old(proposal).value.pairingTopic)
    {
      var externalNullifier := ValidateField(ExternalNullifierKey, InvalidAppIdMessage);
      if externalNullifier.None? {
        stage := Failed(InvalidExternalNullifier);
        return;
      }
      ValidateSignal(r, externalNullifier.value);
    }

    /** `await validateSignal()` once the external nullifier is accepted. */
    method ValidateSignal(r: Request, externalNullifier: string)
      requires request == Some(r) && proposal.Some?
      requires ValidateParam(r.params, ExternalNullifierKey) == Some(externalNullifier)
      modifies this
      ensures Snapshot() == CheckParams(old(Snapshot()), r, old(proposal).value.pairingTopic)
    {
      var signal := ValidateField(SignalKey, InvalidSignalMessage);
      if signal.None? {
        stage := Failed(InvalidSignal);
        return;
      }
      stage := Proving(externalNullifier, signal.value, r.params[0]);
    }

    /** `getFullProof` has settled and, when it produced a proof, the
        approval metadata of the request is fetched. */
    method OnProofFinished(proof: Option<FullProof>, registry: ApprovalMetadata.RegistryFetch)
      requires Valid()
      modifies this
      ensures Snapshot() == Step(old(Snapshot()), ProofFinished(proof, registry))
    {
      if !stage.Proving? {
        return;
      }
      if proof.None? {
        stage := Failed(ProofFailed);
        return;
      }
      var meta := ApprovalMetadata.FetchApprovalRequestMetadata(request.value.params, registry);
      stage := Connected(meta.value.fields, proof.value);
    }

    /** The `session_delete` listener removes the unload-reject listener. */
    method OnSessionDeleted()
      modifies this
      ensures Snapshot() == Step(old(Snapshot()), SessionDeleted)
    {
      if deleteHandler {
        rejectOnUnload := false;
      }
    }

    /** `beforeunload`: each registered listener runs, the disconnecting one
        first. */
    method OnUnload()
      modifies this
      ensures Snapshot() == Step(old(Snapshot()), Unload)
    {
      if disconnectOnUnload && proposal.Some? {
        DisconnectPairing();
      }
      if rejectOnUnload && request.Some? {
        log := log + [Reject(request.value.id, ErrorReason(UserRejectedCode, VerificationRejectedMessage))];
      }
    }

    /** Any event, keeping the invariant. */
    method Handle(ev: Event)
      requires Valid()
      modifies this
      ensures Snapshot() == Step(old(Snapshot()), ev)
      ensures Valid()
    {
      ghost var before := Snapshot();
      match ev {
        case ProposalArrived(p) => OnProposal(p);
        case RequestArrived(r) => OnRequest(r);
        case ProofFinished(proof, registry) => OnProofFinished(proof, registry);
        case SessionDeleted => OnSessionDeleted();
        case Unload => OnUnload();
      }
      StepInv(before, ev);
    }
  }
}
