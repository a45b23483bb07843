# World ID simulator: verifier requests, credential approval and pairing input

This project models the decision logic of the World ID simulator web app, a
mock World ID holder that answers verification requests from apps:

- **The verifier-request engine.** `connectWallet` pairs with a verifier over the WalletConnect relay. It approves the session proposal and takes the first request. It then checks the request method, the external nullifier and the signal, in that order. Each failure sends one JSON-RPC error (section 5.1 of the JSON-RPC 2.0 specification), disconnects the pairing topic and throws. Two `beforeunload` listeners disconnect or reject when the page unloads.
  - `WalletConnect.Step` specifies the engine as a state machine over an action log.
  - `WalletConnectSession.Connection` performs the same steps on mutable fields and is proved equal to `Step`.
- **`BigInt` on strings.** This is the StringToBigInt operation of ECMA-262 (section 7.1.14) that the validators call. It is modelled as a parser and proved equal to the StringIntegerLiteral grammar.
- **`decodeURIComponent`.** The Decode operation of ECMA-262 (section 19.2.6), with UTF-8. The pairing-code input uses it.
- **The pairing-code input.** It covers when a value is flagged invalid, when Submit is enabled, what paste and submit start, and what the field's button does.
- **The verification drawer.** It covers credential selection (Orb first, otherwise Device), `isVerified`, the two-click confirmation gate, and the status moving through Pending to Success or Error.
- **The start screen.** It covers how a new identity record is built, the order of the updates that follow, and the phase-keyed button handlers.
- **The two metadata overlays.** One is the Developer Portal precheck over the defaults. The other is the verified-actions registry entry copied onto the approval metadata.
- **The maintenance banner.** It decides from the status page whether to show the banner.

Foreign calls are not executed. This covers relay calls, `fetch`, the proof system, the wallet hooks and the stores. Their results are inputs to the model, and the calls the code makes are recorded in action logs.

Facts about the code that the model keeps and the proofs make visible:

- **No range check on the validators.** `validateSignal` and `validateExternalNullifier` only check that `BigInt` does not throw. Negative and arbitrarily large values pass, and the validators return the string as sent, not a parsed integer (`WalletConnect.NoRangeCheck`).
- **No user-cancel transition.** No code path answers `verification_rejected` except the -32100 rejection sent when the page unloads.
- **The rejecting unload listener outlives a failure.** Only `session_delete` removes it, so it survives a validation failure (`WalletConnect.RejectListenerWindow`).
- **The external-nullifier error message.** A bad external nullifier is answered with the message `invalid_app_id`.
- **Unload before the proposal sends nothing.** The disconnecting listener reads `sessionProposal` before that constant is initialised, which throws a ReferenceError.
- **Inherited registry keys count as listed.** `action_id in content` also finds the properties of `Object.prototype`. An `action_id` such as "constructor" is therefore marked `validated` with nothing copied (`ApprovalMetadata.InheritedActionValidates`).

## Model

| member | source | states |
|---|---|---|
| WalletConnect.StartInv | src/lib/init-walletconnect.ts:49-111 | after init and pairing, the engine satisfies the invariant: the unload-disconnect listener is registered exactly while waiting for the verifier, and no error has been sent |
| WalletConnect.StepInv | src/lib/init-walletconnect.ts:59-253 | every event preserves the invariant: listener flags match the stage, the proposal and request are held from their arrival, every disconnect is of the truthy pairing topic, and exactly one JSON-RPC error is sent on an answered failure and none otherwise |
| WalletConnect.RunInv | src/lib/init-walletconnect.ts:59-253 | the invariant holds after any sequence of events |
| WalletConnect.AtMostOneErrorResponse | src/lib/init-walletconnect.ts:136-233 | in every run at most one -32601/-32602 error is sent, and one is sent exactly when the call failed the method or a parameter check |
| WalletConnect.DisconnectOnlyWithTruthyTopic | src/lib/init-walletconnect.ts:99-105 | in every run, each `disconnect` (failure paths and unload alike) is of the proposal's pairing topic, and only when it is truthy |
| WalletConnect.StepKeepsFirst | src/lib/init-walletconnect.ts:114-129 | once held, the proposal and the request are not replaced by any event |
| WalletConnect.RunKeepsFirst | src/lib/init-walletconnect.ts:114-129 | once held, the proposal and the request are not replaced by any later sequence of events |
| WalletConnect.FirstProposalDrives | src/lib/init-walletconnect.ts:114-120 | after a successful pairing, the first proposal is the one held whatever events follow |
| WalletConnect.LaterProposalOnlyApproved | src/lib/init-walletconnect.ts:59-72 | a proposal after the first is approved and changes nothing else |
| WalletConnect.UnsupportedMethodPath | src/lib/init-walletconnect.ts:136-160 | a method other than `world_id_v1` gives `reject` with -32601 "method_not_found", then the disconnect when the topic is truthy, then the failure; no `respond` is sent and no unload-reject listener is added |
| WalletConnect.InvalidExternalNullifierPath | src/lib/init-walletconnect.ts:199-233 | a rejected external nullifier gives `respond` with -32602 "invalid_app_id", then the guarded disconnect, then the failure, with the unload-reject listener registered |
| WalletConnect.InvalidSignalPath | src/lib/init-walletconnect.ts:162-197 | a rejected signal after an accepted external nullifier gives `respond` with -32602 "invalid_signal", then the guarded disconnect, then the failure |
| WalletConnect.SignalIgnoredAfterBadExternalNullifier | src/lib/init-walletconnect.ts:255-261 | when the external nullifier fails, the outcome does not depend on the signal or any other parameter |
| WalletConnect.ValidRequestProceeds | src/lib/init-walletconnect.ts:250-261 | a request passing both validators makes no relay call and proceeds to proving with the two strings as sent |
| WalletConnect.ProofFailureIsSilent | src/lib/init-walletconnect.ts:256-261 | a proof that cannot be built fails the call with no answer and no disconnect |
| WalletConnect.ValidateParamSpec | src/lib/init-walletconnect.ts:165-171 | a validator returns a value exactly when `params[0]` has the field and the field is a StringIntegerLiteral, and then returns it unchanged |
| WalletConnect.ValidateParamAccepts | src/lib/init-walletconnect.ts:202-208 | a field that is a StringIntegerLiteral passes its validator unchanged |
| WalletConnect.NoRangeCheck | src/lib/init-walletconnect.ts:170 | every integer written in decimal, negative or arbitrarily large, passes a validator |
| WalletConnect.UnloadWhileWaiting | src/lib/init-walletconnect.ts:96-111 | unloading while waiting for the request disconnects a truthy pairing topic; while waiting for the proposal it sends nothing |
| WalletConnect.UnloadAfterMethodCheck | src/lib/init-walletconnect.ts:235-253 | after the method check, unloading rejects the request with -32100 "verification_rejected" and never disconnects, and `session_delete` removes that listener |
| WalletConnect.RejectListenerWindow | src/lib/init-walletconnect.ts:250-253 | the unload-reject listener is removed by `session_delete` and by nothing else, and is added only when a request with the protocol method arrives |
| WalletConnectSession.Connection.constructor | src/lib/init-walletconnect.ts:49-111 | client init, pairing and the unload-disconnect listener give exactly `Start`, and the invariant holds |
| WalletConnectSession.Connection.OnProposal | src/lib/init-walletconnect.ts:59-120 | the approving listener and the resolving listener produce exactly `Step` on a proposal |
| WalletConnectSession.Connection.OnRequest | src/lib/init-walletconnect.ts:123-160 | removing the unload listener, the method check and the listener registration produce exactly `Step` on a request |
| WalletConnectSession.Connection.RunValidators | src/lib/init-walletconnect.ts:255-261 | awaiting the external-nullifier validator and then the signal validator produces exactly the checked outcome |
| WalletConnectSession.Connection.ValidateSignal | src/lib/init-walletconnect.ts:162-197 | after an accepted external nullifier, the signal validator produces exactly the checked outcome |
| WalletConnectSession.Connection.ValidateField | src/lib/init-walletconnect.ts:199-233 | returns the field when `BigInt` accepts it; otherwise it sends one -32602 answer and the guarded disconnect, and changes nothing else |
| WalletConnectSession.Connection.DisconnectPairing | src/lib/init-walletconnect.ts:149-156 | appends a disconnect exactly when the pairing topic is truthy, and changes nothing else |
| WalletConnectSession.Connection.OnProofFinished | src/lib/init-walletconnect.ts:256-279 | a failed proof fails the call; a proof is followed by the approval metadata lookup, exactly as `Step` says |
| WalletConnectSession.Connection.OnSessionDeleted | src/lib/init-walletconnect.ts:251-253 | `session_delete` removes the unload-reject listener, exactly as `Step` says |
| WalletConnectSession.Connection.OnUnload | src/lib/init-walletconnect.ts:96-111 | the registered unload listeners act exactly as `Step` says |
| WalletConnectSession.Connection.Handle | src/lib/init-walletconnect.ts:59-253 | any event updates the object exactly as `Step` says and keeps the invariant |
| BigIntSyntax.StringToBigIntAcceptsGrammar | src/lib/init-walletconnect.ts:170 | `BigInt(s)` succeeds exactly when s is a StringIntegerLiteral: optional white space, then a signed decimal or an unsigned 0x/0o/0b literal, then optional white space, or white space alone |
| BigIntSyntax.DecimalRoundTrip | src/lib/init-walletconnect.ts:170 | `BigInt` reads every integer's decimal numeral back as that integer |
| BigIntSyntax.NonDecimalLiteralAccepted | src/lib/init-walletconnect.ts:170 | a padded 0x/0o/0b literal is accepted with the value of its digits in that radix |
| BigIntSyntax.TrimStartSpec | src/lib/init-walletconnect.ts:170 | the leading trim leaves a suffix starting with a non-white character, after dropping only white space |
| BigIntSyntax.TrimEndSpec | src/lib/init-walletconnect.ts:170 | the trailing trim leaves a prefix ending with a non-white character, after dropping only white space |
| BigIntSyntax.ParseIntegerLiteralAccepts | src/lib/init-walletconnect.ts:170 | on a non-empty trimmed string the parser accepts exactly the StrIntegerLiteral grammar |
| BigIntSyntax.StringToBigIntOfPadded | src/lib/init-walletconnect.ts:170 | white space around a literal does not change what `BigInt` reads |
| BigIntSyntax.RejectsFraction | src/lib/init-walletconnect.ts:170 | "1.5" is rejected |
| BigIntSyntax.RejectsExponent | src/lib/init-walletconnect.ts:170 | "1e3" is rejected |
| BigIntSyntax.RejectsSignedHex | src/lib/init-walletconnect.ts:170 | "-0x1" is rejected: a sign is not allowed on a non-decimal literal |
| BigIntSyntax.RejectsWord | src/lib/init-walletconnect.ts:170 | "not-a-number" is rejected |
| UriDecode.Decode | src/scenes/Id/QrInput/index.tsx:31 | `decodeURIComponent`; a decoded string is never longer than its input |
| UriDecode.DecodeOfPercentEncode | src/scenes/Id/QrInput/index.tsx:31 | decoding the UTF-8 percent-encoding of any string gives the string back |
| UriDecode.NoEscapeIsIdentity | src/scenes/Id/QrInput/index.tsx:31 | a string without '%' decodes to itself |
| UriDecode.Utf8RoundTrip | src/scenes/Id/QrInput/index.tsx:31 | the UTF-8 encoding of a multi-octet character decodes to it, and its lead octet announces its length |
| UriDecode.DecodeEscapeOf | src/scenes/Id/QrInput/index.tsx:31 | the escapes of one character's UTF-8 octets decode to that character, consuming exactly those escapes |
| UriDecode.TruncatedEscapeFails | src/scenes/Id/QrInput/index.tsx:35-37 | a '%' without two hexadecimal digits is a URIError |
| UriDecode.StrayContinuationFails | src/scenes/Id/QrInput/index.tsx:35-37 | a continuation octet cannot start a sequence: "%80" is a URIError |
| UriDecode.OverlongFails | src/scenes/Id/QrInput/index.tsx:35-37 | the overlong form "%C0%80" is a URIError |
| UriDecode.SurrogateFails | src/scenes/Id/QrInput/index.tsx:35-37 | an encoded surrogate "%ED%A0%80" is a URIError |
| QrInput.MatchesIffPairingUri | src/scenes/Id/QrInput/index.tsx:32-34 | the anchored pattern matches exactly the prefix, 64 alphanumerics, the middle part and 64 alphanumerics |
| QrInput.EmptyNotInvalid | src/scenes/Id/QrInput/index.tsx:29 | the empty value is not flagged, and Submit is disabled for it |
| QrInput.InvalidIff | src/scenes/Id/QrInput/index.tsx:28-38 | a non-empty value is accepted exactly when it decodes to a pairing URI; a value that cannot be decoded is flagged |
| QrInput.SubmitEnabledIff | src/scenes/Id/QrInput/index.tsx:146 | Submit is enabled exactly for a non-empty value that decodes to a pairing URI |
| QrInput.PairingUriAccepted | src/scenes/Id/QrInput/index.tsx:28-38 | a pairing URI is accepted both as typed and fully percent-encoded |
| QrInput.TruncatedEscapeFlagged | src/scenes/Id/QrInput/index.tsx:35-37 | a value starting with a truncated escape is flagged |
| QrInput.PerformVerification | src/scenes/Id/QrInput/index.tsx:40-55 | nothing happens without an identity; the client pairs exactly when there is an identity and the uri is not empty, and only with that uri |
| QrInput.StartPairsOnlyTruthyUri | src/scenes/Id/QrInput/index.tsx:62-77 | paste and submit pair exactly when there is an identity and the parsed uri is truthy, and then with that uri |
| QrInput.InputButton | src/scenes/Id/QrInput/index.tsx:117-130 | the button never leaves a filled field as it was: the field ends empty or holds exactly the clipboard text pasted into an empty field, and a successful read on an empty field always pastes |
| QrInput.ClearThenPaste | src/scenes/Id/QrInput/index.tsx:117-130 | on a filled field, one press clears it and the next press pastes the clipboard text, or leaves it empty when the read fails |
| CredentialModal.InitialCheckbox | src/components/Modal/index.tsx:37-43 | a box starts ticked exactly when the identity's entry for its type is `true` |
| CredentialModal.SelectedTypes | src/components/Modal/index.tsx:80-87 | Orb is selected exactly when its box is truthy ("indeterminate" included), Device likewise, Orb first |
| CredentialModal.Intersection | src/components/Modal/index.tsx:89-91 | a type is kept exactly when it is selected and the bridge request lists it; nothing is kept without bridge data |
| CredentialModal.ChosenIsOrbIff | src/components/Modal/index.tsx:95-103 | Orb is chosen exactly when its box is truthy and the request lists Orb; otherwise Device, an empty intersection included |
| CredentialModal.NoBridgeChoosesDevice | src/components/Modal/index.tsx:89-103 | without bridge data nothing intersects and Device is chosen |
| CredentialModal.IsVerifiedIff | src/components/Modal/index.tsx:66-75 | `isVerified` is truthy exactly when the Orb box is truthy and Orb is verified, or the Orb box is truthy, Orb has no entry, and the phone box is truthy and Device is verified; an unticked Orb box gives `false` |
| CredentialModal.InitialIsVerified | src/components/Modal/index.tsx:37-75 | with the boxes as first set, `isVerified` holds exactly when the Orb entry is `true` |
| CredentialModal.ModalView.constructor | src/components/Modal/index.tsx:35-43 | the confirmation starts hidden and the boxes start from the identity's entries |
| CredentialModal.ModalView.SetCheckbox | src/components/Modal/index.tsx:37-43 | ticking one box changes only that box |
| CredentialModal.ModalView.HandleClick | src/components/Modal/index.tsx:77-130 | without an identity nothing changes. An unconfirmed, unverified first click only shows the confirmation. Otherwise, with url, bridge data and proof, the status goes Pending then Success or Error and one approval is made with the chosen type. With any of them missing, the status becomes Error with no approval |
| CredentialModal.ModalView.Close | src/components/Modal/index.tsx:57-60 | the drawer closes and the store is reset |
| InitialScreen.ShortId | src/App/Initial/Initial.tsx:53 | the id is the prefix of the encoded commitment of length min(10, its length) |
| InitialScreen.KeepsOtherFields | src/App/Initial/Initial.tsx:64-72 | the new record keeps every other field of the previous one, and its keys are the previous keys plus the six overwritten ones |
| InitialScreen.VerifiedIffReturned | src/App/Initial/Initial.tsx:54-62 | `verified` is true exactly when the inclusion lookup returned; on failure the proof is null and the record is still built |
| InitialScreen.IdIsTenCharacterPrefix | src/App/Initial/Initial.tsx:51-53 | the record's id is the first ten characters of the encoded commitment |
| InitialScreen.Screen.constructor | src/App/Initial/Initial.tsx:19-25 | the screen starts with the given phase and identity and no effects |
| InitialScreen.Screen.UpdateIdentity | src/App/Initial/Initial.tsx:45-79 | the built record is set, then stored under its short id, then the phase becomes Identity |
| InitialScreen.Screen.ConnectWallet | src/App/Initial/Initial.tsx:87-89 | the wallet modal opens only when not connected |
| InitialScreen.Screen.GoBackAction | src/App/Initial/Initial.tsx:98-103 | without a connection only an error is logged; with one, the wallet disconnects |
| InitialScreen.Screen.DisconnectSucceeded | src/App/Initial/Initial.tsx:29-33 | a successful disconnect returns the phase to Initial |
| InitialScreen.Screen.PressTertiary | src/App/Initial/Initial.tsx:149-161 | the third button creates an identity in Initial, goes back in Signature, and does nothing otherwise |
| Metadata.PrecheckBody | src/services/metadata.ts:10-14 | the precheck body has exactly the keys `action`, `nullifier_hash` and `external_nullifier` |
| Metadata.PrecheckAction | src/services/metadata.ts:16-37 | a response is returned only for an ok status, and it is the parsed body; an ok status with a JSON body always returns it |
| Metadata.NotOkGivesNull | src/services/metadata.ts:23-36 | a 404, any other non-ok status and a rejected fetch all give null |
| Metadata.NullPrecheckGivesDefaults | src/services/metadata.ts:42-56 | without a precheck response the result is exactly `{id, action: {description}}` |
| Metadata.ResponseOverlaysDefaults | src/services/metadata.ts:49-55 | an object response is spread over the defaults: its keys win, `action` is replaced whole, the defaults survive elsewhere, and no other key appears |
| JsValues.IndexedChars | src/lib/get-metadata.ts:32 | a string spreads one property per character, keyed by its decimal index, and no other key |
| ApprovalMetadata.FetchApprovalRequestMetadata | src/lib/get-metadata.ts:4-38 | an empty `params` throws. Otherwise the result is a fresh object with the initial fields. When the action is a registry key, own or inherited from `Object.prototype`, the entry's properties are assigned over them and `validated: true` is added |
| ApprovalMetadata.MetaObject.constructor | src/lib/get-metadata.ts:8-12 | `meta` starts as `action_id`, `project_name := app_name` and `description := signal_description` |
| ApprovalMetadata.MetaObject.Assign | src/lib/get-metadata.ts:32 | `Object.assign` overlays the source's own properties onto `meta`, except "__proto__", which [[Set]] turns into a prototype change rather than a property |
| ApprovalMetadata.MetaObject.SetValidated | src/lib/get-metadata.ts:33 | sets `validated` to true and changes nothing else |
| ApprovalMetadata.InitialMetaFields | src/lib/get-metadata.ts:7-12 | the initial object has exactly the three renamed fields and no `validated` |
| ApprovalMetadata.FailedFetchKeepsInitial | src/lib/get-metadata.ts:23-36 | a failed or non-ok fetch, or a body that is not an object, leaves the initial object without `validated` |
| ApprovalMetadata.UnknownActionKeepsInitial | src/lib/get-metadata.ts:28-31 | an action that is neither a registry key nor a property of `Object.prototype` leaves the initial object unchanged |
| ApprovalMetadata.InheritedActionValidates | src/lib/get-metadata.ts:28-33 | an action named like a property of `Object.prototype` that the registry does not list still passes the `in` test: nothing is copied and `validated: true` is added |
| ApprovalMetadata.ValidatedIffFound | src/lib/get-metadata.ts:23-33 | `validated` is present exactly when the registry body is an object and `action_id in content` holds, own key or inherited. It is then true whatever the entry says |
| ApprovalMetadata.FoundEntryOverlays | src/lib/get-metadata.ts:32-33 | a found object entry overlays the initial fields (entry values win), the initial values survive elsewhere, an entry's "__proto__" creates no property, and no other key appears |
| Maintenance.FirstIndex | src/components/Maintenance.tsx:17-19 | the index where `find` stops: no earlier service has the name, and the one there has it, unless it is the end |
| Maintenance.Banner.constructor | src/components/Maintenance.tsx:8 | the banner starts hidden |
| Maintenance.Banner.CheckStatus | src/components/Maintenance.tsx:10-28 | the banner is visible afterwards exactly when it was before or the check shows it; it is never hidden again |
| Maintenance.ShownUnlessFirstStagingOk | src/components/Maintenance.tsx:17-23 | a status document shows the banner unless its first "SDK Staging Network" entry has status "ok" |
| Maintenance.MissingStagingShows | src/components/Maintenance.tsx:17-23 | without a service of that exact name the banner is shown |
| Maintenance.LaterOkEntryIgnored | src/components/Maintenance.tsx:17-23 | a later "ok" entry does not hide the banner when the first matching entry is not "ok" |

## Left out

- Relay internals are not modelled. `Client.init`, `pair`, `approve`/`acknowledged`, `reject`, `respond`, `disconnect` and `getSdkError` are foreign calls. Each is a log entry. A failing `pair` is modelled as the pairing failure. A failing `approve`, `reject`, `respond` or `disconnect` is not modelled.
- Timing and concurrency are not modelled:
  - the 500 ms delays before each disconnect;
  - the registration of the proposal listener after `pair` has started;
  - unload events arriving during an awaited call.
  Events are processed one at a time, in arrival order.
- Proof building is reduced to its outcome, passed in as a parameter. `getMerkleProof`, `getFullProof` and `abi.encode` are cryptography. The `nullifierHash` computed at src/lib/init-walletconnect.ts:262-265 is unused by the code.
- `localStorage`, console logging and toasts are not modelled.
- WalletConnect.Request: request parameters are records of strings. A JSON number or object in `params[0]` is not represented. `BigInt` of a number or of an object is outside StringToBigInt.
- BigIntSyntax.StringToBigInt: numeric separators are not part of StringIntegerLiteral, so they are not modelled.
- UriDecode.Decode: strings are sequences of Unicode scalar values. A decoded supplementary character is one `char` rather than two UTF-16 code units, and lone surrogates in the input are not representable. This does not change which values the pairing pattern accepts, because the pattern is pure ASCII.
- `parseWorldIDQRCode`, `createClient`, `pairClient` and the session handlers of the app's own WalletConnect service are not part of this model. Their inputs and calls are recorded as effects.
- The `Input` component is not part of this model. The button's "empty" flag is taken to be the field being empty. `handleChange` always stores the typed text, so it is not modelled separately.
- CredentialModal.ModalView.Close: the modal store's `reset` is not part of this model. Its result is taken to be closed, Waiting, and no url, bridge data or proof.
- CredentialModal.ModalView.HandleClick: the bridge's `approveRequest` is reduced to its success flag, and each call is recorded. Rendering, the drawer and the confirmation and status sub-components are not modelled.
- Identity cryptography is not modelled: `ZkIdentity`, `encodeIdentityCommitment`, `utils.keccak256` and the sequencer's `inclusionProof`. Their results are inputs. The signature-derived identity reaches `updateIdentity` exactly like a random one, so only `UpdateIdentity` is modelled. The wallet hooks (`useAccount`, `useDisconnect`, `useSignMessage`, `useModal`) are reduced to their flags and callbacks.
- Network access and parsing are reduced to outcome values. This covers `fetch`, JSON decoding, `new URL` and the status document's schema. Every thrown error inside a `try` is one "failed" outcome.
- ApprovalMetadata.RegistryEntry: JSON arrays are not represented, so a registry body is an object or it fails the `in` test.
- Merkle proof construction is not modelled. `getMerkleProof(identity)` at src/lib/init-walletconnect.ts:255 runs before either validator and is assumed not to throw. If it threw, the call would fail before any answer was sent, and the model does not have that path.
- The values of the `@worldcoin/id` error codes are assumed. `ErrorCodes.InvalidSignal` is taken to be "invalid_signal" and `ErrorCodes.VerificationRejected` to be "verification_rejected". The package that defines them is not part of this model.
- ApprovalMetadata.MetaObject.Assign: the prototype change that an entry's "__proto__" makes to `meta` is not modelled. The model represents only own properties, and there "__proto__" creates none.
