/** The start screen (src/App/Initial/Initial.tsx): building a new identity
    record from a Semaphore identity, the order of the three updates that
    follow, the wallet buttons, and the phase-keyed handler of the third
    button. `ZkIdentity`, `encodeIdentityCommitment`, the sequencer's
    `inclusionProof`, the identity storage and the wallet hooks are not part
    of this model: their results are inputs and their calls are recorded. */
module InitialScreen {
  import opened JsValues

  /** The screen phases the handlers look at. */
  datatype Phase = Initial | Signature | Identity

  /** What `genIdentityCommitment`, `getTrapdoor` and `getNullifier` return. */
  datatype Secrets = Secrets(commitment: int, trapdoor: int, nullifier: int)

  /** The outcome of `await inclusionProof(encodedCommitment)`. */
  datatype InclusionLookup = LookupFailed | LookupReturned(proof: JsValue)

  /** The identity record is a plain object; these are the keys
      `updateIdentity` writes. */
  const OverwrittenKeys: set<string> := {"commitment", "trapdoor", "nullifier", "id", "verified", "inclusionProof"}

  /** `encodedCommitment.slice(0, 10)`. */
  function ShortId(encoded: string): (id: string)
    ensures |id| == if |encoded| < 10 then |encoded| else 10
    ensures id == encoded[..|id|]
  {
    if |encoded| <= 10 then encoded else encoded[..10]
  }

  /** `verified` and `inclusionProof` after the `try`. */
  function Verified(lookup: InclusionLookup): bool
  {
    lookup.LookupReturned?
  }

  function InclusionProof(lookup: InclusionLookup): JsValue
  {
    match lookup
    case LookupFailed => Null
    case LookupReturned(proof) => proof
  }

  /** `{ ...props.identity, commitment, trapdoor, nullifier, id, verified,
      inclusionProof: proof }`. */
  function BuildIdentity(previous: map<string, JsValue>, secrets: Secrets, encoded: string, lookup: InclusionLookup): map<string, JsValue>
  {
    previous + map[
      "commitment" := Num(secrets.commitment),
      "trapdoor" := Num(secrets.trapdoor),
      "nullifier" := Num(secrets.nullifier),
      "id" := Str(ShortId(encoded)),
      "verified" := Bool(Verified(lookup)),
      "inclusionProof" := InclusionProof(lookup)]
  }

  /** The third button's `onClick`: the table keyed by phase. */
  datatype Handler = CreateIdentity | GoBack

  function TertiaryHandler(phase: Phase): (h: Option<Handler>)
    ensures h == Some(CreateIdentity) <==> phase == Initial
    ensures h == Some(GoBack) <==> phase == Signature
    ensures h.None? <==> phase != Initial && phase != Signature
  {
    match phase
    case Initial => Some(CreateIdentity)
    case Signature => Some(GoBack)
    case Identity => None
  }

  /** The calls the screen makes, in order. */
  datatype Effect =
    | SetIdentity(record: map<string, JsValue>)
    | StoreIdentity(id: string)
    | SetPhase(phase: Phase)
    | OpenConnectModal
    | Disconnect
    | LogError

  class Screen {
    var phase: Phase
    var identity: map<string, JsValue>
    var effects: seq<Effect>

    constructor (phase0: Phase, identity0: map<string, JsValue>)
      ensures phase == phase0 && identity == identity0 && effects == []
    {
      phase := phase0;
      identity := identity0;
      effects := [];
    }

    /** `updateIdentity`: the record is built, then set, then stored under
        its short id, then the phase becomes Identity. */
    method UpdateIdentity(secrets: Secrets, encoded: string, lookup: InclusionLookup)
      modifies this
      ensures identity == BuildIdentity(old(identity), secrets, encoded, lookup)
      ensures phase == Identity
      ensures effects == old(effects) + [SetIdentity(identity), StoreIdentity(ShortId(encoded)), SetPhase(Identity)]
    {
      var id := ShortId(encoded);
      var verified := false;
      var proof := Null;
      if lookup.LookupReturned? {
        proof := lookup.proof;
        verified := true;
      }
      var extended := identity + map[
        "commitment" := Num(secrets.commitment),
        "trapdoor" := Num(secrets.trapdoor),
        "nullifier" := Num(secrets.nullifier),
        "id" := Str(id),
        "verified" := Bool(verified),
        "inclusionProof" := proof];
      identity := extended;
      effects := effects + [SetIdentity(extended)];
      effects := effects + [StoreIdentity(id)];
      phase := Identity;
      effects := effects + [SetPhase(Identity)];
    }

    /** `connectWallet`: opens the wallet modal only when not connected. */
    method ConnectWallet(isConnected: bool)
      modifies this
      ensures phase == old(phase) && identity == old(identity)
      ensures effects == old(effects) + (if isConnected then [] else [OpenConnectModal])
    {
      if !isConnected {
        effects := effects + [OpenConnectModal];
      }
    }

    /** `goBack`: without a connection it only logs an error. */
    method GoBackAction(isConnected: bool)
      modifies this
      ensures phase == old(phase) && identity == old(identity)
      ensures effects == old(effects) + (if isConnected then [Disconnect] else [LogError])
    {
      if !isConnected {
        effects := effects + [LogError];
        return;
      }
      effects := effects + [Disconnect];
    }

    /** The `onSuccess` of `useDisconnect`. */
    method DisconnectSucceeded()
      modifies this
      ensures phase == Initial && identity == old(identity)
      ensures effects == old(effects) + [SetPhase(Initial)]
    {
      phase := Initial;
      effects := effects + [SetPhase(Initial)];
    }

    /** A click on the third button: `createIdentity` (with a fresh random
        identity's secrets and lookup) in the Initial phase, `goBack` in the
        Signature phase, nothing otherwise. */
    method PressTertiary(isConnected: bool, secrets: Secrets, encoded: string, lookup: InclusionLookup)
      modifies this
      ensures old(phase) == Initial ==>
        identity == BuildIdentity(old(identity), secrets, encoded, lookup) && phase == Identity
        && effects == old(effects) + [SetIdentity(identity), StoreIdentity(ShortId(encoded)), SetPhase(Identity)]
      ensures old(phase) == Signature ==>
        phase == Signature && identity == old(identity)
        && effects == old(effects) + (if isConnected then [Disconnect] else [LogError])
      ensures old(phase) == Identity ==> phase == old(phase) && identity == old(identity) && effects == old(effects)
    {
      match TertiaryHandler(phase) {
        case Some(CreateIdentity) => UpdateIdentity(secrets, encoded, lookup);
        case Some(GoBack) => GoBackAction(isConnected);
        case None =>
      }
    }
  }

  // ---------------------------------------------------------------------
  // Properties

  /** The new record keeps every field of the previous one except the six
      it overwrites, and has exactly the previous keys plus those six. */
  lemma KeepsOtherFields(previous: map<string, JsValue>, secrets: Secrets, encoded: string, lookup: InclusionLookup)
    ensures var r := BuildIdentity(previous, secrets, encoded, lookup);
      && r.Keys == previous.Keys + OverwrittenKeys
      && (forall k :: k in previous && k !in OverwrittenKeys ==> r[k] == previous[k])
  {
  }

  /** `verified` is true exactly when the inclusion lookup returned; when it
      failed the proof is `null`, and the record is built either way. */
  lemma VerifiedIffReturned(previous: map<string, JsValue>, secrets: Secrets, encoded: string, lookup: InclusionLookup)
    ensures var r := BuildIdentity(previous, secrets, encoded, lookup);
      && (r["verified"] == Bool(true) <==> lookup.LookupReturned?)
      && (lookup.LookupFailed? ==> r["verified"] == Bool(false) && r["inclusionProof"] == Null)
      && (lookup.LookupReturned? ==> r["inclusionProof"] == lookup.proof)
  {
  }

  /** The record's id is the first ten characters of the encoded
      commitment, and the same id is what gets stored. */
  lemma IdIsTenCharacterPrefix(previous: map<string, JsValue>, secrets: Secrets, encoded: string, lookup: InclusionLookup)
    requires |encoded| >= 10
    ensures BuildIdentity(previous, secrets, encoded, lookup)["id"] == Str(encoded[..10])
  {
  }
}
