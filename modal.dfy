/** The verification drawer (src/components/Modal/index.tsx): which
    credential type is approved, whether an unverified identity must
    confirm first, and how the status moves through Pending to Success or
    Error. The selection and `isVerified` are pure; `showConfirm`, the
    checkboxes and the modal store are state that `handleClick` and `close`
    update in place. The bridge's `approveRequest` is not part of this
    model: its success is an input and each call is recorded. */
module CredentialModal {
  import opened JsValues

  datatype CredentialType = Orb | Device

  /** A checkbox's `boolean | "indeterminate"`; "indeterminate" is truthy. */
  datatype Checkbox = Unchecked | Checked | Indeterminate
  {
    predicate IsTruthy()
    {
      !Unchecked?
    }
  }

  /** The store's `Status` values the drawer uses. */
  datatype Status = Waiting | Loading | Pending | Success | Error

  /** The active identity's `verified` record; a missing entry reads as
      `undefined`. */
  datatype ModalIdentity = ModalIdentity(verified: map<CredentialType, bool>)

  /** `bridgeInitialData`: the credential types the request accepts. */
  datatype BridgeRequest = BridgeRequest(credentialTypes: seq<CredentialType>)

  /** The stored proof, opaque here. */
  datatype StoredProof = StoredProof(proof: seq<string>)

  /** One `approveRequest` call. */
  datatype Approval = Approval(url: string, proof: StoredProof, credentialType: CredentialType)

  /** The modal store's fields that the drawer reads and writes. */
  datatype Store = Store(
    open: bool,
    status: Status,
    url: Option<string>,
    bridge: Option<BridgeRequest>,
    fullProof: Option<StoredProof>)

  /** The store after `reset()`. */
  const InitialStore := Store(false, Waiting, None, None, None)

  /** `activeIdentity?.verified[t]`. */
  function VerifiedEntry(identity: Option<ModalIdentity>, t: CredentialType): Option<bool>
  {
    if identity.Some? && t in identity.value.verified then Some(identity.value.verified[t]) else None
  }

  /** The checkbox's initial state: `activeIdentity?.verified[t] ?? false`. */
  function InitialCheckbox(identity: Option<ModalIdentity>, t: CredentialType): (c: Checkbox)
    ensures c.IsTruthy() <==> VerifiedEntry(identity, t) == Some(true)
    ensures c != Indeterminate
  {
    match VerifiedEntry(identity, t)
    case Some(true) => Checked
    case _ => Unchecked
  }

  /** `checked && activeIdentity?.verified[t]`. */
  function CheckedAndVerified(c: Checkbox, identity: Option<ModalIdentity>, t: CredentialType): Option<bool>
  {
    if !c.IsTruthy() then Some(false) else VerifiedEntry(identity, t)
  }

  /** `isVerified`: `orbVerified ?? phoneVerified`, where `None` is
      `undefined`. */
  function IsVerified(biometrics: Checkbox, phone: Checkbox, identity: Option<ModalIdentity>): Option<bool>
  {
    var orbVerified := CheckedAndVerified(biometrics, identity, Orb);
    if orbVerified.Some? then orbVerified else CheckedAndVerified(phone, identity, Device)
  }

  /** `Object.entries(credentialTypeMap).filter(...).map(...)`: the truthy
      checkboxes, Orb first. */
  function SelectedTypes(biometrics: Checkbox, phone: Checkbox): (selected: seq<CredentialType>)
    ensures Orb in selected <==> biometrics.IsTruthy()
    ensures Device in selected <==> phone.IsTruthy()
    ensures |selected| <= 2 && (|selected| == 2 ==> selected == [Orb, Device])
  {
    (if biometrics.IsTruthy() then [Orb] else []) + (if phone.IsTruthy() then [Device] else [])
  }

  /** The selected types that the request lists, in selection order; none
      without bridge data. */
  function Intersection(selected: seq<CredentialType>, bridge: Option<BridgeRequest>): (common: seq<CredentialType>)
    ensures forall t :: t in common <==> t in selected && bridge.Some? && t in bridge.value.credentialTypes
    ensures |common| <= |selected|
    decreases |selected|
  {
    if selected == [] then []
    else
      var rest := Intersection(selected[1..], bridge);
      if bridge.Some? && selected[0] in bridge.value.credentialTypes then [selected[0]] + rest else rest
  }

  /** Orb when the intersection holds it, Device otherwise. */
  function ChooseCredential(common: seq<CredentialType>): CredentialType
  {
    if Orb in common then Orb else Device
  }

  /** The credential type `handleClick` approves with. */
  function ChosenCredential(biometrics: Checkbox, phone: Checkbox, bridge: Option<BridgeRequest>): CredentialType
  {
    ChooseCredential(Intersection(SelectedTypes(biometrics, phone), bridge))
  }

  /** The click goes past the confirmation gate: the confirmation is
      already shown, or `isVerified` is truthy. */
  predicate Proceeds(showConfirm: bool, biometrics: Checkbox, phone: Checkbox, identity: Option<ModalIdentity>)
  {
    showConfirm || IsVerified(biometrics, phone, identity) == Some(true)
  }

  /** `url && bridgeInitialData && fullProof`. */
  predicate StoreReady(store: Store)
  {
    TruthyString(store.url) && store.bridge.Some? && store.fullProof.Some?
  }

  class ModalView {
    var store: Store
    var showConfirm: bool
    var biometricsChecked: Checkbox
    var phoneChecked: Checkbox
    /** Every `approveRequest` call, in order. */
    var approvals: seq<Approval>
    /** Every status written by `setStatus`, in order. */
    ghost var statusHistory: seq<Status>

    /** The drawer is mounted for the active identity over the store. */
    constructor (identity: Option<ModalIdentity>, initial: Store)
      ensures store == initial && !showConfirm && approvals == [] && statusHistory == []
      ensures biometricsChecked == InitialCheckbox(identity, Orb)
      ensures phoneChecked == InitialCheckbox(identity, Device)
    {
      store := initial;
      showConfirm := false;
      biometricsChecked := InitialCheckbox(identity, Orb);
      phoneChecked := InitialCheckbox(identity, Device);
      approvals := [];
      statusHistory := [];
    }

    /** A checkbox is ticked or cleared. */
    method SetCheckbox(t: CredentialType, c: Checkbox)
      modifies this
      ensures t == Orb ==> biometricsChecked == c && phoneChecked == old(phoneChecked)
      ensures t == Device ==> phoneChecked == c && biometricsChecked == old(biometricsChecked)
      ensures store == old(store) && showConfirm == old(showConfirm) && approvals == old(approvals)
      ensures statusHistory == old(statusHistory)
    {
      if t == Orb {
        biometricsChecked := c;
      } else {
        phoneChecked := c;
      }
    }

    method SetStatus(s: Status)
      modifies this
      ensures store == old(store).(status := s)
      ensures statusHistory == old(statusHistory) + [s]
      ensures showConfirm == old(showConfirm) && approvals == old(approvals)
      ensures biometricsChecked == old(biometricsChecked) && phoneChecked == old(phoneChecked)
    {
      store := store.(status := s);
      statusHistory := statusHistory + [s];
    }

    /** `handleClick`; `approveOk` is the `success` of the awaited
        `approveRequest`. */
    method HandleClick(identity: Option<ModalIdentity>, approveOk: bool)
      modifies this
      ensures biometricsChecked == old(biometricsChecked) && phoneChecked == old(phoneChecked)
      ensures store.open == old(store.open) && store.url == old(store.url)
      ensures store.bridge == old(store.bridge) && store.fullProof == old(store.fullProof)
      // no identity: nothing happens
      ensures identity.None? ==>
        store == old(store) && showConfirm == old(showConfirm) && approvals == old(approvals)
        && statusHistory == old(statusHistory)
      // the first click on an unverified identity only asks for confirmation
      ensures identity.Some? && !Proceeds(old(showConfirm), old(biometricsChecked), old(phoneChecked), identity) ==>
        showConfirm && store == old(store) && approvals == old(approvals) && statusHistory == old(statusHistory)
      // confirmed or verified, with everything in the store: Pending, the
      // approval with the chosen type, then Success or Error
      ensures (identity.Some? && Proceeds(old(showConfirm), old(biometricsChecked), old(phoneChecked), identity)
               && StoreReady(old(store))) ==>
        !showConfirm
        && approvals == old(approvals) + [Approval(old(store.url).value, old(store.fullProof).value,
                                                   ChosenCredential(old(biometricsChecked), old(phoneChecked), old(store.bridge)))]
        && statusHistory == old(statusHistory) + [Pending, if approveOk then Success else Error]
      // confirmed or verified, with something missing: Error, no approval
      ensures (identity.Some? && Proceeds(old(showConfirm), old(biometricsChecked), old(phoneChecked), identity)
               && !StoreReady(old(store))) ==>
        showConfirm == old(showConfirm) && approvals == old(approvals) && statusHistory == old(statusHistory) + [Error]
      ensures store.status == if statusHistory == old(statusHistory) then old(store.status) else statusHistory[|statusHistory| - 1]
    {
      if identity.None? {
        return;
      }
      var credentialType := ChosenCredential(biometricsChecked, phoneChecked, store.bridge);
      if !Proceeds(showConfirm, biometricsChecked, phoneChecked, identity) {
        showConfirm := true;
        return;
      }
      if StoreReady(store) {
        showConfirm := false;
        SetStatus(Pending);
        approvals := approvals + [Approval(store.url.value, store.fullProof.value, credentialType)];
        if !approveOk {
          SetStatus(Error);
          return;
        }
        SetStatus(Success);
      } else {
        SetStatus(Error);
      }
    }

    /** `close`: `setOpen(false)`, then `reset()`. */
    method Close()
      modifies this
      ensures store == InitialStore && !store.open
      ensures showConfirm == old(showConfirm) && approvals == old(approvals) && statusHistory == old(statusHistory)
      ensures biometricsChecked == old(biometricsChecked) && phoneChecked == old(phoneChecked)
    {
      store := store.(open := false);
      store := InitialStore;
    }
  }

  // ---------------------------------------------------------------------
  // Properties

  /** Orb is chosen exactly when its box is ticked (or indeterminate) and
      the request lists it; every other case, an empty intersection
      included, approves with Device. */
  lemma ChosenIsOrbIff(biometrics: Checkbox, phone: Checkbox, bridge: Option<BridgeRequest>)
    ensures ChosenCredential(biometrics, phone, bridge) == Orb <==>
      biometrics.IsTruthy() && bridge.Some? && Orb in bridge.value.credentialTypes
    ensures Intersection(SelectedTypes(biometrics, phone), bridge) == [] ==>
      ChosenCredential(biometrics, phone, bridge) == Device
  {
  }

  /** Without bridge data nothing intersects and Device is chosen. */
  lemma NoBridgeChoosesDevice(biometrics: Checkbox, phone: Checkbox)
    ensures Intersection(SelectedTypes(biometrics, phone), None) == []
    ensures ChosenCredential(biometrics, phone, None) == Device
  {
  }

  /** `isVerified` is truthy exactly when the Orb box is ticked and Orb is
      verified, or the Orb box is ticked, Orb has no entry, the phone box is
      ticked and Device is verified. An unticked Orb box gives `false` and
      the phone is never consulted. */
  lemma IsVerifiedIff(biometrics: Checkbox, phone: Checkbox, identity: Option<ModalIdentity>)
    ensures IsVerified(biometrics, phone, identity) == Some(true) <==>
      biometrics.IsTruthy() &&
      (VerifiedEntry(identity, Orb) == Some(true)
       || (VerifiedEntry(identity, Orb).None? && phone.IsTruthy() && VerifiedEntry(identity, Device) == Some(true)))
    ensures !biometrics.IsTruthy() ==> IsVerified(biometrics, phone, identity) == Some(false)
  {
  }

  /** With the boxes as first set, `isVerified` holds exactly when the
      identity's Orb entry is `true`: a Device-only verification still asks
      for confirmation. */
  lemma InitialIsVerified(identity: Option<ModalIdentity>)
    ensures IsVerified(InitialCheckbox(identity, Orb), InitialCheckbox(identity, Device), identity) == Some(true)
      <==> VerifiedEntry(identity, Orb) == Some(true)
  {
  }
}
