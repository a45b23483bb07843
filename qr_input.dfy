/** The pairing-code input of the "Enter or paste QR code" dialog
    (src/scenes/Id/QrInput/index.tsx): when the typed value is flagged
    invalid, when Submit is enabled, what pasting and submitting start, and
    what the button inside the field does. `parseWorldIDQRCode` is not part
    of this model; its `uri` result is an input. */
module QrInput {
  import opened JsValues
  import opened Chars
  import UriDecode

  const UriPrefix := "https://worldcoin.org/verify?w=wc:"
  const UriMiddle := "@2?relay-protocol=irn&symKey="
  /** The length of the topic and of the symmetric key: `{64}`. */
  const TokenLength := 64

  predicate AllAlphanumeric(s: string)
  {
    forall i :: 0 <= i < |s| ==> IsAsciiAlphanumeric(s[i])
  }

  /** The anchored pattern
      `^https://worldcoin.org/verify?w=wc:[a-zA-Z0-9]{64}@2?relay-protocol=irn&symKey=[a-zA-Z0-9]{64}$`
      (with its `.` and `?` escaped), checked piece by piece. */
  predicate MatchesPairingPattern(url: string)
  {
    var p := |UriPrefix|;
    var m := |UriMiddle|;
    && |url| == p + TokenLength + m + TokenLength
    && url[..p] == UriPrefix
    && AllAlphanumeric(url[p..p + TokenLength])
    && url[p + TokenLength..p + TokenLength + m] == UriMiddle
    && AllAlphanumeric(url[p + TokenLength + m..])
  }

  /** The pairing URI of a topic and a key: what the pattern describes. */
  function PairingUri(topic: string, key: string): string
  {
    UriPrefix + topic + UriMiddle + key
  }

  predicate IsToken(s: string)
  {
    |s| == TokenLength && AllAlphanumeric(s)
  }

  ghost predicate IsPairingUri(url: string)
  {
    exists topic, key :: IsToken(topic) && IsToken(key) && url == PairingUri(topic, key)
  }

  /** `isInvalid`: the empty value is not flagged; otherwise a value that
      `decodeURIComponent` rejects, or whose decoding does not match the
      pattern, is. */
  predicate IsInvalid(value: string)
  {
    if value == "" then false
    else match UriDecode.Decode(value)
      case None => true
      case Some(url) => !MatchesPairingPattern(url)
  }

  /** The Submit button's `isDisabled`. */
  predicate SubmitDisabled(value: string)
  {
    IsInvalid(value) || value == ""
  }

  /** What `performVerification` does, in order. */
  datatype Effect =
    | CreateClient(identityId: string)
    | AddListener(event: string)
    | PairClient(uri: string)

  /** `performVerification(uri)`: nothing without an identity; otherwise
      the client is created, the four session listeners are registered, and
      the client pairs when the uri is not empty. */
  function PerformVerification(identityId: Option<string>, uri: string): (effects: seq<Effect>)
    ensures identityId.None? <==> effects == []
    ensures (exists u :: PairClient(u) in effects) <==> identityId.Some? && uri != ""
    ensures forall u :: PairClient(u) in effects ==> u == uri
  {
    if identityId.None? then []
    else
      var setup := [CreateClient(identityId.value), AddListener("session_proposal"), AddListener("session_request"),
                    AddListener("session_delete"), AddListener("session_delete")];
      var effects := setup + (if uri != "" then [PairClient(uri)] else []);
      assert uri != "" ==> effects[5] == PairClient(uri);
      effects
  }

  /** `handlePaste` and `handleSubmit`: verification starts only when the
      parsed `uri` is truthy. */
  function StartFromParsed(identityId: Option<string>, parsedUri: Option<string>): seq<Effect>
  {
    if TruthyString(parsedUri) then PerformVerification(identityId, parsedUri.value) else []
  }

  /** The button inside the field: on an empty field it pastes the
      clipboard text (a failed read leaves the field as it is); otherwise it
      clears the field. */
  function InputButton(value: string, clipboard: Option<string>): (next: string)
    // the field is never left filled as it was: it ends empty or holds
    // exactly the text pasted into it
    ensures next == "" || (value == "" && clipboard == Some(next))
    ensures value == "" && clipboard.Some? ==> next == clipboard.value
  {
    if value == "" then
      match clipboard
      case Some(text) => text
      case None => value
    else ""
  }

  // ---------------------------------------------------------------------
  // Properties

  /** The piecewise check is exactly the pattern: a prefix, a 64-character
      alphanumeric topic, the middle part and a 64-character alphanumeric
      key, and nothing else. */
  lemma MatchesIffPairingUri(url: string)
    ensures MatchesPairingPattern(url) <==> IsPairingUri(url)
  {
    var p := |UriPrefix|;
    var m := |UriMiddle|;
    if MatchesPairingPattern(url) {
      var topic := url[p..p + TokenLength];
      var key := url[p + TokenLength + m..];
      assert url == url[..p] + topic + url[p + TokenLength..p + TokenLength + m] + key;
      assert url == PairingUri(topic, key);
    }
    if IsPairingUri(url) {
      var topic, key :| IsToken(topic) && IsToken(key) && url == PairingUri(topic, key);
      assert url[..p] == UriPrefix;
      assert url[p..p + TokenLength] == topic;
      assert url[p + TokenLength..p + TokenLength + m] == UriMiddle;
      assert url[p + TokenLength + m..] == key;
    }
  }

  /** An empty value is never flagged. */
  lemma EmptyNotInvalid()
    ensures !IsInvalid("")
    ensures SubmitDisabled("")
  {
  }

  /** A non-empty value is accepted exactly when it decodes to a pairing
      URI; one that cannot be decoded is flagged. */
  lemma InvalidIff(value: string)
    requires value != ""
    ensures !IsInvalid(value) <==> UriDecode.Decode(value).Some? && IsPairingUri(UriDecode.Decode(value).value)
    ensures UriDecode.Decode(value).None? ==> IsInvalid(value)
  {
    if UriDecode.Decode(value).Some? {
      MatchesIffPairingUri(UriDecode.Decode(value).value);
    }
  }

  /** Submit is enabled exactly for a non-empty value that decodes to a
      pairing URI. */
  lemma SubmitEnabledIff(value: string)
    ensures !SubmitDisabled(value) <==>
      value != "" && UriDecode.Decode(value).Some? && IsPairingUri(UriDecode.Decode(value).value)
  {
    if value != "" {
      InvalidIff(value);
    }
  }

  /** A pairing URI typed as it is, or pasted fully percent-encoded, is
      accepted. */
  lemma PairingUriAccepted(topic: string, key: string)
    requires IsToken(topic) && IsToken(key)
    ensures !IsInvalid(PairingUri(topic, key))
    ensures !IsInvalid(UriDecode.PercentEncode(PairingUri(topic, key)))
  {
    var url := PairingUri(topic, key);
    assert '%' !in url by {
      assert forall i :: 0 <= i < |topic| ==> topic[i] != '%';
      assert forall i :: 0 <= i < |key| ==> key[i] != '%';
    }
    UriDecode.NoEscapeIsIdentity(url);
    UriDecode.DecodeOfPercentEncode(url);
    MatchesIffPairingUri(url);
    assert UriDecode.PercentEncode(url) != [];
  }

  /** A value with a truncated escape is flagged whatever follows. */
  lemma TruncatedEscapeFlagged(value: string)
    requires |value| > 0 && value[0] == '%'
    requires |value| < 3 || !IsHexDigit(value[1]) || !IsHexDigit(value[2])
    ensures IsInvalid(value)
  {
    UriDecode.TruncatedEscapeFails(value);
  }

  /** A filled field is cleared by one press and refilled from the
      clipboard by the next; a failed read leaves it empty. */
  lemma ClearThenPaste(value: string, first: Option<string>, second: Option<string>)
    requires value != ""
    ensures InputButton(value, first) == ""
    ensures InputButton(InputButton(value, first), second) == (if second.Some? then second.value else "")
  {
  }

  /** Pasting or submitting pairs exactly when there is an identity and the
      parsed uri is truthy, and then with that uri; without an identity
      nothing happens. */
  lemma StartPairsOnlyTruthyUri(identityId: Option<string>, parsedUri: Option<string>)
    ensures (exists u :: PairClient(u) in StartFromParsed(identityId, parsedUri)) <==>
      identityId.Some? && TruthyString(parsedUri)
    ensures forall u :: PairClient(u) in StartFromParsed(identityId, parsedUri) ==> parsedUri == Some(u)
    ensures identityId.None? ==> StartFromParsed(identityId, parsedUri) == []
  {
  }
}
