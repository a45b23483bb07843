/** `decodeURIComponent` (the Decode abstract operation of ECMAScript,
    section 19.2.6 of ECMA-262, with an empty reserved set): every `%XY`
    escape is an octet, an octet below 0x80 is its character, and a lead
    octet with two, three or four leading one bits starts a UTF-8 sequence
    whose continuation octets must follow as escapes. A malformed escape, a
    truncated or invalid sequence, an overlong form, a surrogate or a code
    point above U+10FFFF is a URIError (`None`).

    Strings are sequences of Unicode scalar values here: a decoded
    supplementary character is one `char`, where JavaScript produces two
    UTF-16 code units. */
module UriDecode {
  import opened JsValues
  import opened Chars

  /** One decoded escape sequence: the character and how many input
      characters it took. */
  datatype Escape = Escape(c: char, length: nat)

  /** The octet of the escape `%XY` at position `i`. */
  function OctetAt(s: string, i: nat): (b: Option<nat>)
    ensures b.Some? ==> b.value < 256 && i + 3 <= |s| && s[i] == '%'
  {
    if i + 3 <= |s| && s[i] == '%' && IsHexDigit(s[i + 1]) && IsHexDigit(s[i + 2])
    then Some(HexValue(s[i + 1]) * 16 + HexValue(s[i + 2]))
    else None
  }

  /** The number of leading one bits of an octet. */
  function LeadingOnes(b: nat): (n: nat)
    requires b < 256
    ensures n <= 8
  {
    if b < 0x80 then 0
    else if b < 0xC0 then 1
    else if b < 0xE0 then 2
    else if b < 0xF0 then 3
    else if b < 0xF8 then 4
    else if b < 0xFC then 5
    else if b < 0xFE then 6
    else if b < 0xFF then 7
    else 8
  }

  /** The octets of the escapes at positions 3j, 3(j+1), ..., 3(n-1). */
  function EscapedOctets(s: string, j: nat, n: nat): (octets: Option<seq<nat>>)
    ensures octets.Some? ==> |octets.value| == if j < n then n - j else 0
    ensures octets.Some? ==> forall k :: 0 <= k < |octets.value| ==> octets.value[k] < 256
    decreases n - j
  {
    if j >= n then Some([])
    else match OctetAt(s, 3 * j)
      case None => None
      case Some(b) =>
        match EscapedOctets(s, j + 1, n)
        case None => None
        case Some(rest) => Some([b] + rest)
  }

  predicate IsContinuation(b: nat)
  {
    0x80 <= b < 0xC0
  }

  /** The code point a UTF-8 sequence of two to four octets encodes, or
      `None` when it is not the shortest well-formed encoding of a Unicode
      scalar value. */
  function Utf8Decode(octets: seq<nat>): (c: Option<char>)
    requires 2 <= |octets| <= 4
    requires forall k :: 0 <= k < |octets| ==> octets[k] < 256
    requires LeadingOnes(octets[0]) == |octets|
  {
    if exists k :: 1 <= k < |octets| && !IsContinuation(octets[k]) then None
    else if |octets| == 2 then
      var v := (octets[0] - 0xC0) * 0x40 + (octets[1] - 0x80);
      if 0x80 <= v < 0x800 then Some(v as char) else None
    else if |octets| == 3 then
      var v := (octets[0] - 0xE0) * 0x1000 + (octets[1] - 0x80) * 0x40 + (octets[2] - 0x80);
      if 0x800 <= v < 0x1_0000 && !(0xD800 <= v < 0xE000) then Some(v as char) else None
    else
      var v := (octets[0] - 0xF0) * 0x4_0000 + (octets[1] - 0x80) * 0x1000 + (octets[2] - 0x80) * 0x40 + (octets[3] - 0x80);
      if 0x1_0000 <= v < 0x11_0000 then Some(v as char) else None
  }

  /** The escape sequence at the start of `s`, which starts with '%'. */
  function DecodeEscape(s: string): (e: Option<Escape>)
    requires |s| > 0 && s[0] == '%'
    ensures e.Some? ==> 3 <= e.value.length <= |s|
  {
    match OctetAt(s, 0)
    case None => None
    case Some(b) =>
      var n := LeadingOnes(b);
      if n == 0 then Some(Escape(b as char, 3))
      else if n == 1 || n > 4 || |s| < 3 * n then None
      else
        match EscapedOctets(s, 1, n)
        case None => None
        case Some(rest) =>
          match Utf8Decode([b] + rest)
          case None => None
          case Some(c) => Some(Escape(c, 3 * n))
  }

  /** `decodeURIComponent(s)`, with `None` for the URIError. */
  function Decode(s: string): (r: Option<string>)
    ensures r.Some? ==> |r.value| <= |s|
    decreases |s|
  {
    if s == [] then Some([])
    else if s[0] != '%' then
      match Decode(s[1..])
      case None => None
      case Some(t) => Some([s[0]] + t)
    else
      match DecodeEscape(s)
      case None => None
      case Some(e) =>
        match Decode(s[e.length..])
        case None => None
        case Some(t) => Some([e.c] + t)
  }

  // ---------------------------------------------------------------------
  // The encoder that Decode inverts

  /** The UTF-8 encoding of a character. */
  function Utf8Encode(c: char): (octets: seq<nat>)
    ensures 1 <= |octets| <= 4
    ensures forall k :: 0 <= k < |octets| ==> octets[k] < 256
  {
    var v := c as int;
    if v < 0x80 then [v]
    else if v < 0x800 then [0xC0 + v / 0x40, 0x80 + v % 0x40]
    else if v < 0x1_0000 then [0xE0 + v / 0x1000, 0x80 + (v / 0x40) % 0x40, 0x80 + v % 0x40]
    else [0xF0 + v / 0x4_0000, 0x80 + (v / 0x1000) % 0x40, 0x80 + (v / 0x40) % 0x40, 0x80 + v % 0x40]
  }

  /** `%XY` for one octet, with upper-case digits. */
  function PercentOctet(b: nat): (e: string)
    requires b < 256
    ensures |e| == 3
  {
    ['%', DigitChar(b / 16), DigitChar(b % 16)]
  }

  function PercentOctets(octets: seq<nat>): (e: string)
    requires forall k :: 0 <= k < |octets| ==> octets[k] < 256
    ensures |e| == 3 * |octets|
  {
    if octets == [] then [] else PercentOctet(octets[0]) + PercentOctets(octets[1..])
  }

  /** Every character written as the escapes of its UTF-8 octets, as
      `encodeURIComponent` does for the characters it escapes. */
  function PercentEncode(t: string): (e: string)
  {
    if t == [] then [] else PercentOctets(Utf8Encode(t[0])) + PercentEncode(t[1..])
  }

  // ---------------------------------------------------------------------
  // Properties

  /** A string without '%' decodes to itself. */
  lemma {:induction false} NoEscapeIsIdentity(s: string)
    requires '%' !in s
    ensures Decode(s) == Some(s)
    decreases |s|
  {
    if s != [] {
      assert '%' !in s[1..] by {
        assert forall k :: 0 <= k < |s[1..]| ==> s[1..][k] == s[k + 1];
      }
      NoEscapeIsIdentity(s[1..]);
      assert [s[0]] + s[1..] == s;
    }
  }

  lemma OctetAtPercent(b: nat, rest: string)
    requires b < 256
    ensures OctetAt(PercentOctet(b) + rest, 0) == Some(b)
  {
    var e := PercentOctet(b) + rest;
    assert e[1] == DigitChar(b / 16) && e[2] == DigitChar(b % 16);
  }

  /** The octet escapes at positions 3, 6, ... are read back. */
  lemma {:induction false} EscapedOctetsOf(octets: seq<nat>, rest: string, j: nat)
    requires forall k :: 0 <= k < |octets| ==> octets[k] < 256
    requires j <= |octets|
    ensures EscapedOctets(PercentOctets(octets) + rest, j, |octets|) == Some(octets[j..])
    decreases |octets| - j
  {
    var s := PercentOctets(octets) + rest;
    if j < |octets| {
      PercentOctetsSplit(octets, j);
      var tail := PercentOctets(octets[j + 1..]) + rest;
      assert s == PercentOctets(octets[..j]) + PercentOctet(octets[j]) + tail;
      assert s[3 * j..] == PercentOctet(octets[j]) + tail;
      OctetAtPercent(octets[j], tail);
      assert OctetAt(s, 3 * j) == OctetAt(s[3 * j..], 0);
      EscapedOctetsOf(octets, rest, j + 1);
      assert [octets[j]] + octets[j + 1..] == octets[j..];
    } else {
      assert octets[j..] == [];
    }
  }

  lemma {:induction false} PercentOctetsSplit(octets: seq<nat>, j: nat)
    requires forall k :: 0 <= k < |octets| ==> octets[k] < 256
    requires j < |octets|
    ensures PercentOctets(octets) == PercentOctets(octets[..j]) + PercentOctet(octets[j]) + PercentOctets(octets[j + 1..])
    decreases j
  {
    if j > 0 {
      PercentOctetsSplit(octets[1..], j - 1);
      assert octets[1..][..j - 1] == octets[1..j];
      assert octets[1..][j - 1] == octets[j];
      assert octets[1..][j..] == octets[j + 1..];
      assert octets[..j] == [octets[0]] + octets[1..j];
    } else {
      assert octets[..0] == [];
      assert octets[1..] == octets[j + 1..];
    }
  }

  lemma LeadingOnesOfLead(c: char)
    ensures var octets := Utf8Encode(c);
      LeadingOnes(octets[0]) == (if |octets| == 1 then 0 else |octets|)
  {
  }

  lemma Utf8RoundTrip2(c: char)
    requires 0x80 <= c as int < 0x800
    ensures Utf8Decode(Utf8Encode(c)) == Some(c)
  {
    var v := c as int;
    var octets := Utf8Encode(c);
    assert octets == [0xC0 + v / 0x40, 0x80 + v % 0x40];
    assert IsContinuation(octets[1]);
    assert (octets[0] - 0xC0) * 0x40 + (octets[1] - 0x80) == v;
  }

  lemma Utf8RoundTrip3(c: char)
    requires 0x800 <= c as int < 0x1_0000
    ensures Utf8Decode(Utf8Encode(c)) == Some(c)
  {
    var v := c as int;
    var octets := Utf8Encode(c);
    var q := v / 0x40;
    assert v == q * 0x40 + v % 0x40;
    assert q / 0x40 == v / 0x1000;
    assert q == (q / 0x40) * 0x40 + q % 0x40;
    assert octets == [0xE0 + v / 0x1000, 0x80 + q % 0x40, 0x80 + v % 0x40];
    assert IsContinuation(octets[1]) && IsContinuation(octets[2]);
    assert (octets[0] - 0xE0) * 0x1000 + (octets[1] - 0x80) * 0x40 + (octets[2] - 0x80) == v;
  }

  lemma Utf8RoundTrip4(c: char)
    requires 0x1_0000 <= c as int
    ensures Utf8Decode(Utf8Encode(c)) == Some(c)
  {
    var v := c as int;
    var octets := Utf8Encode(c);
    var q := v / 0x40;
    var q2 := q / 0x40;
    assert v == q * 0x40 + v % 0x40;
    assert q == q2 * 0x40 + q % 0x40;
    assert q2 == v / 0x1000;
    assert q2 == (q2 / 0x40) * 0x40 + q2 % 0x40;
    assert q2 / 0x40 == v / 0x4_0000;
    assert octets == [0xF0 + v / 0x4_0000, 0x80 + q2 % 0x40, 0x80 + q % 0x40, 0x80 + v % 0x40];
    assert IsContinuation(octets[1]) && IsContinuation(octets[2]) && IsContinuation(octets[3]);
    assert (octets[0] - 0xF0) * 0x4_0000 + (octets[1] - 0x80) * 0x1000 + (octets[2] - 0x80) * 0x40 + (octets[3] - 0x80) == v;
  }

  /** Decoding the UTF-8 encoding of a multi-octet character gives the
      character back. */
  lemma Utf8RoundTrip(c: char)
    requires |Utf8Encode(c)| >= 2
    ensures LeadingOnes(Utf8Encode(c)[0]) == |Utf8Encode(c)|
    ensures Utf8Decode(Utf8Encode(c)) == Some(c)
  {
    LeadingOnesOfLead(c);
    if c as int < 0x800 {
      Utf8RoundTrip2(c);
    } else if c as int < 0x1_0000 {
      Utf8RoundTrip3(c);
    } else {
      Utf8RoundTrip4(c);
    }
  }

  /** The escapes of one character's UTF-8 encoding decode to it. */
  lemma DecodeEscapeOf(c: char, rest: string)
    ensures var e := PercentOctets(Utf8Encode(c));
      DecodeEscape(e + rest) == Some(Escape(c, |e|))
  {
    var octets := Utf8Encode(c);
    var s := PercentOctets(octets) + rest;
    PercentOctetsSplit(octets, 0);
    assert octets[..0] == [];
    assert s == PercentOctet(octets[0]) + (PercentOctets(octets[1..]) + rest);
    OctetAtPercent(octets[0], PercentOctets(octets[1..]) + rest);
    LeadingOnesOfLead(c);
    if |octets| >= 2 {
      EscapedOctetsOf(octets, rest, 1);
      assert [octets[0]] + octets[1..] == octets;
      Utf8RoundTrip(c);
    }
  }

  /** `decodeURIComponent` inverts the percent-encoding of every string. */
  lemma {:induction false} DecodeOfPercentEncode(t: string)
    ensures Decode(PercentEncode(t)) == Some(t)
    decreases |t|
  {
    if t != [] {
      var e := PercentOctets(Utf8Encode(t[0]));
      var s := PercentEncode(t);
      assert s == e + PercentEncode(t[1..]);
      DecodeEscapeOf(t[0], PercentEncode(t[1..]));
      assert s[|e|..] == PercentEncode(t[1..]);
      DecodeOfPercentEncode(t[1..]);
      assert [t[0]] + t[1..] == t;
    }
  }

  /** A '%' without two hexadecimal digits after it is a URIError. */
  lemma TruncatedEscapeFails(s: string)
    requires |s| > 0 && s[0] == '%'
    requires |s| < 3 || !IsHexDigit(s[1]) || !IsHexDigit(s[2])
    ensures Decode(s) == None
  {
  }

  /** A continuation octet cannot start a sequence: "%80" is a URIError. */
  lemma StrayContinuationFails()
    ensures Decode("%80") == None
  {
    assert OctetAt("%80", 0) == Some(0x80);
  }

  /** The overlong two-octet form of NUL, "%C0%80", is a URIError. */
  lemma OverlongFails()
    ensures Decode("%C0%80") == None
  {
    var s := "%C0%80";
    assert OctetAt(s, 0) == Some(0xC0);
    assert OctetAt(s, 3) == Some(0x80);
    assert EscapedOctets(s, 2, 2) == Some([]);
    var rest := EscapedOctets(s, 1, 2);
    assert rest.Some? && rest.value == [0x80];
  }

  /** An encoded surrogate, "%ED%A0%80" (U+D800), is a URIError. */
  lemma SurrogateFails()
    ensures Decode("%ED%A0%80") == None
  {
    var s := "%ED%A0%80";
    assert OctetAt(s, 0) == Some(0xED);
    assert OctetAt(s, 3) == Some(0xA0);
    assert OctetAt(s, 6) == Some(0x80);
    assert EscapedOctets(s, 3, 3) == Some([]);
    var last := EscapedOctets(s, 2, 3);
    assert last.Some? && last.value == [0x80];
    var rest := EscapedOctets(s, 1, 3);
    assert rest.Some? && rest.value == [0xA0, 0x80];
  }
}
