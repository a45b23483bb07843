/** `BigInt(x)` on a string: the abstract operation StringToBigInt of
    section 7.1.14 of ECMA-262. The validators of the verification request
    call `BigInt` only to see whether it throws, so what matters is exactly
    which strings are accepted; the value is computed as well so that the
    parser can be tied to a decimal formatter.

    Grammar (StringIntegerLiteral, without numeric separators):
      StrWhiteSpace_opt
      StrWhiteSpace_opt StrIntegerLiteral StrWhiteSpace_opt
    where StrIntegerLiteral is a signed decimal integer (`+`/`-` allowed) or
    an unsigned `0x`, `0o` or `0b` literal (either letter case). An empty or
    all-whitespace string denotes 0. */
module BigIntSyntax {
  import opened JsValues
  import opened Chars

  /** StrWhiteSpaceChar: WhiteSpace (TAB, VT, FF, ZWNBSP and every
      Space_Separator code point) or LineTerminator (LF, CR, LS, PS). */
  predicate IsStrWhiteSpaceChar(c: char)
  {
    || c == '\t' || c == '\U{000B}' || c == '\U{000C}' || c == '\U{FEFF}'
    || c == ' ' || c == '\U{00A0}' || c == '\U{1680}' || '\U{2000}' <= c <= '\U{200A}'
    || c == '\U{202F}' || c == '\U{205F}' || c == '\U{3000}'
    || c == '\n' || c == '\r' || c == '\U{2028}' || c == '\U{2029}'
  }

  predicate AllWhiteSpace(s: string)
  {
    forall i :: 0 <= i < |s| ==> IsStrWhiteSpaceChar(s[i])
  }

  lemma AllWhiteSpaceConcat(a: string, b: string)
    requires AllWhiteSpace(a) && AllWhiteSpace(b)
    ensures AllWhiteSpace(a + b)
  {
    forall k | 0 <= k < |a + b| ensures IsStrWhiteSpaceChar((a + b)[k]) {
      if k < |a| { assert (a + b)[k] == a[k]; } else { assert (a + b)[k] == b[k - |a|]; }
    }
  }

  /** Digits are never white space, so the literal and the padding around it
      cannot overlap. */
  lemma DigitIsNotWhiteSpace(c: char)
    requires IsHexDigit(c) || c == '+' || c == '-'
    ensures !IsStrWhiteSpaceChar(c)
  {
  }

  /** Drops the leading StrWhiteSpace. */
  function TrimStart(s: string): string
    decreases |s|
  {
    if s != [] && IsStrWhiteSpaceChar(s[0]) then TrimStart(s[1..]) else s
  }

  /** Drops the trailing StrWhiteSpace. */
  function TrimEnd(s: string): string
    decreases |s|
  {
    if s != [] && IsStrWhiteSpaceChar(s[|s| - 1]) then TrimEnd(s[..|s| - 1]) else s
  }

  /** What TrimStart leaves is a suffix that starts with a non-white
      character, and what it dropped was all white. */
  lemma {:induction false} TrimStartSpec(s: string)
    ensures var t := TrimStart(s);
      && |t| <= |s| && t == s[|s| - |t|..]
      && AllWhiteSpace(s[..|s| - |t|])
      && (t == [] || !IsStrWhiteSpaceChar(t[0]))
    decreases |s|
  {
    if s != [] && IsStrWhiteSpaceChar(s[0]) {
      var t := TrimStart(s[1..]);
      TrimStartSpec(s[1..]);
      assert s[..|s| - |t|] == [s[0]] + s[1..][..|s[1..]| - |t|];
    } else {
      assert s[..0] == [];
    }
  }

  /** What TrimEnd leaves is a prefix that ends with a non-white
      character, and what it dropped was all white. */
  lemma {:induction false} TrimEndSpec(s: string)
    ensures var t := TrimEnd(s);
      && |t| <= |s| && t == s[..|t|]
      && AllWhiteSpace(s[|t|..])
      && (t == [] || !IsStrWhiteSpaceChar(t[|t| - 1]))
    decreases |s|
  {
    if s != [] && IsStrWhiteSpaceChar(s[|s| - 1]) {
      var t := TrimEnd(s[..|s| - 1]);
      TrimEndSpec(s[..|s| - 1]);
      assert s[|t|..] == s[..|s| - 1][|t|..] + [s[|s| - 1]];
    } else {
      assert s[|s|..] == [];
    }
  }

  /** The radix named by the letter after a leading `0`, or 0 for none. */
  function PrefixRadix(c: char): nat
  {
    if c == 'x' || c == 'X' then 16
    else if c == 'o' || c == 'O' then 8
    else if c == 'b' || c == 'B' then 2
    else 0
  }

  /** StrIntegerLiteral on a string without surrounding white space; the
      empty string stands for the all-whitespace alternative, whose value is 0. */
  function ParseIntegerLiteral(lit: string): Option<int>
  {
    if lit == [] then Some(0)
    else if |lit| >= 2 && lit[0] == '0' && PrefixRadix(lit[1]) != 0 then
      var radix := PrefixRadix(lit[1]);
      if |lit| > 2 && AllRadixDigits(lit[2..], radix) then Some(DigitsValue(lit[2..], radix)) else None
    else if lit[0] == '+' || lit[0] == '-' then
      if |lit| > 1 && AllRadixDigits(lit[1..], 10) then
        var m := DigitsValue(lit[1..], 10);
        Some(if lit[0] == '-' then -m else m)
      else None
    else if AllRadixDigits(lit, 10) then Some(DigitsValue(lit, 10))
    else None
  }

  /** StringToBigInt: `None` is the `undefined` that makes `BigInt` throw a
      SyntaxError. */
  function StringToBigInt(s: string): Option<int>
  {
    ParseIntegerLiteral(TrimEnd(TrimStart(s)))
  }

  // ---------------------------------------------------------------------
  // The grammar, stated independently of the parser

  /** SignedInteger[~Sep]: optional sign, then at least one decimal digit. */
  ghost predicate IsSignedInteger(lit: string)
  {
    || (|lit| > 0 && AllRadixDigits(lit, 10))
    || (|lit| > 1 && (lit[0] == '+' || lit[0] == '-') && AllRadixDigits(lit[1..], 10))
  }

  /** NonDecimalIntegerLiteral[~Sep]: `0x`/`0X`, `0o`/`0O` or `0b`/`0B`,
      then at least one digit of that radix; no sign. */
  ghost predicate IsNonDecimalIntegerLiteral(lit: string)
  {
    && |lit| > 2 && lit[0] == '0'
    && (|| ((lit[1] == 'x' || lit[1] == 'X') && AllRadixDigits(lit[2..], 16))
        || ((lit[1] == 'o' || lit[1] == 'O') && AllRadixDigits(lit[2..], 8))
        || ((lit[1] == 'b' || lit[1] == 'B') && AllRadixDigits(lit[2..], 2)))
  }

  ghost predicate IsStrIntegerLiteral(lit: string)
  {
    IsSignedInteger(lit) || IsNonDecimalIntegerLiteral(lit)
  }

  /** `s[i..j]` is a StrIntegerLiteral with only white space around it. */
  ghost predicate IsPaddedLiteral(s: string, i: int, j: int)
  {
    0 <= i <= j <= |s| && AllWhiteSpace(s[..i]) && IsStrIntegerLiteral(s[i..j]) && AllWhiteSpace(s[j..])
  }

  /** StringIntegerLiteral: white space alone, or a StrIntegerLiteral
      between two runs of white space. */
  ghost predicate IsStringIntegerLiteral(s: string)
  {
    AllWhiteSpace(s) || exists i, j :: IsPaddedLiteral(s, i, j)
  }

  /** A literal starts and ends with a character that is not white space. */
  lemma LiteralEdges(lit: string)
    requires IsStrIntegerLiteral(lit)
    ensures lit != [] && !IsStrWhiteSpaceChar(lit[0]) && !IsStrWhiteSpaceChar(lit[|lit| - 1])
  {
    if IsNonDecimalIntegerLiteral(lit) {
      assert IsRadixDigit(lit[2..][|lit| - 3], 16);
    } else if |lit| > 1 && (lit[0] == '+' || lit[0] == '-') && AllRadixDigits(lit[1..], 10) {
      assert IsRadixDigit(lit[1..][|lit| - 2], 10);
    } else {
      assert IsRadixDigit(lit[0], 10) && IsRadixDigit(lit[|lit| - 1], 10);
    }
  }

  /** The parser accepts a non-empty trimmed string exactly when it is a
      StrIntegerLiteral. */
  lemma ParseIntegerLiteralAccepts(lit: string)
    requires lit != []
    ensures ParseIntegerLiteral(lit).Some? <==> IsStrIntegerLiteral(lit)
  {
    if |lit| >= 2 && lit[0] == '0' && PrefixRadix(lit[1]) != 0 {
      // the letter after `0` is not a decimal digit, so no SignedInteger
      assert !IsRadixDigit(lit[1], 10);
      assert !IsSignedInteger(lit);
    } else if lit[0] == '+' || lit[0] == '-' {
      assert !IsRadixDigit(lit[0], 10);
    }
  }

  /** Trimming white space off a padded string gives back what was padded. */
  lemma {:induction false} TrimStartOf(w: string, rest: string)
    requires AllWhiteSpace(w)
    requires rest == [] || !IsStrWhiteSpaceChar(rest[0])
    ensures TrimStart(w + rest) == rest
    decreases |w|
  {
    if w != [] {
      assert (w + rest)[0] == w[0];
      assert (w + rest)[1..] == w[1..] + rest;
      TrimStartOf(w[1..], rest);
    } else {
      assert w + rest == rest;
    }
  }

  lemma {:induction false} TrimEndOf(rest: string, w: string)
    requires AllWhiteSpace(w)
    requires rest == [] || !IsStrWhiteSpaceChar(rest[|rest| - 1])
    ensures TrimEnd(rest + w) == rest
    decreases |w|
  {
    if w != [] {
      assert (rest + w)[|rest + w| - 1] == w[|w| - 1];
      assert (rest + w)[..|rest + w| - 1] == rest + w[..|w| - 1];
      TrimEndOf(rest, w[..|w| - 1]);
    } else {
      assert rest + w == rest;
    }
  }

  /** StringToBigInt of a padded string is the parse of what was padded. */
  lemma StringToBigIntOfPadded(w1: string, lit: string, w2: string)
    requires AllWhiteSpace(w1) && AllWhiteSpace(w2)
    requires lit == [] || (!IsStrWhiteSpaceChar(lit[0]) && !IsStrWhiteSpaceChar(lit[|lit| - 1]))
    ensures StringToBigInt(w1 + lit + w2) == ParseIntegerLiteral(lit)
  {
    assert w1 + lit + w2 == w1 + (lit + w2);
    if lit == [] {
      assert lit + w2 == w2;
      TrimStartOf(w1 + w2, []);
      assert w1 + w2 + [] == w1 + w2;
      AllWhiteSpaceConcat(w1, w2);
      TrimEndOf([], []);
    } else {
      assert (lit + w2)[0] == lit[0];
      TrimStartOf(w1, lit + w2);
      TrimEndOf(lit, w2);
    }
  }

  /** Trimming splits every string into padding, a rest and padding. */
  lemma TrimSplit(s: string) returns (i: nat, j: nat)
    ensures 0 <= i <= j <= |s|
    ensures AllWhiteSpace(s[..i]) && AllWhiteSpace(s[j..])
    ensures s[i..j] == TrimEnd(TrimStart(s))
  {
    var t := TrimStart(s);
    var lit := TrimEnd(t);
    TrimStartSpec(s);
    TrimEndSpec(t);
    i, j := |s| - |t|, |s| - |t| + |lit|;
    assert s[i..] == t;
    assert s[i..j] == t[..|lit|];
    assert s[j..] == t[|lit|..];
  }

  lemma GrammarImpliesAccepted(s: string)
    requires IsStringIntegerLiteral(s)
    ensures StringToBigInt(s).Some?
  {
    if AllWhiteSpace(s) {
      StringToBigIntOfPadded(s, [], []);
      assert s + [] + [] == s;
    } else {
      var i, j :| IsPaddedLiteral(s, i, j);
      PaddedLiteralAccepted(s[..i], s[i..j], s[j..]);
      assert s[..i] + s[i..j] + s[j..] == s;
    }
  }

  lemma PaddedLiteralAccepted(w1: string, lit: string, w2: string)
    requires AllWhiteSpace(w1) && IsStrIntegerLiteral(lit) && AllWhiteSpace(w2)
    ensures StringToBigInt(w1 + lit + w2).Some?
  {
    LiteralEdges(lit);
    StringToBigIntOfPadded(w1, lit, w2);
    ParseIntegerLiteralAccepts(lit);
  }

  lemma AcceptedImpliesGrammar(s: string)
    requires StringToBigInt(s).Some?
    ensures IsStringIntegerLiteral(s)
  {
    var i, j := TrimSplit(s);
    var lit := s[i..j];
    if lit == [] {
      assert s == s[..i] + s[j..];
      AllWhiteSpaceConcat(s[..i], s[j..]);
    } else {
      ParseIntegerLiteralAccepts(lit);
      assert IsPaddedLiteral(s, i, j);
    }
  }

  /** BigInt(s) succeeds exactly when s is a StringIntegerLiteral. */
  lemma StringToBigIntAcceptsGrammar(s: string)
    ensures StringToBigInt(s).Some? <==> IsStringIntegerLiteral(s)
  {
    if StringToBigInt(s).Some? {
      AcceptedImpliesGrammar(s);
    }
    if IsStringIntegerLiteral(s) {
      GrammarImpliesAccepted(s);
    }
  }

  // ---------------------------------------------------------------------
  // Decimal formatting, the partner that the parser inverts

  /** The numeral `BigInt.prototype.toString()` produces: a `-` sign for
      negative values. */
  function IntToDecimal(n: int): string
  {
    if n < 0 then "-" + NatToDecimal(-n) else NatToDecimal(n)
  }

  /** A decimal digit string parses to its value. */
  lemma ParseDecimal(d: string)
    requires |d| > 0 && AllRadixDigits(d, 10)
    ensures ParseIntegerLiteral(d) == Some(DigitsValue(d, 10))
  {
    assert IsRadixDigit(d[0], 10);
    assert d[0] != '+' && d[0] != '-';
    if |d| >= 2 {
      assert IsRadixDigit(d[1], 10);
      assert PrefixRadix(d[1]) == 0;
    }
  }

  /** A `-` followed by decimal digits parses to the negated value. */
  lemma ParseNegativeDecimal(d: string)
    requires |d| > 0 && AllRadixDigits(d, 10)
    ensures ParseIntegerLiteral("-" + d) == Some(-DigitsValue(d, 10))
  {
    var lit := "-" + d;
    assert lit[0] == '-' && lit[0] != '0';
    assert lit[1..] == d;
  }

  /** A numeral without surrounding white space is parsed as it stands. */
  lemma StringToBigIntOfLiteral(lit: string)
    requires lit != [] && !IsStrWhiteSpaceChar(lit[0]) && !IsStrWhiteSpaceChar(lit[|lit| - 1])
    ensures StringToBigInt(lit) == ParseIntegerLiteral(lit)
  {
    StringToBigIntOfPadded([], lit, []);
    assert [] + lit + [] == lit;
  }

  /** Every integer, written in decimal, is read back by BigInt unchanged:
      there is no range or sign restriction. */
  lemma DecimalRoundTrip(n: int)
    ensures StringToBigInt(IntToDecimal(n)) == Some(n)
  {
    var m: nat := if n < 0 then -n else n;
    var d := NatToDecimal(m);
    NatToDecimalValue(m);
    assert IsRadixDigit(d[0], 10) && IsRadixDigit(d[|d| - 1], 10);
    DigitIsNotWhiteSpace(d[0]);
    DigitIsNotWhiteSpace(d[|d| - 1]);
    if n < 0 {
      var s := "-" + d;
      assert s[|s| - 1] == d[|d| - 1];
      DigitIsNotWhiteSpace(s[0]);
      StringToBigIntOfLiteral(s);
      ParseNegativeDecimal(d);
    } else {
      StringToBigIntOfLiteral(d);
      ParseDecimal(d);
    }
  }

  /** A `0x`, `0o` or `0b` literal is parsed in its radix. */
  lemma ParseNonDecimal(x: char, digits: string)
    requires PrefixRadix(x) != 0 && |digits| > 0 && AllRadixDigits(digits, PrefixRadix(x))
    ensures ParseIntegerLiteral(['0', x] + digits) == Some(DigitsValue(digits, PrefixRadix(x)))
  {
    var lit := ['0', x] + digits;
    assert lit[0] == '0' && lit[1] == x && lit[2..] == digits;
  }

  /** A `0x`, `0o` or `0b` literal between white space is accepted, with
      the value of its digits in that radix. */
  lemma NonDecimalLiteralAccepted(w1: string, x: char, digits: string, w2: string)
    requires AllWhiteSpace(w1) && AllWhiteSpace(w2)
    requires PrefixRadix(x) != 0 && |digits| > 0 && AllRadixDigits(digits, PrefixRadix(x))
    ensures StringToBigInt(w1 + ['0', x] + digits + w2) == Some(DigitsValue(digits, PrefixRadix(x)))
  {
    var lit := ['0', x] + digits;
    var last := digits[|digits| - 1];
    assert lit[|lit| - 1] == last;
    assert IsRadixDigit(last, PrefixRadix(x));
    DigitIsNotWhiteSpace(last);
    DigitIsNotWhiteSpace('0');
    StringToBigIntOfPadded(w1, lit, w2);
    assert w1 + ['0', x] + digits + w2 == w1 + lit + w2;
    ParseNonDecimal(x, digits);
  }

  /** A fraction is rejected. */
  lemma RejectsFraction()
    ensures StringToBigInt("1.5") == None
  {
    StringToBigIntOfLiteral("1.5");
    assert !IsRadixDigit("1.5"[1], 10);
  }

  /** An exponent is rejected. */
  lemma RejectsExponent()
    ensures StringToBigInt("1e3") == None
  {
    StringToBigIntOfLiteral("1e3");
    assert !IsRadixDigit("1e3"[1], 10);
  }

  /** A sign is not allowed on a hexadecimal literal. */
  lemma RejectsSignedHex()
    ensures StringToBigInt("-0x1") == None
  {
    StringToBigIntOfLiteral("-0x1");
    assert !IsRadixDigit("-0x1"[1..][1], 10);
  }

  /** Letters are rejected. */
  lemma RejectsWord()
    ensures StringToBigInt("not-a-number") == None
  {
    StringToBigIntOfLiteral("not-a-number");
    assert !IsRadixDigit("not-a-number"[0], 10);
  }
}
