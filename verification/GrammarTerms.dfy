/**
 The tokens of RFC 8259 once more: numbers by the automaton that reads them a
 character at a time, characters by their code points.
 */
module GrammarTerms {
  import opened Common
  import opened JsonText
  import opened JsonGrammar

  // ----- characters -----

  /** ws: space, horizontal tab, line feed, carriage return (section 2). */
  lemma {:induction false} RfcBlanksAre(t: string)
    ensures RfcBlanks(t) <==> forall i :: 0 <= i < |t| ==> t[i] as int in {0x20, 0x09, 0x0A, 0x0D}
  {
    if forall i :: 0 <= i < |t| ==> t[i] as int in {0x20, 0x09, 0x0A, 0x0D} {
      forall i | 0 <= i < |t| ensures t[i] in {' ', '\t', '\n',
        '\r'} { assert t[i] as int in {0x20, 0x09, 0x0A, 0x0D}; }
    }
  }

  /** unescaped = %x20-21 / %x23-5B / %x5D-10FFFF (section 7). */
  lemma {:induction false} UnescapedIs(c: char)
    ensures RfcUnescaped(c) <==>
      var n := c as int; 0x20 <= n <= 0x21 || 0x23 <= n <= 0x5B || 0x5D <= n <= 0x10FFFF
  {
  }

  // ----- numbers -----

  /** Where the automaton stands: what of a number has been read. */
  datatype State = Begun | Signed | Zero | Whole | Point | Fraction | Exponent | ExponentSign | ExponentDigits | Failed

  function Step(s: State, c: char): State {
    var n := c as int;
    var digit := 0x30 <= n <= 0x39;
    match s
    case Begun => if n == 0x2D then Signed else if n == 0x30 then Zero else if digit then Whole else Failed
    case Signed => if n == 0x30 then Zero else if digit then Whole else Failed
    case Zero => if n == 0x2E then Point else if n == 0x65 || n == 0x45 then Exponent else Failed
    case Whole =>
      if digit then Whole else if n == 0x2E then Point else if n == 0x65 || n == 0x45 then Exponent else Failed
    case Point => if digit then Fraction else Failed
    case Fraction => if digit then Fraction else if n == 0x65 || n == 0x45 then Exponent else Failed
    case Exponent => if n == 0x2B || n == 0x2D then ExponentSign else if digit then ExponentDigits else Failed
    case ExponentSign => if digit then ExponentDigits else Failed
    case ExponentDigits => if digit then ExponentDigits else Failed
    case Failed => Failed
  }

  function Run(s: State, t: string): State
    decreases |t|
  {
    if t == "" then s else Run(Step(s, t[0]), t[1..])
  }

  predicate Accepts(s: State, t: string) { Run(s, t) in {Zero, Whole, Fraction, ExponentDigits} }

  predicate MaybeDigits(t: string) { t == "" || Digits(t) }

  lemma {:induction false} DigitsMore(t: string)
    ensures t != "" ==> (MaybeDigits(t) <==> '0' <= t[0] <= '9' && MaybeDigits(t[1..]))
    ensures Digits(t) <==> t != "" && '0' <= t[0] <= '9' && MaybeDigits(t[1..])
  {
    if t != "" && '0' <= t[0] <= '9' && MaybeDigits(t[1..]) {
      forall i | 0 <= i < |t| ensures '0' <= t[i] <= '9' { if i > 0 { assert t[1..][i - 1] == t[i]; } }
    }
    if Digits(t) { forall i | 0 <= i < |t| - 1 ensures '0' <= t[1..][i] <= '9' { assert t[1..][i] == t[i + 1]; } }
  }

  lemma {:induction false} FailedStays(t: string)
    ensures !Accepts(Failed, t)
  {
    if t != "" { FailedStays(t[1..]); }
  }

  lemma {:induction false} AfterExponentDigits(t: string)
    ensures Accepts(ExponentDigits, t) <==> MaybeDigits(t)
  {
    hide Digits;
    DigitsMore(t);
    if t != "" {
      AfterExponentDigits(t[1..]);
      FailedStays(t[1..]);
    }
  }

  lemma {:induction false} AfterExponentSign(t: string)
    ensures Accepts(ExponentSign, t) <==> Digits(t)
  {
    hide Digits;
    DigitsMore(t);
    if t != "" {
      AfterExponentDigits(t[1..]);
      FailedStays(t[1..]);
    }
  }

  lemma {:induction false} AfterExponent(t: string)
    ensures Accepts(Exponent, t) <==> Digits(t) || (t != "" && t[0] in {'+', '-'} && Digits(t[1..]))
  {
    hide Digits;
    DigitsMore(t);
    if t != "" {
      AfterExponentSign(t[1..]);
      AfterExponentDigits(t[1..]);
      FailedStays(t[1..]);
    }
  }

  /** The part from the exponent mark on. */
  lemma {:induction false} ExponentIs(t: string)
    ensures RfcExponent(t) <==> t == "" || ((t[0] == 'e' || t[0] == 'E') && Accepts(Exponent, t[1..]))
  {
    hide Digits, Accepts;
    if t != "" {
      AfterExponent(t[1..]);
      if |t| > 1 { assert t[1..][1..] == t[2..]; }
    }
  }

  /** Digits, and then perhaps an exponent. */
  ghost predicate DigitsExponent(t: string) {
    exists k :: 0 <= k <= |t| && MaybeDigits(t[..k]) && RfcExponent(t[k..])
  }

  /** A stretch of digits in front of the first `k` characters, or one character less. */
  lemma {:induction false} DigitFirst(t: string, k: nat)
    requires 0 < k <= |t|
    ensures MaybeDigits(t[..k]) <==> '0' <= t[0] <= '9' && MaybeDigits(t[1..][..k - 1])
    ensures t[1..][k - 1..] == t[k..]
  {
    hide Digits, MaybeDigits;
    DigitsMore(t[..k]);
    assert t[..k][1..] == t[1..][..k - 1];
  }

  lemma {:induction false} NoDigits(t: string)
    ensures MaybeDigits(t[..0]) && t[0..] == t
  {
  }

  lemma {:induction false} DigitsExponentMore(t: string)
    ensures DigitsExponent(t) <==>
      RfcExponent(t) || (t != "" && '0' <= t[0] <= '9' && DigitsExponent(t[1..]))
  {
    hide RfcExponent, Digits, MaybeDigits;
    NoDigits(t);
    if k :| 0 <= k <= |t| && MaybeDigits(t[..k]) && RfcExponent(t[k..]) {
      if k > 0 { DigitFirst(t, k); }
    }
    if t != "" && '0' <= t[0] <= '9' && DigitsExponent(t[1..]) {
      var k :| 0 <= k <= |t[1..]| && MaybeDigits(t[1..][..k]) && RfcExponent(t[1..][k..]);
      DigitFirst(t, k + 1);
    }
  }

  lemma {:induction false} AfterFraction(t: string)
    ensures Accepts(Fraction, t) <==> DigitsExponent(t)
  {
    hide DigitsExponent;
    DigitsExponentMore(t);
    ExponentIs(t);
    hide RfcExponent;
    if t != "" {
      AfterFraction(t[1..]);
      FailedStays(t[1..]);
    }
  }

  /** A fraction and an exponent, either of them perhaps missing. */
  ghost predicate Tail(t: string) {
    RfcExponent(t) || (|t| > 1 && t[0] == '.' && '0' <= t[1] <= '9' && DigitsExponent(t[2..]))
  }

  lemma {:induction false} AfterPoint(t: string)
    ensures Accepts(Point, t) <==> t != "" && '0' <= t[0] <= '9' && DigitsExponent(t[1..])
  {
    hide DigitsExponent;
    if t != "" {
      AfterFraction(t[1..]);
      FailedStays(t[1..]);
    }
  }

  lemma {:induction false} AfterZero(t: string)
    ensures Accepts(Zero, t) <==> Tail(t)
  {
    hide DigitsExponent;
    ExponentIs(t);
    hide RfcExponent;
    if t != "" {
      FailedStays(t[1..]);
      AfterPoint(t[1..]);
      if |t| > 1 { assert t[1..][1..] == t[2..]; }
    }
  }

  /** Digits and a tail. */
  ghost predicate DigitsTail(t: string) { exists k :: 0 <= k <= |t| && MaybeDigits(t[..k]) && Tail(t[k..]) }

  lemma {:induction false} DigitsTailMore(t: string)
    ensures DigitsTail(t) <==> Tail(t) || (t != "" && '0' <= t[0] <= '9' && DigitsTail(t[1..]))
  {
    hide Tail, Digits, MaybeDigits;
    NoDigits(t);
    if k :| 0 <= k <= |t| && MaybeDigits(t[..k]) && Tail(t[k..]) {
      if k > 0 { DigitFirst(t, k); }
    }
    if t != "" && '0' <= t[0] <= '9' && DigitsTail(t[1..]) {
      var k :| 0 <= k <= |t[1..]| && MaybeDigits(t[1..][..k]) && Tail(t[1..][k..]);
      DigitFirst(t, k + 1);
    }
  }

  lemma {:induction false} AfterWhole(t: string)
    ensures Accepts(Whole, t) <==> DigitsTail(t)
  {
    hide DigitsTail;
    DigitsTailMore(t);
    AfterZero(t);
    hide Tail;
    if t != "" {
      AfterWhole(t[1..]);
      FailedStays(t[1..]);
    }
  }

  /** A number without its sign. */
  ghost predicate Unsigned(t: string) {
    exists whole, fraction, exponent ::
      t == whole + fraction + exponent && RfcInt(whole) && RfcFraction(fraction) && RfcExponent(exponent)
  }

  lemma {:induction false} TailIs(t: string)
    ensures Tail(t) <==> exists fraction, exponent ::
      t == fraction + exponent && RfcFraction(fraction) && RfcExponent(exponent)
  {
    hide Digits, RfcExponent;
    if RfcExponent(t) { assert t == "" + t && RfcFraction(""); }
    if |t| > 1 && t[0] == '.' && '0' <= t[1] <= '9' && DigitsExponent(t[2..]) {
      var k :| 0 <= k <= |t[2..]| && MaybeDigits(t[2..][..k]) && RfcExponent(t[2..][k..]);
      var fraction, exponent := t[..k + 2], t[k + 2..];
      assert t == fraction + exponent && exponent == t[2..][k..] && fraction[1..][1..] == t[2..][..k];
      DigitsMore(fraction[1..]);
      assert RfcFraction(fraction);
    }
    if fraction, exponent :| t == fraction + exponent && RfcFraction(fraction) && RfcExponent(exponent) {
      if fraction == "" {
        assert t == exponent;
      } else {
        DigitsMore(fraction[1..]);
        assert t[2..][..|fraction| - 2] == fraction[1..][1..] && t[2..][|fraction| - 2..] == exponent;
        assert t[0] == fraction[0] && t[1] == fraction[1..][0];
      }
    }
  }

  lemma {:induction false} UnsignedIs(t: string)
    ensures Unsigned(t) <==> Accepts(Signed, t)
  {
    hide Digits, RfcFraction, RfcExponent, Tail;
    if t != "" {
      AfterZero(t[1..]);
      AfterWhole(t[1..]);
      FailedStays(t[1..]);
    }
    if whole, fraction, exponent :|
      t == whole + fraction + exponent && RfcInt(whole) && RfcFraction(fraction) && RfcExponent(exponent) {
      DigitsMore(whole);
      var rest := fraction + exponent;
      TailIs(rest);
      assert t[0] == whole[0] && t[1..] == whole[1..] + rest;
      if whole[0] == '0' {
        assert t[1..] == rest;
      } else {
        assert t[1..][..|whole| - 1] == whole[1..] && t[1..][|whole| - 1..] == rest;
      }
    }
    if Accepts(Signed, t) { SignedParts(t); }
  }

  lemma {:induction false} SignedParts(t: string)
    requires Accepts(Signed, t)
    ensures Unsigned(t)
  {
    hide Digits, RfcFraction, RfcExponent, Tail;
    AfterZero(t[1..]);
    AfterWhole(t[1..]);
    FailedStays(t[1..]);
    var k := 0;
    if t[0] != '0' { k :| 0 <= k <= |t[1..]| && MaybeDigits(t[1..][..k]) && Tail(t[1..][k..]); }
    assert t[1..][0..] == t[1..] && MaybeDigits(t[1..][..0]);
    var whole, rest := t[..k + 1], t[1..][k..];
    assert whole[1..] == t[1..][..k] && rest == t[k + 1..];
    DigitsMore(whole);
    TailIs(rest);
    var fraction, exponent :| rest == fraction + exponent && RfcFraction(fraction) && RfcExponent(exponent);
    assert t == whole + fraction + exponent;
  }

  /** The grammar's numbers are those the automaton reads. */
  lemma {:induction false} NumberIs(t: string)
    ensures RfcNumber(t) <==> Accepts(Begun, t)
  {
    hide RfcInt, RfcFraction, RfcExponent;
    UnsignedIs(t);
    if t != "" {
      UnsignedIs(t[1..]);
      FailedStays(t[1..]);
    }
    SignOrNot(t);
    hide Unsigned;
  }

  lemma {:induction false} SignOrNot(t: string)
    ensures RfcNumber(t) <==> Unsigned(t) || (t != "" && t[0] == '-' && Unsigned(t[1..]))
  {
    if RfcNumber(t) { SignLeft(t); }
    if Unsigned(t) { SignPut(t, "", t); }
    if t != "" && t[0] == '-' && Unsigned(t[1..]) { SignPut(t, "-", t[1..]); }
  }

  lemma {:induction false} SignLeft(t: string)
    requires RfcNumber(t)
    ensures Unsigned(t) || (t != "" && t[0] == '-' && Unsigned(t[1..]))
  {
    hide RfcInt, RfcFraction, RfcExponent;
    var sign, whole, fraction, exponent :|
      && t == sign + whole + fraction + exponent && sign in {"", "-"}
      && RfcInt(whole) && RfcFraction(fraction) && RfcExponent(exponent);
    var rest := whole + fraction + exponent;
    assert Unsigned(rest);
    assert t == sign + rest;
    assert sign == "" ==> t == rest;
    assert sign == "-" ==> t[1..] == rest;
  }

  lemma {:induction false} SignPut(t: string, sign: string, rest: string)
    requires t == sign + rest && sign in {"", "-"} && Unsigned(rest)
    ensures RfcNumber(t)
  {
    hide RfcInt, RfcFraction, RfcExponent;
    var whole, fraction, exponent :|
      rest == whole + fraction + exponent && RfcInt(whole) && RfcFraction(fraction) && RfcExponent(exponent);
    assert t == sign + whole + fraction + exponent;
  }
}
