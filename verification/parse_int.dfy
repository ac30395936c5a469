/**
  The global `parseInt(string)` called without a radix, as the add-item form uses it
  on the quantity field, and the form's `parseInt(...) || 0` coercion.
 */
module IntParsing {
  import opened Wrappers
  import opened Text

  predicate IsDecimalDigit(c: char) {
    '0' <= c <= '9'
  }

  /** A digit of radix 16 when `hex` holds, of radix 10 otherwise. */
  predicate IsRadixDigit(c: char, hex: bool) {
    IsDecimalDigit(c) || (hex && ('a' <= c <= 'f' || 'A' <= c <= 'F'))
  }

  function Radix(hex: bool): nat {
    if hex then 16 else 10
  }

  function DigitValue(c: char, hex: bool): (d: nat)
    requires IsRadixDigit(c, hex)
    ensures d < Radix(hex)
  {
    if IsDecimalDigit(c) then c as int - '0' as int
    else if 'a' <= c <= 'f' then c as int - 'a' as int + 10
    else c as int - 'A' as int + 10
  }

  /** The length of the longest prefix of `s` made of radix digits. */
  function DigitPrefixLength(s: string, hex: bool): (n: nat)
    ensures n <= |s|
    ensures forall i :: 0 <= i < n ==> IsRadixDigit(s[i], hex)
    ensures n < |s| ==> !IsRadixDigit(s[n], hex)
  {
    if s != [] && IsRadixDigit(s[0], hex) then 1 + DigitPrefixLength(s[1..], hex) else 0
  }

  /** The number a string of digits denotes, most significant digit first. */
  function DigitsValue(ds: string, hex: bool): nat
    requires forall i :: 0 <= i < |ds| ==> IsRadixDigit(ds[i], hex)
  {
    if ds == [] then 0
    else DigitsValue(ds[..|ds| - 1], hex) * Radix(hex) + DigitValue(ds[|ds| - 1], hex)
  }

  /** `parseInt(s)`: skip leading whitespace, then read a signed numeral. NaN is `None`. */
  function ParseInt(s: string): Option<int> {
    ParseSigned(TrimStart(s))
  }

  /** An optional `-` or `+` sign followed by an unsigned numeral. */
  function ParseSigned(t: string): Option<int> {
    if t != [] && t[0] == '-' then
      match ParseUnsigned(t[1..])
      case Some(m) => Some(-(m as int))
      case None => None
    else if t != [] && t[0] == '+' then ParseUnsigned(t[1..])
    else ParseUnsigned(t)
  }

  /** Radix 16 after a `0x` or `0X`, radix 10 otherwise; then the longest run of digits,
      and NaN when that run is empty. */
  function ParseUnsigned(u: string): Option<nat> {
    var hex := |u| >= 2 && u[0] == '0' && (u[1] == 'x' || u[1] == 'X');
    var v := if hex then u[2..] else u;
    var n := DigitPrefixLength(v, hex);
    if n == 0 then None else Some(DigitsValue(v[..n], hex))
  }

  /** The add-item form's quantity, `parseInt(input) || 0`: NaN and zero both become 0,
      every other parsed value is kept. */
  function QuantityOf(input: string): int {
    ParseInt(input).GetOr(0)
  }

  /** The canonical decimal numeral of `n`, as `String(n)` writes it for an integer. */
  function DecimalString(n: int): (s: string)
    ensures s != []
  {
    if n < 0 then "-" + NatDigits(-n) else NatDigits(n)
  }

  function NatDigits(n: nat): (s: string)
    ensures s != []
    ensures forall i :: 0 <= i < |s| ==> IsDecimalDigit(s[i])
  {
    if n < 10 then [DigitChar(n)] else NatDigits(n / 10) + [DigitChar(n % 10)]
  }

  function DigitChar(d: nat): (c: char)
    requires d < 10
    ensures IsDecimalDigit(c) && DigitValue(c, false) == d
  {
    ('0' as int + d) as char
  }

  /** Reading back the digits written for `n` gives `n`. */
  lemma {:induction false} NatDigitsValue(n: nat)
    ensures DigitsValue(NatDigits(n), false) == n
  {
    var ds := NatDigits(n);
    if n >= 10 {
      NatDigitsValue(n / 10);
      assert ds[..|ds| - 1] == NatDigits(n / 10);
    }
  }

  /** A run of digits followed by a non-digit is read up to that non-digit. */
  lemma {:induction false} DigitPrefixOfDigits(ds: string, rest: string, hex: bool)
    requires forall i :: 0 <= i < |ds| ==> IsRadixDigit(ds[i], hex)
    requires rest == [] || !IsRadixDigit(rest[0], hex)
    ensures DigitPrefixLength(ds + rest, hex) == |ds|
  {
    if ds != [] {
      assert (ds + rest)[1..] == ds[1..] + rest;
      DigitPrefixOfDigits(ds[1..], rest, hex);
    } else {
      assert ds + rest == rest;
    }
  }

  /** `parseInt` reads an integer's decimal numeral back, whatever text that does not
      start with a digit follows it (`parseInt("12 pezzi")` is 12); only after the lone
      numeral `0` is a following `x` excluded, because `0x` switches to hexadecimal. */
  lemma ParseIntReadsDecimal(n: int, rest: string)
    requires rest == [] || (!IsDecimalDigit(rest[0]) && (n != 0 || (rest[0] != 'x' && rest[0] != 'X')))
    ensures ParseInt(DecimalString(n) + rest) == Some(n)
  {
    if n < 0 {
      var u := NatDigits(-n) + rest;
      assert DecimalString(n) + rest == "-" + u by {
        ConcatAssociates("-", NatDigits(-n), rest);
      }
      ReadsDigits(-n, u, rest);
    } else {
      ReadsDigits(n, DecimalString(n) + rest, rest);
    }
  }

  lemma ConcatAssociates(a: string, b: string, c: string)
    ensures (a + b) + c == a + (b + c)
  {
  }

  /** The decimal numeral of `m` followed by `rest` reads as `m`, and as `-m` with a
      minus sign in front. */
  lemma ReadsDigits(m: nat, u: string, rest: string)
    requires rest == [] || (!IsDecimalDigit(rest[0]) && (m != 0 || (rest[0] != 'x' && rest[0] != 'X')))
    requires u == NatDigits(m) + rest
    ensures ParseInt(u) == Some(m) && ParseInt("-" + u) == Some(-(m as int))
  {
    var ds := NatDigits(m);
    assert u[0] == ds[0];
    if m != 0 {
      NatDigitsLeading(m);
    }
    ParseUnsignedDigits(ds, rest);
    NatDigitsValue(m);
    ParseSignedNumeral(u, m);
  }

  /** The numeral of a positive number does not start with `0`. */
  lemma {:induction false} NatDigitsLeading(m: nat)
    requires m != 0
    ensures NatDigits(m)[0] != '0'
  {
    if m >= 10 {
      NatDigitsLeading(m / 10);
      assert NatDigits(m)[0] == NatDigits(m / 10)[0];
    }
  }

  /** A numeral that starts with a digit is read as its value, and as the negated value
      with a minus sign in front. */
  lemma ParseSignedNumeral(u: string, m: nat)
    requires u != [] && IsDecimalDigit(u[0]) && ParseUnsigned(u) == Some(m)
    ensures ParseInt(u) == Some(m)
    ensures ParseInt("-" + u) == Some(-(m as int))
  {
    NotWhitespace(u);
    NotWhitespace("-" + u);
    assert ("-" + u)[1..] == u;
  }

  /** A string that starts with a sign or a digit has no leading whitespace. */
  lemma NotWhitespace(s: string)
    requires s != [] && (s[0] == '-' || IsDecimalDigit(s[0]))
    ensures TrimStart(s) == s
  {
  }

  lemma ParseUnsignedDigits(ds: string, rest: string)
    requires ds != [] && forall i :: 0 <= i < |ds| ==> IsDecimalDigit(ds[i])
    requires rest == [] || !IsDecimalDigit(rest[0])
    requires ds == "0" && rest != [] ==> rest[0] != 'x' && rest[0] != 'X'
    ensures ParseUnsigned(ds + rest) == Some(DigitsValue(ds, false))
  {
    var u := ds + rest;
    assert !(|u| >= 2 && u[0] == '0' && (u[1] == 'x' || u[1] == 'X')) by {
      if |ds| >= 2 { assert u[1] == ds[1]; } else if |u| >= 2 { assert u[1] == rest[0]; }
    }
    DigitPrefixOfDigits(ds, rest, false);
    assert u[..|ds|] == ds;
  }

  /** Round trip: `parseInt(String(n)) === n` for every integer `n`. */
  lemma ParseIntRoundTrip(n: int)
    ensures ParseInt(DecimalString(n)) == Some(n)
    ensures QuantityOf(DecimalString(n)) == n
  {
    ParseIntReadsDecimal(n, []);
    assert DecimalString(n) + [] == DecimalString(n);
  }

  /** Leading whitespace does not change what `parseInt` reads. */
  lemma ParseIntSkipsWhitespace(w: string, s: string)
    requires forall i :: 0 <= i < |w| ==> IsWhitespace(w[i])
    ensures ParseInt(w + s) == ParseInt(s)
  {
    TrimStartSkipsPrefix(w, s);
  }

  /** A quantity field with no decimal digit in it (empty, letters, a lone sign) parses
      to NaN, and the form turns that into 0 rather than reporting an error. */
  lemma NonNumericQuantityIsZero(input: string)
    requires forall i :: 0 <= i < |input| ==> !IsDecimalDigit(input[i])
    ensures ParseInt(input) == None
    ensures QuantityOf(input) == 0
  {
    var t := TrimStart(input);
    var u := if t != [] && (t[0] == '-' || t[0] == '+') then t[1..] else t;
    assert forall i :: 0 <= i < |u| ==> u[i] in input;
    if u != [] {
      assert u[0] in input;
    }
    assert ParseUnsigned(u) == None;
  }

  /** Text that does not start with whitespace, a sign or a digit reads as NaN, even
      when digits follow later (`parseInt("abc5")`). */
  lemma NaNWithoutLeadingDigit(s: string)
    requires s != [] && !IsWhitespace(s[0]) && !IsDecimalDigit(s[0]) && s[0] != '-' && s[0] != '+'
    ensures ParseInt(s) == None
  {
    assert TrimStart(s) == s;
    assert DigitPrefixLength(s, false) == 0;
  }

  /** A hexadecimal prefix not followed by a hexadecimal digit reads as NaN
      (`parseInt("0x")`, `parseInt("0xg1")`). */
  lemma NaNAfterBareHexPrefix(rest: string)
    requires rest == [] || !IsRadixDigit(rest[0], true)
    ensures ParseInt("0x" + rest) == None
  {
    var s := "0x" + rest;
    assert TrimStart(s) == s by {
      assert s[0] == '0';
    }
    assert s[1] == 'x' && s[2..] == rest;
    assert DigitPrefixLength(rest, true) == 0;
  }
}
