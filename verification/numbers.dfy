/** `parseInt(text)` with no radix argument, as the handlers call it on path
    parameters, and the decimal rendering of an integer that a client puts
    into such a path. A parse that finds no digits yields `None`, which
    plays the part of `NaN`. */
module Numbers {
  import opened Optional

  /** The characters `parseInt` skips before the number: the ECMAScript
      white-space and line-terminator code points. */
  predicate IsSpace(c: char)
  {
    var n := c as int;
    || 9 <= n <= 13
    || n == 0x20 || n == 0xA0 || n == 0x1680
    || 0x2000 <= n <= 0x200A
    || n == 0x2028 || n == 0x2029 || n == 0x202F || n == 0x205F
    || n == 0x3000 || n == 0xFEFF
  }

  /** The value of `c` as a digit in radices up to 36 (`0`-`9`, then the
      letters in either case); 36 for a character that is no digit at all. */
  function DigitValue(c: char): nat
  {
    if '0' <= c <= '9' then c as int - '0' as int
    else if 'a' <= c <= 'z' then c as int - 'a' as int + 10
    else if 'A' <= c <= 'Z' then c as int - 'A' as int + 10
    else 36
  }

  predicate IsDigit(c: char, radix: nat)
  {
    DigitValue(c) < radix
  }

  /** `s` without its leading white space. */
  function TrimStart(s: string): string
  {
    if |s| > 0 && IsSpace(s[0]) then TrimStart(s[1..]) else s
  }

  /** Trimming removes exactly the white space in front: what is left is a
      suffix that does not start with white space, and all that was cut off
      is white space. */
  lemma {:induction false} TrimStartMeaning(s: string)
    ensures var r := TrimStart(s);
            && |r| <= |s| && r == s[|s| - |r|..]
            && (forall i :: 0 <= i < |s| - |r| ==> IsSpace(s[i]))
            && (|r| > 0 ==> !IsSpace(r[0]))
  {
    if |s| > 0 && IsSpace(s[0]) {
      TrimStartMeaning(s[1..]);
      assert forall i :: 1 <= i < |s| ==> s[i] == s[1..][i - 1];
    }
  }

  /** The longest prefix of `s` made of digits of the radix. */
  function LeadingDigits(s: string, radix: nat): string
  {
    if |s| > 0 && IsDigit(s[0], radix) then [s[0]] + LeadingDigits(s[1..], radix) else []
  }

  /** `LeadingDigits` is a prefix of digits that cannot be extended. */
  lemma {:induction false} LeadingDigitsMeaning(s: string, radix: nat)
    ensures var r := LeadingDigits(s, radix);
            && |r| <= |s| && r == s[..|r|]
            && (forall i :: 0 <= i < |r| ==> IsDigit(r[i], radix))
            && (|r| < |s| ==> !IsDigit(s[|r|], radix))
  {
    if |s| > 0 && IsDigit(s[0], radix) {
      LeadingDigitsMeaning(s[1..], radix);
      var r := LeadingDigits(s, radix);
      assert r == [s[0]] + LeadingDigits(s[1..], radix);
      assert forall i :: 1 <= i < |r| ==> r[i] == LeadingDigits(s[1..], radix)[i - 1];
    }
  }

  /** The number a digit string denotes in the radix, most significant first. */
  function Value(ds: string, radix: nat): nat
  {
    if |ds| == 0 then 0 else Value(ds[..|ds| - 1], radix) * radix + DigitValue(ds[|ds| - 1])
  }

  predicate HasHexPrefix(u: string)
  {
    |u| >= 2 && u[0] == '0' && (u[1] == 'x' || u[1] == 'X')
  }

  /** `parseInt(s)`: skip white space, read an optional sign, then the
      unsigned part. The result is `None` (`NaN`) exactly when, after the
      white space and the sign, no number starts. */
  function ParseInt(s: string): (r: Option<int>)
    ensures r == None <==> !StartsNumber(UnsignedPart(TrimStart(s)))
  {
    ParseSigned(TrimStart(s))
  }

  /** What follows at most one leading sign. */
  function UnsignedPart(t: string): string
  {
    if |t| > 0 && (t[0] == '-' || t[0] == '+') then t[1..] else t
  }

  /** A number starts at the front of `u`: a `0x` prefix followed by a
      hexadecimal digit, or, without that prefix, a decimal digit. */
  predicate StartsNumber(u: string)
  {
    if HasHexPrefix(u) then |u| > 2 && IsDigit(u[2], 16)
    else |u| > 0 && IsDigit(u[0], 10)
  }

  /** The part after the white space: an optional sign, then the rest. */
  function ParseSigned(t: string): Option<int>
  {
    if |t| > 0 && t[0] == '-' then
      match ParseUnsigned(t[1..])
      case None => None
      case Some(v) => Some(-v)
    else if |t| > 0 && t[0] == '+' then ParseUnsigned(t[1..])
    else ParseUnsigned(t)
  }

  /** The unsigned part: a `0x` prefix selects radix 16, radix 10 otherwise,
      and the longest run of digits of that radix is read. */
  function ParseUnsigned(u: string): Option<int>
  {
    var radix := if HasHexPrefix(u) then 16 else 10;
    var ds := LeadingDigits(if HasHexPrefix(u) then u[2..] else u, radix);
    if |ds| == 0 then None else Some(Value(ds, radix))
  }

  /** A text without any decimal digit parses to `NaN`. */
  lemma NoDigitIsNaN(s: string)
    requires forall i :: 0 <= i < |s| ==> !IsDigit(s[i], 10)
    ensures ParseInt(s) == None
  {
    var t := TrimStart(s);
    TrimStartMeaning(s);
    var u := if |t| > 0 && (t[0] == '-' || t[0] == '+') then t[1..] else t;
    assert u == s[|s| - |u|..];
    LeadingDigitsMeaning(u, 10);
    if |u| > 0 {
      assert u[0] == s[|s| - |u|];
      assert !HasHexPrefix(u);
    }
    assert ParseUnsigned(u) == None;
  }

  function DigitChar(d: nat): (c: char)
    requires d < 10
    ensures IsDigit(c, 10) && DigitValue(c) == d
  {
    ('0' as int + d) as char
  }

  /** The decimal numeral of `n`. */
  function ShowNat(n: nat): string
  {
    if n < 10 then [DigitChar(n)] else ShowNat(n / 10) + [DigitChar(n % 10)]
  }

  /** The decimal numeral of `n`, with a minus sign when negative. */
  function ShowInt(n: int): string
  {
    if n < 0 then ['-'] + ShowNat(-n) else ShowNat(n)
  }

  /** A numeral is a non-empty run of decimal digits that denotes `n`. */
  lemma {:induction false} ShowNatMeaning(n: nat)
    ensures |ShowNat(n)| > 0
    ensures forall i :: 0 <= i < |ShowNat(n)| ==> IsDigit(ShowNat(n)[i], 10)
    ensures Value(ShowNat(n), 10) == n
  {
    if n >= 10 {
      ShowNatMeaning(n / 10);
      var s := ShowNat(n);
      assert s[..|s| - 1] == ShowNat(n / 10);
    }
  }

  /** A numeral starts with `0` only when it is the numeral of zero, so no
      numeral longer than one digit has a leading zero. */
  lemma {:induction false} ShowNatNoLeadingZero(n: nat)
    ensures |ShowNat(n)| > 0
    ensures ShowNat(n)[0] == '0' <==> n == 0
    ensures |ShowNat(n)| > 1 ==> ShowNat(n)[0] != '0'
  {
    if n >= 10 {
      ShowNatNoLeadingZero(n / 10);
      assert ShowNat(n)[0] == ShowNat(n / 10)[0];
    }
  }

  /** Reading digits stops exactly where the run of digits ends. */
  lemma {:induction false} LeadingDigitsStop(ds: string, rest: string, radix: nat)
    requires forall i :: 0 <= i < |ds| ==> IsDigit(ds[i], radix)
    requires |rest| == 0 || !IsDigit(rest[0], radix)
    ensures LeadingDigits(ds + rest, radix) == ds
  {
    if |ds| > 0 {
      assert (ds + rest)[1..] == ds[1..] + rest;
      LeadingDigitsStop(ds[1..], rest, radix);
      assert ds == [ds[0]] + ds[1..];
    }
  }

  /** Trimming skips a white-space prefix entirely. */
  lemma {:induction false} TrimStartSkips(ws: string, s: string)
    requires forall i :: 0 <= i < |ws| ==> IsSpace(ws[i])
    ensures TrimStart(ws + s) == TrimStart(s)
  {
    if |ws| > 0 {
      var whole := ws + s;
      assert whole[0] == ws[0] && IsSpace(whole[0]);
      assert TrimStart(whole) == TrimStart(whole[1..]);
      assert whole[1..] == ws[1..] + s;
      TrimStartSkips(ws[1..], s);
    } else {
      assert ws + s == s;
    }
  }

  /** Leading white space does not change what `parseInt` reads. */
  lemma ParseSkipsLeadingSpace(ws: string, s: string)
    requires forall i :: 0 <= i < |ws| ==> IsSpace(ws[i])
    ensures ParseInt(ws + s) == ParseInt(s)
  {
    TrimStartSkips(ws, s);
  }

  /** What may follow the numeral of `n` without changing what `parseInt`
      reads: nothing, or a non-digit; after the numeral `0` that non-digit
      must not be an `x`, which would make a hexadecimal prefix. */
  predicate EndsNumeral(n: int, rest: string)
  {
    |rest| == 0 || (!IsDigit(rest[0], 10) && (n != 0 || (rest[0] != 'x' && rest[0] != 'X')))
  }

  /** The numeral of `n`, followed by anything that does not extend it,
      parses back to `n`: `parseInt("12")`, `parseInt("12abc")` and
      `parseInt("12x")` are all 12. */
  lemma ParseShowRoundTrip(n: int, rest: string)
    requires EndsNumeral(n, rest)
    ensures ParseInt(ShowInt(n) + rest) == Some(n)
  {
    if n < 0 {
      ShowNegative(n, rest);
      ParseNegativeNumeral(-n, rest);
    } else {
      ParseNumeral(n, rest);
    }
  }

  /** A minus sign and the numeral of `m` parse back to `-m`. */
  lemma ParseNegativeNumeral(m: nat, rest: string)
    requires EndsNumeral(m, rest)
    ensures ParseInt(['-'] + (ShowNat(m) + rest)) == Some(0 - m)
  {
    ParseNumeral(m, rest);
    ParseNegative(ShowNat(m) + rest, m);
  }

  /** An unsigned numeral, followed by a non-digit, parses to its value. */
  lemma ParseNumeral(m: nat, rest: string)
    requires EndsNumeral(m, rest)
    ensures ParseUnsigned(ShowNat(m) + rest) == Some(m)
    ensures ParseInt(ShowNat(m) + rest) == Some(m)
  {
    var u := ShowNat(m) + rest;
    ParseUnsignedNumeral(m, rest);
    assert IsDigit(u[0], 10) by {
      ShowNatMeaning(m);
      assert u[0] == ShowNat(m)[0];
    }
    DigitIsNotSpace(u[0]);
    NoSpaceNoTrim(u);
  }

  lemma DigitIsNotSpace(c: char)
    requires IsDigit(c, 10)
    ensures !IsSpace(c)
  {
  }

  lemma NoSpaceNoTrim(s: string)
    requires |s| > 0 && !IsSpace(s[0])
    ensures TrimStart(s) == s
  {
  }

  lemma ShowNegative(n: int, rest: string)
    requires n < 0
    ensures ShowInt(n) + rest == ['-'] + (ShowNat(-n) + rest)
  {
  }

  /** A minus sign in front of the unsigned part negates its value. */
  lemma ParseNegative(u: string, v: int)
    requires ParseUnsigned(u) == Some(v)
    ensures ParseInt(['-'] + u) == Some(-v)
  {
    var t := ['-'] + u;
    NoSpaceNoTrim(t);
    assert t[1..] == u;
  }

  /** A plus sign in front of the unsigned part changes nothing:
      `parseInt("+5x")` reads what `parseInt("5x")` reads. */
  lemma ParsePlusSign(u: string)
    ensures ParseInt(['+'] + u) == ParseUnsigned(u)
  {
    var t := ['+'] + u;
    NoSpaceNoTrim(t);
    assert t[1..] == u;
  }

  /** The unsigned part of the round trip: no hexadecimal prefix is seen
      and the digits read are exactly the numeral. */
  lemma ParseUnsignedNumeral(m: nat, rest: string)
    requires EndsNumeral(m, rest)
    ensures ParseUnsigned(ShowNat(m) + rest) == Some(m)
  {
    var digits := ShowNat(m);
    ShowNatMeaning(m);
    LeadingDigitsStop(digits, rest, 10);
    var u := digits + rest;
    assert u[0] == digits[0];
    if |u| >= 2 && u[0] == '0' {
      ShowNatNoLeadingZero(m);
      assert u[1] == rest[0];
    }
    assert !HasHexPrefix(u);
  }

  /** `0x` followed by hexadecimal digits reads them in radix 16, up to
      the first character that is no hexadecimal digit: `parseInt("0x1A")`
      is 26. */
  lemma ParseHexDigits(ds: string, rest: string)
    requires |ds| > 0 && forall i :: 0 <= i < |ds| ==> IsDigit(ds[i], 16)
    requires |rest| == 0 || !IsDigit(rest[0], 16)
    ensures ParseInt("0x" + (ds + rest)) == Some(Value(ds, 16))
  {
    var u := "0x" + (ds + rest);
    assert ParseUnsigned(u) == Some(Value(ds, 16)) by {
      assert HasHexPrefix(u) && u[2..] == ds + rest;
      HexUnsigned(u, ds, rest);
    }
    assert ParseInt(u) == ParseUnsigned(u) by {
      assert u[0] == '0';
      NoSignParse(u);
    }
  }

  /** The unsigned part of a hexadecimal numeral. */
  lemma HexUnsigned(u: string, ds: string, rest: string)
    requires HasHexPrefix(u) && u[2..] == ds + rest
    requires |ds| > 0 && forall i :: 0 <= i < |ds| ==> IsDigit(ds[i], 16)
    requires |rest| == 0 || !IsDigit(rest[0], 16)
    ensures ParseUnsigned(u) == Some(Value(ds, 16))
  {
    LeadingDigitsStop(ds, rest, 16);
  }

  /** Text that starts with a decimal digit is read by the unsigned part alone. */
  lemma NoSignParse(u: string)
    requires |u| > 0 && IsDigit(u[0], 10)
    ensures ParseInt(u) == ParseUnsigned(u)
  {
    DigitIsNotSpace(u[0]);
    NoSpaceNoTrim(u);
  }

}
