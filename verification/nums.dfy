/** Decimal and hexadecimal text: formatting with `%d`/`%x`, Python's `int()`,
    Go's `strconv.ParseInt` and the decimal-prefix parser used for `clike.Atoi`/`Atoll`. */
module Nums {
  import opened Strs

  predicate IsDigit(c: char) { '0' <= c <= '9' }

  predicate AllDigits(s: string) { forall i :: 0 <= i < |s| ==> IsDigit(s[i]) }

  /** Value of a string of decimal digits. */
  function DigitsVal(s: string): (n: nat)
    requires AllDigits(s)
  {
    if |s| == 0 then 0 else DigitsVal(s[..|s| - 1]) * 10 + (s[|s| - 1] - '0') as nat
  }

  /** Go's integer `/` by a positive divisor: the quotient truncated toward zero. */
  function Quot(a: int, b: int): int
    requires b > 0
  {
    if a >= 0 then a / b else -((-a) / b)
  }

  /** `%d` of a natural number. */
  function NatStr(n: nat): (s: string)
    ensures |s| > 0 && AllDigits(s)
    ensures |s| > 1 ==> s[0] != '0'
  {
    if n < 10 then [('0' as int + n) as char]
    else NatStr(n / 10) + [('0' as int + n % 10) as char]
  }

  /** `%d` of an integer. */
  function IntStr(n: int): (s: string)
  {
    if n < 0 then "-" + NatStr(-n) else NatStr(n)
  }

  /** Reading back what `%d` wrote gives the number. */
  lemma {:induction false} NatStrRoundTrip(n: nat)
    ensures DigitsVal(NatStr(n)) == n
  {
    if n >= 10 {
      NatStrRoundTrip(n / 10);
      var s := NatStr(n);
      assert s[..|s| - 1] == NatStr(n / 10);
    }
  }

  /** Distinct numbers print differently. */
  lemma NatStrInjective(a: nat, b: nat)
    requires NatStr(a) == NatStr(b)
    ensures a == b
  {
    NatStrRoundTrip(a);
    NatStrRoundTrip(b);
  }

  /** `%x` of a natural number (lower-case hexadecimal). */
  function HexStr(n: nat): (s: string)
    ensures |s| > 0
  {
    if n < 16 then [HexDigit(n)] else HexStr(n / 16) + [HexDigit(n % 16)]
  }

  function HexDigit(d: nat): char
    requires d < 16
  {
    if d < 10 then ('0' as int + d) as char else ('a' as int + d - 10) as char
  }

  /** Python's `int(s)` on a string: surrounding whitespace, an optional sign and at least one
      decimal digit; anything else raises `ValueError` (None here). */
  function PyInt(s: string): (r: Wrappers.Option<int>)
    ensures AllDigits(s) && |s| > 0 ==> r == Wrappers.Some(DigitsVal(s))
  {
    var t := Strip(s);
    if |t| > 0 && (t[0] == '-' || t[0] == '+') then
      var d := t[1..];
      if |d| > 0 && AllDigits(d) then Wrappers.Some(if t[0] == '-' then -(DigitsVal(d) as int) else DigitsVal(d))
      else Wrappers.None
    else if |t| > 0 && AllDigits(t) then
      assert AllDigits(s) && |s| > 0 ==> t == s by { if AllDigits(s) { StripDigits(s); } }
      Wrappers.Some(DigitsVal(t))
    else
      assert AllDigits(s) && |s| > 0 ==> t == s by { if AllDigits(s) { StripDigits(s); } }
      Wrappers.None
  }

  lemma StripDigits(s: string)
    requires AllDigits(s)
    ensures Strip(s) == s
  {
    assert |s| == 0 || !IsSpace(s[0]);
    assert StripLeft(s) == s;
    assert |s| == 0 || !IsSpace(s[|s| - 1]);
  }

  // ---- clike.Atoi / Atoll ---------------------------------------------------------------

  /** The leading run of decimal digits of `s`. */
  function LeadDigits(s: string): (d: string)
    ensures |d| <= |s| && d == s[..|d|] && AllDigits(d)
    ensures |d| < |s| ==> !IsDigit(s[|d|])
  {
    if |s| == 0 || !IsDigit(s[0]) then "" else [s[0]] + LeadDigits(s[1..])
  }

  /** Decimal prefix parser standing in for `clike.Atoll`: optional sign, then the leading
      digits; no digits reads as 0. */
  function Atoll(s: string): (n: int)
    ensures AllDigits(s) ==> n == DigitsVal(s)
  {
    if |s| > 0 && s[0] == '-' then -(DigitsVal(LeadDigits(s[1..])) as int)
    else if |s| > 0 && s[0] == '+' then DigitsVal(LeadDigits(s[1..]))
    else
      assert AllDigits(s) ==> LeadDigits(s) == s;
      DigitsVal(LeadDigits(s))
  }

  lemma AtollNatStr(n: nat)
    ensures Atoll(NatStr(n)) == n && Atoll("+" + NatStr(n)) == n
  {
    NatStrRoundTrip(n);
    var s := NatStr(n);
    assert ("+" + s)[1..] == s;
    assert LeadDigits(s) == s;
  }

  /** A printed integer holds no space. */
  lemma IntStrNoSpace(n: int)
    ensures ' ' !in IntStr(n)
  {
    var s := NatStr(if n < 0 then -n else n);
    assert forall i :: 0 <= i < |s| ==> s[i] != ' ';
  }

  /** Reading a printed integer back gives the integer. */
  lemma AtollIntStr(n: int)
    ensures Atoll(IntStr(n)) == n
  {
    if n < 0 {
      var s := NatStr(-n);
      AtollNatStr(-n);
      assert IntStr(n)[1..] == s;
      assert LeadDigits(s) == s;
    } else {
      AtollNatStr(n);
    }
  }

  // ---- strconv.ParseInt ------------------------------------------------------------------

  /** Value and error flag of `strconv.ParseInt`. On a syntax error the value is 0; on a range
      error it is the nearest bound of the bit size. */
  datatype Parsed = Parsed(value: int, ok: bool)

  datatype UintScan = UDone(n: nat) | USyntax | URange

  function Pow2(k: nat): (r: nat)
    ensures r >= 1
  {
    if k == 0 then 1 else 2 * Pow2(k - 1)
  }

  /** Digit value of a character in any base up to 36, or 99 when it is not a digit. */
  function DigitOf(c: char): nat
  {
    if '0' <= c <= '9' then (c - '0') as nat
    else if 'a' <= c <= 'z' then (c - 'a') as nat + 10
    else if 'A' <= c <= 'Z' then (c - 'A') as nat + 10
    else 99
  }

  /** The digit loop of `strconv.ParseUint`: a digit outside the base is a syntax error; an
      accumulator passing 2^bits - 1 stops the scan with a range error at once. */
  function ScanUint(s: string, base: nat, bits: nat, acc: nat): (r: UintScan)
    requires 2 <= base <= 36
    ensures r.UDone? ==> r.n < Pow2(bits) || (|s| == 0 && r.n == acc)
  {
    if |s| == 0 then UDone(acc)
    else
      var d := DigitOf(s[0]);
      if d >= base then USyntax
      else if acc * base + d > Pow2(bits) - 1 then URange
      else ScanUint(s[1..], base, bits, acc * base + d)
  }

  /** `strconv.ParseUint(s, base, bits)` for base 0 (0x/0X hexadecimal, leading-0 octal,
      decimal) or an explicit base. */
  function ParseUint(s: string, base: nat, bits: nat): (r: UintScan)
    requires base == 0 || 2 <= base <= 36
  {
    if |s| == 0 then USyntax
    else if base != 0 then ScanUint(s, base, bits, 0)
    else if s[0] == '0' && |s| > 1 && (s[1] == 'x' || s[1] == 'X') then
      if |s| == 2 then USyntax else ScanUint(s[2..], 16, bits, 0)
    else if s[0] == '0' then ScanUint(s, 8, bits, 0)
    else ScanUint(s, 10, bits, 0)
  }

  /** 2^(bits-1): the magnitude bound of a signed `bits`-bit integer. */
  function Lim(bits: nat): int
    requires bits >= 1
  {
    Pow2(bits - 1)
  }

  /** `strconv.ParseInt(s, base, bits)`. */
  function ParseInt(s: string, base: nat, bits: nat): (r: Parsed)
    requires base == 0 || 2 <= base <= 36
    requires bits >= 1
    ensures r.ok ==> -Lim(bits) <= r.value < Lim(bits)
    ensures !r.ok ==> r.value == 0 || r.value == Lim(bits) - 1 || r.value == -Lim(bits)
  {
    if |s| == 0 then Parsed(0, false)
    else
      var neg := s[0] == '-';
      var body := if s[0] == '+' || s[0] == '-' then s[1..] else s;
      match ParseUint(body, base, bits)
      case USyntax => Parsed(0, false)
      case URange => if neg then Parsed(-Lim(bits), false) else Parsed(Lim(bits) - 1, false)
      case UDone(u) =>
        assert u < Pow2(bits) by { PowPos(bits); }
        if !neg && u >= Lim(bits) then Parsed(Lim(bits) - 1, false)
        else if neg && u > Lim(bits) then Parsed(-Lim(bits), false)
        else Parsed(if neg then -(u as int) else u, true)
  }

  lemma {:induction false} Pow2Mono(a: nat, b: nat)
    requires a <= b
    ensures Pow2(a) <= Pow2(b)
    decreases b
  {
    if a < b {
      Pow2Mono(a, b - 1);
    }
  }

  lemma PowPos(bits: nat)
    requires bits >= 1
    ensures Pow2(bits) == 2 * Pow2(bits - 1)
  {
  }

  /** Digits read from the front, as the scan of `strconv` reads them. */
  function DigitsFrom(s: string, acc: nat): (n: nat)
    requires AllDigits(s)
    ensures n >= acc
  {
    if |s| == 0 then acc else DigitsFrom(s[1..], acc * 10 + (s[0] - '0') as nat)
  }

  lemma {:induction false} DigitsFromSnoc(s: string, c: char, acc: nat)
    requires AllDigits(s) && IsDigit(c)
    ensures AllDigits(s + [c])
    ensures DigitsFrom(s + [c], acc) == DigitsFrom(s, acc) * 10 + (c - '0') as nat
  {
    assert AllDigits(s + [c]) by {
      forall i | 0 <= i < |s + [c]| ensures IsDigit((s + [c])[i]) {
        if i < |s| { assert (s + [c])[i] == s[i]; }
      }
    }
    if |s| > 0 {
      assert (s + [c])[1..] == s[1..] + [c];
      DigitsFromSnoc(s[1..], c, acc * 10 + (s[0] - '0') as nat);
    }
  }

  /** Reading from the front and from the back agree. */
  lemma {:induction false} DigitsFromVal(s: string)
    requires AllDigits(s)
    ensures DigitsFrom(s, 0) == DigitsVal(s)
  {
    if |s| > 0 {
      var init := s[..|s| - 1];
      DigitsFromVal(init);
      DigitsFromSnoc(init, s[|s| - 1], 0);
      assert init + [s[|s| - 1]] == s;
    }
  }

  /** A decimal scan that stays in range computes the digits' value. */
  lemma {:induction false} ScanDecimal(s: string, bits: nat, acc: nat)
    requires AllDigits(s)
    requires DigitsFrom(s, acc) < Pow2(bits)
    ensures ScanUint(s, 10, bits, acc) == UDone(DigitsFrom(s, acc))
  {
    if |s| > 0 {
      assert DigitOf(s[0]) == (s[0] - '0') as nat;
      ScanDecimal(s[1..], bits, acc * 10 + (s[0] - '0') as nat);
    }
  }

  /** `strconv.ParseInt(s, 10, bits)` reads back what `%d` wrote, for any in-range value. */
  lemma ParseIntNatStr(n: nat, bits: nat)
    requires bits >= 1 && n < Pow2(bits - 1)
    ensures ParseInt(NatStr(n), 10, bits) == Parsed(n, true)
  {
    var s := NatStr(n);
    NatStrRoundTrip(n);
    DigitsFromVal(s);
    PowPos(bits);
    ScanDecimal(s, bits, 0);
    assert s[0] != '-' && s[0] != '+';
  }

  /** `strconv.ParseInt(s, 0, bits)` reads back what `%d` wrote, for a positive in-range
      value (its text has no leading zero, so it is read as decimal). */
  lemma ParseInt0NatStr(n: nat, bits: nat)
    requires bits >= 1 && 1 <= n < Pow2(bits - 1)
    ensures ParseInt(NatStr(n), 0, bits) == Parsed(n, true)
  {
    var s := NatStr(n);
    ParseIntNatStr(n, bits);
    assert s[0] != '0' by {
      if |s| == 1 { assert s == [('0' as int + n) as char]; }
    }
  }
}
