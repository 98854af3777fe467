/** Decimal numerals: what strconv.Itoa and FormatInt print and what ParseInt and Atoi read. */
module Decimal {
  import opened Wrappers

  const MIN_INT64 := -0x8000_0000_0000_0000
  const MAX_INT64 := 0x7FFF_FFFF_FFFF_FFFF

  type int64 = n: int | -0x8000_0000_0000_0000 <= n <= 0x7FFF_FFFF_FFFF_FFFF

  predicate IsDigit(c: char) { '0' <= c <= '9' }

  predicate AllDigits(s: string) {
    forall i | 0 <= i < |s| :: IsDigit(s[i])
  }

  // A numeral without superfluous leading zeros.
  predicate Canonical(s: string) {
    s != "" && AllDigits(s) && (s[0] == '0' ==> |s| == 1)
  }

  function DigitChar(d: nat): (c: char)
    requires d < 10
  {
    ('0' as int + d) as char
  }

  function DigitValue(c: char): nat
    requires IsDigit(c)
  {
    c as int - '0' as int
  }

  function HexDigit(c: char): (r: Option<nat>)
    ensures r.Some? ==> r.value < 16
  {
    if '0' <= c <= '9' then Some((c - '0') as nat)
    else if 'a' <= c <= 'f' then Some((c - 'a') as nat + 10)
    else if 'A' <= c <= 'F' then Some((c - 'A') as nat + 10)
    else None
  }

  // The numeral of a natural number.
  function Digits(n: nat): (s: string)
    ensures Canonical(s)
    ensures s[0] == '0' ==> n == 0
  {
    if n < 10 then [DigitChar(n)] else Digits(n / 10) + [DigitChar(n % 10)]
  }

  // The number a digit string denotes.
  function Number(s: string): nat
    requires AllDigits(s)
  {
    if s == "" then 0 else 10 * Number(s[..|s| - 1]) + DigitValue(s[|s| - 1])
  }

  lemma {:induction false} NumberOfDigits(n: nat)
    ensures Number(Digits(n)) == n
  {
    var s := Digits(n);
    if n < 10 {
      assert s[..|s| - 1] == "";
    } else {
      assert s[..|s| - 1] == Digits(n / 10);
      NumberOfDigits(n / 10);
    }
  }

  lemma {:induction false} NumberIsPositive(s: string)
    requires Canonical(s) && s != "0"
    ensures Number(s) > 0
  {
    if |s| > 1 {
      NumberIsPositive(s[..|s| - 1]);
    } else {
      assert s == [s[0]];
    }
  }

  lemma {:induction false} DigitsOfNumber(s: string)
    requires Canonical(s)
    ensures Digits(Number(s)) == s
  {
    var front, c := s[..|s| - 1], s[|s| - 1];
    if |s| == 1 {
      assert front == "";
      assert s == [c];
    } else {
      assert front[0] == s[0];
      NumberIsPositive(front);
      DigitsOfNumber(front);
      assert Number(s) / 10 == Number(front);
      assert s == front + [c];
    }
  }

  // strconv.Itoa and strconv.FormatInt with base 10.
  function Itoa(n: int): (s: string)
    ensures s != ""
    ensures forall i | 0 <= i < |s| :: IsDigit(s[i]) || s[i] == '-'
  {
    if n < 0 then "-" + Digits(-n) else Digits(n)
  }

  // strconv.ParseInt with base 10 and 64 bits: an optional sign, then digits, leading zeros allowed;
  // a number outside the range is an error.
  function ParseInt(s: string): (r: Option<int64>)
  {
    if s == "" then None
    else
      var body := if s[0] == '-' || s[0] == '+' then s[1..] else s;
      if body == "" || !AllDigits(body) then None
      else
        var n := if s[0] == '-' then -(Number(body) as int) else Number(body);
        if MIN_INT64 <= n <= MAX_INT64 then Some(n) else None
  }

  // The ten digits in order; a digit's value is its place among them.
  const TEN := "0123456789"

  lemma DigitsAreTen(c: char, v: nat)
    ensures IsDigit(c) <==> c in TEN
    ensures v < 10 ==> IsDigit(TEN[v]) && DigitValue(TEN[v]) == v
  {
    if v < 10 {
      assert TEN[v] as int == '0' as int + v;
    }
    if IsDigit(c) {
      assert TEN[c as int - '0' as int] == c;
    }
  }

  function Power(n: nat): nat {
    if n == 0 then 1 else 10 * Power(n - 1)
  }

  lemma TenTimes(v: nat, p: nat, n: nat, d: nat)
    ensures 10 * (v * p + n) + d == v * (10 * p) + (10 * n + d)
  {
    assert 10 * (v * p) == v * (10 * p);
  }

  lemma LastDigit(s: string, c: char, t: string)
    requires AllDigits(s) && IsDigit(c) && t == s + [c]
    ensures AllDigits(t) && Number(t) == 10 * Number(s) + DigitValue(c)
  {
    assert t[..|t| - 1] == s;
  }

  // Place value: a digit in front of n others counts for so many times the n-th power of ten.
  lemma {:induction false} LeadingDigit(v: nat, s: string)
    requires v < 10 && AllDigits(s)
    ensures AllDigits([TEN[v]] + s) && Number([TEN[v]] + s) == v * Power(|s|) + Number(s)
  {
    DigitsAreTen(TEN[v], v);
    if s == "" {
      LastDigit("", TEN[v], [TEN[v]] + s);
    } else {
      var front, c := s[..|s| - 1], s[|s| - 1];
      LeadingDigit(v, front);
      LastDigit([TEN[v]] + front, c, [TEN[v]] + s);
      TenTimes(v, Power(|front|), Number(front), DigitValue(c));
    }
  }

  // What a text of a number may look like: digits, with or without one sign in front.
  predicate Spells(s: string, n: int, sign: string, digits: string) {
    && s == sign + digits && sign in {"", "+", "-"} && digits != "" && AllDigits(digits)
    && n == if sign == "-" then -(Number(digits) as int) else Number(digits)
  }

  // The texts that are read, and as what: a text that spells no 64-bit number is rejected.
  lemma ParseIntReads(s: string, n: int64)
    ensures ParseInt(s) == Some(n) <==> exists sign, digits :: Spells(s, n, sign, digits)
  {
    if ParseInt(s) == Some(n) {
      if s[0] == '-' || s[0] == '+' {
        assert s == [s[0]] + s[1..];
        assert Spells(s, n, [s[0]], s[1..]);
      } else {
        assert Spells(s, n, "", s);
      }
    }
    forall sign, digits | Spells(s, n, sign, digits)
      ensures ParseInt(s) == Some(n)
    {
      SignIsApart(s, sign, digits);
    }
  }

  lemma SignIsApart(s: string, sign: string, digits: string)
    requires s == sign + digits && sign in {"", "+", "-"} && digits != "" && AllDigits(digits)
    ensures s[|sign|..] == digits && (sign == "" ==> IsDigit(s[0])) && (sign != "" ==> s[0] == sign[0])
  {
    assert IsDigit(digits[0]);
  }

  // Every 64-bit number, the least one included, is read back as printed.
  lemma ParseIntOfItoa(n: int)
    requires MIN_INT64 <= n <= MAX_INT64
    ensures ParseInt(Itoa(n)) == Some(n)
  {
    if n < 0 {
      NumberOfDigits(-n);
      assert Itoa(n)[1..] == Digits(-n);
    } else {
      NumberOfDigits(n);
    }
  }

  // The digits at the front of s.
  function DigitPrefix(s: string): (k: nat)
    ensures k <= |s| && AllDigits(s[..k])
    ensures k < |s| ==> !IsDigit(s[k])
  {
    if s == "" || !IsDigit(s[0]) then 0
    else
      var k := DigitPrefix(s[1..]);
      assert s[..k + 1] == [s[0]] + s[1..][..k];
      k + 1
  }

  // A numeral that a non-digit ends can be told from what follows it.
  lemma DigitPrefixEnds(digits: string, rest: string)
    requires AllDigits(digits)
    requires rest != "" ==> !IsDigit(rest[0])
    ensures DigitPrefix(digits + rest) == |digits|
  {
    var k := DigitPrefix(digits + rest);
    assert forall i | 0 <= i < |digits| :: (digits + rest)[i] == digits[i];
    assert forall i | 0 <= i < k :: IsDigit((digits + rest)[..k][i]);
    assert rest != "" ==> (digits + rest)[|digits|] == rest[0];
  }
}
