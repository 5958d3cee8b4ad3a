/** Optional results and machine integers. */
module Numbers {
  datatype Option<+T> = None | Some(value: T)

  const MAX_INT64 := 0x7FFF_FFFF_FFFF_FFFF
  const MIN_INT64 := -0x8000_0000_0000_0000

  predicate IsInt64(n: int) { MIN_INT64 <= n <= MAX_INT64 }

  /** Two's-complement wrap-around of a 64-bit signed result. */
  function Wrap64(n: int): (r: int)
    ensures IsInt64(r) && (n - r) % 0x1_0000_0000_0000_0000 == 0
    ensures IsInt64(n) ==> r == n
  {
    var m := n % 0x1_0000_0000_0000_0000;
    if m > MAX_INT64 then m - 0x1_0000_0000_0000_0000 else m
  }

  function Min(a: int, b: int): int { if a < b then a else b }

  predicate IsDigit(c: char) { '0' <= c <= '9' }

  function Digit(d: nat): char
    requires d < 10
  {
    '0' + d as char
  }

  function Digits(n: nat): string {
    if n < 10 then [Digit(n)] else Digits(n / 10) + [Digit(n % 10)]
  }

  /** `strconv.Itoa`, and the `%d` verb. */
  function Itoa(n: int): string { if n < 0 then "-" + Digits(-n) else Digits(n) }

  predicate AllDigits(s: string) { forall i :: 0 <= i < |s| ==> IsDigit(s[i]) }

  function DigitsValue(s: string): nat
    requires AllDigits(s)
  {
    if s == "" then 0
    else DigitsValue(s[..|s| - 1]) * 10 + (s[|s| - 1] - '0') as int
  }

  /** `strconv.Atoi`: an optional sign and decimal digits, within 64 bits. */
  function Atoi(s: string): Option<int> {
    var signed := s != "" && (s[0] == '-' || s[0] == '+');
    var digits := if signed then s[1..] else s;
    if digits == "" || !AllDigits(digits) then None
    else
      var v: int := if s[0] == '-' then -(DigitsValue(digits) as int) else DigitsValue(digits);
      if IsInt64(v) then Some(v) else None
  }

  lemma {:induction false} DigitsRoundTrip(n: nat)
    ensures Digits(n) != "" && AllDigits(Digits(n)) && DigitsValue(Digits(n)) == n
  {
    if n >= 10 {
      DigitsRoundTrip(n / 10);
      assert Digits(n)[..|Digits(n)| - 1] == Digits(n / 10);
    } else {
      assert Digits(n)[..0] == "";
    }
  }

  lemma AtoiDigits(digits: string)
    requires digits != "" && AllDigits(digits)
    ensures DigitsValue(digits) <= MAX_INT64 ==> Atoi(digits) == Some(DigitsValue(digits))
    ensures var v: int := DigitsValue(digits); -v >= MIN_INT64 ==> Atoi("-" + digits) == Some(-v)
  {
    assert IsDigit(digits[0]);
    assert ("-" + digits)[0] == '-' && ("-" + digits)[1..] == digits;
  }

  lemma AtoiItoa(n: int)
    requires IsInt64(n)
    ensures Atoi(Itoa(n)) == Some(n)
  {
    var magnitude := if n < 0 then -n else n;
    DigitsRoundTrip(magnitude);
    AtoiDigits(Digits(magnitude));
  }

  /** Different numbers print differently, whatever their size. */
  lemma ItoaInjective(a: int, b: int)
    requires Itoa(a) == Itoa(b)
    ensures a == b
  {
    var x, y := if a < 0 then -a else a, if b < 0 then -b else b;
    DigitsRoundTrip(x);
    DigitsRoundTrip(y);
    assert IsDigit(Digits(x)[0]) && IsDigit(Digits(y)[0]);
    assert a < 0 ==> Itoa(a)[0] == '-' && Itoa(a)[1..] == Digits(x);
    assert b < 0 ==> Itoa(b)[0] == '-' && Itoa(b)[1..] == Digits(y);
  }

  /** Printed numbers are one word each, so they survive in a list of fields. */
  lemma ItoaChars(n: int)
    ensures Itoa(n) != ""
    ensures forall i :: 0 <= i < |Itoa(n)| ==> IsDigit(Itoa(n)[i]) || Itoa(n)[i] == '-'
  {
    DigitsRoundTrip(if n < 0 then -n else n);
  }
}
