/** `strconv.Itoa` and `strconv.Atoi` on 64-bit integers. */
module Decimal {
  import opened Wrappers

  const MAX_INT := 0x7fff_ffff_ffff_ffff
  const MIN_INT := -0x8000_0000_0000_0000

  predicate IsInt(n: int) {
    MIN_INT <= n <= MAX_INT
  }

  /** Two's complement wrap-around. */
  function Wrap(n: int): (r: int)
    ensures IsInt(r) && (IsInt(n) ==> r == n)
  {
    (n - MIN_INT) % 0x1_0000_0000_0000_0000 + MIN_INT
  }

  predicate IsDigit(c: char) {
    '0' <= c <= '9'
  }

  function DigitOf(d: nat): char
    requires d < 10
  {
    ('0' as int + d) as char
  }

  function PrintNat(n: nat): string {
    if n < 10 then [DigitOf(n)] else PrintNat(n / 10) + [DigitOf(n % 10)]
  }

  function Itoa(n: int): string {
    if n < 0 then "-" + PrintNat(-n) else PrintNat(n)
  }

  predicate AllDigits(s: string) {
    forall i | 0 <= i < |s| :: IsDigit(s[i])
  }

  function Value(digits: string): nat
    requires AllDigits(digits)
  {
    if digits == "" then 0
    else 10 * Value(digits[..|digits| - 1]) + (digits[|digits| - 1] as int - '0' as int)
  }

  datatype AtoiError = Syntax | Range

  predicate Signed(s: string) {
    s != "" && s[0] in {'+', '-'}
  }

  function Magnitude(s: string): string {
    if Signed(s) then s[1..] else s
  }

  predicate IsNumeral(s: string) {
    Magnitude(s) != "" && AllDigits(Magnitude(s))
  }

  function Meaning(s: string): int
    requires IsNumeral(s)
  {
    var n: int := Value(Magnitude(s));
    if s[0] == '-' then -n else n
  }

  /** An optional sign and decimal digits. Anything else gives zero and a syntax error; a
      number that does not fit gives the nearest one that does and a range error. */
  function Atoi(s: string): (int, Option<AtoiError>) {
    if !IsNumeral(s) then (0, Some(Syntax))
    else
      var n := Meaning(s);
      if n > MAX_INT then (MAX_INT, Some(Range))
      else if n < MIN_INT then (MIN_INT, Some(Range))
      else (n, None)
  }

  /** Canonical text: digits only, no leading zero but for zero itself; its value is `n`. */
  lemma {:induction false} PrintNatExact(n: nat)
    ensures var s := PrintNat(n);
            s != "" && AllDigits(s) && Value(s) == n && (s[0] == '0' ==> n == 0 && s == "0")
  {
    if n >= 10 {
      PrintNatExact(n / 10);
      var s := PrintNat(n);
      assert s[..|s| - 1] == PrintNat(n / 10);
      assert s[0] == PrintNat(n / 10)[0];
    } else {
      assert [DigitOf(n)][..0] == "";
    }
  }

  /** Parsing undoes printing on every machine integer. */
  lemma AtoiUndoesItoa(n: int)
    requires IsInt(n)
    ensures Atoi(Itoa(n)) == (n, None)
  {
    ItoaMeans(n);
  }

  lemma ItoaMeans(n: int)
    ensures IsNumeral(Itoa(n)) && Meaning(Itoa(n)) == n
  {
    if n < 0 {
      PrintNatExact(-n);
      assert Itoa(n)[1..] == PrintNat(-n);
    } else {
      PrintNatExact(n);
      assert !Signed(Itoa(n));
    }
  }
}
