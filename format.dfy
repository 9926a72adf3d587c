/**
 * The number renderings the command-line front end prints with printf: `%zu` (decimal)
 * and `%08zx` (lower-case hexadecimal, zero-padded to at least eight digits), with the
 * matching parse so that each rendering is shown to determine its value.
 */
module Format {
  /** The lower-case digit for a value below 16. */
  function DigitChar(d: nat): (c: char)
    requires d < 16
    ensures DigitValue(c) == d
  {
    if d < 10 then ('0' as int + d) as char else ('a' as int + d - 10) as char
  }

  /** The value of a decimal or lower-case hexadecimal digit (0 for any other character). */
  function DigitValue(c: char): nat {
    if '0' <= c <= '9' then c as int - '0' as int
    else if 'a' <= c <= 'f' then c as int - 'a' as int + 10
    else 0
  }

  /** Euclidean division by a base: the quotient is smaller and recombines with the remainder. */
  lemma DivByBase(n: nat, base: nat)
    requires 2 <= base <= 16 && n >= base
    ensures 1 <= n / base < n && n % base < base
    ensures (n / base) * base + n % base == n
  {
  }

  /** The digits of n in the given base, most significant first, without leading zeros. */
  function Numeral(n: nat, base: nat): (s: string)
    requires 2 <= base <= 16
    ensures |s| >= 1 && (n > 0 ==> s[0] != '0')
    decreases n
  {
    if n < base then [DigitChar(n)]
    else
      DivByBase(n, base);
      Numeral(n / base, base) + [DigitChar(n % base)]
  }

  /** The value of a string of digits in the given base. */
  function NumeralValue(s: string, base: nat): nat
    decreases |s|
  {
    if s == [] then 0 else NumeralValue(s[..|s| - 1], base) * base + DigitValue(s[|s| - 1])
  }

  /** Parsing a rendered numeral gives back the number. */
  lemma {:induction false} NumeralRoundTrip(n: nat, base: nat)
    requires 2 <= base <= 16
    ensures NumeralValue(Numeral(n, base), base) == n
    decreases n
  {
    var s := Numeral(n, base);
    if n < base {
      assert s[..0] == [];
    } else {
      DivByBase(n, base);
      NumeralRoundTrip(n / base, base);
      assert s[..|s| - 1] == Numeral(n / base, base);
    }
  }

  /** `s` preceded by '0's up to `width` characters, as printf's `%0<width>` does. */
  function ZeroPad(s: string, width: nat): (r: string)
    ensures |r| == if |s| >= width then |s| else width
    ensures r[|r| - |s|..] == s
    ensures forall i :: 0 <= i < |r| - |s| ==> r[i] == '0'
  {
    if |s| >= width then s else seq(width - |s|, _ => '0') + s
  }

  /** Leading zeros do not change a numeral's value. */
  lemma {:induction false} LeadingZerosValue(z: string, s: string, base: nat)
    requires forall i :: 0 <= i < |z| ==> z[i] == '0'
    ensures NumeralValue(z + s, base) == NumeralValue(s, base)
    decreases |s|
  {
    if s == [] {
      ZerosValue(z, base);
      assert z + s == z;
    } else {
      var init := s[..|s| - 1];
      LeadingZerosValue(z, init, base);
      assert (z + s)[..|z + s| - 1] == z + init;
    }
  }

  lemma {:induction false} ZerosValue(z: string, base: nat)
    requires forall i :: 0 <= i < |z| ==> z[i] == '0'
    ensures NumeralValue(z, base) == 0
    decreases |z|
  {
    if z != [] {
      ZerosValue(z[..|z| - 1], base);
    }
  }

  /** `%zu`. */
  function Decimal(n: nat): string {
    Numeral(n, 10)
  }

  /** `%08zx`. */
  function Hex08(n: nat): string {
    ZeroPad(Numeral(n, 16), 8)
  }

  /** The `%08zx` rendering has at least eight lower-case digits and parses back to n. */
  lemma Hex08RoundTrip(n: nat)
    ensures |Hex08(n)| >= 8
    ensures NumeralValue(Hex08(n), 16) == n
  {
    var s := Numeral(n, 16);
    var r := Hex08(n);
    NumeralRoundTrip(n, 16);
    assert r == r[..|r| - |s|] + s;
    LeadingZerosValue(r[..|r| - |s|], s, 16);
  }

  /** The `%zu` rendering parses back to n. */
  lemma DecimalRoundTrip(n: nat)
    ensures NumeralValue(Decimal(n), 10) == n
  {
    NumeralRoundTrip(n, 10);
  }
}
