/**
 * The per-residue records that flow between the stages: the CA atoms read
 * from the structure file, and the merged, classified residues the restraint
 * generator consumes. Also Python's `str` on an integer, which forms the
 * secondary-structure lookup key of a residue.
 */
module Residues {
  import opened SecondaryStructure

  datatype Coord = Coord(x: real, y: real, z: real)

  /** One CA row of the structure table: residue_number, chain_id, x/y/z_coord, b_factor. */
  datatype CaAtom = CaAtom(residueNumber: int, chain: char, coord: Coord, bFactor: real)

  /** A CA row with its plddt, ss and category columns added. */
  datatype Residue = Residue(
    residueNumber: int, chain: char, coord: Coord,
    plddt: real, ss: SsClass, category: int)

  function DigitChar(d: nat): (c: char)
    requires d < 10
    ensures '0' <= c <= '9'
  {
    ('0' as int + d) as char
  }

  function DigitValue(c: char): nat
    requires '0' <= c <= '9'
  {
    (c as int - '0' as int) as nat
  }

  /** Decimal digits of `n`, most significant first, without leading zeros. */
  function NatDigits(n: nat): (s: string)
    ensures |s| >= 1
    ensures forall k :: 0 <= k < |s| ==> '0' <= s[k] <= '9'
    ensures |s| > 1 ==> s[0] != '0'
  {
    if n < 10 then [DigitChar(n)] else NatDigits(n / 10) + [DigitChar(n % 10)]
  }

  /** `str(n)` for a Python int: an optional minus sign, then the digits. */
  function DecimalString(n: int): string {
    if n < 0 then "-" + NatDigits(-n) else NatDigits(n)
  }

  /** The number a string of decimal digits stands for. */
  function DigitsValue(s: string): nat
    requires forall k :: 0 <= k < |s| ==> '0' <= s[k] <= '9'
  {
    if s == [] then 0 else DigitsValue(s[..|s| - 1]) * 10 + DigitValue(s[|s| - 1])
  }

  /** Reads `str(n)` back. */
  function ParseDecimal(s: string): int
    requires |s| >= 1
    requires forall k :: (if s[0] == '-' then 1 else 0) <= k < |s| ==> '0' <= s[k] <= '9'
  {
    if s[0] == '-' then -(DigitsValue(s[1..]) as int) else DigitsValue(s)
  }

  lemma {:induction false} NatDigitsRoundTrip(n: nat)
    ensures DigitsValue(NatDigits(n)) == n
  {
    if n >= 10 {
      var q, d := n / 10, n % 10;
      NatDigitsRoundTrip(q);
      var s := NatDigits(n);
      assert s == NatDigits(q) + [DigitChar(d)];
      assert s[..|s| - 1] == NatDigits(q);
      assert DigitValue(s[|s| - 1]) == d;
      assert DigitsValue(s) == q * 10 + d;
      assert q * 10 + d == n;
    } else {
      assert DigitValue(DigitChar(n)) == n;
    }
  }

  /** `str` on integers can be read back, so distinct residue numbers give distinct keys. */
  lemma DecimalStringRoundTrip(n: int)
    ensures |DecimalString(n)| >= 1
    ensures ParseDecimal(DecimalString(n)) == n
  {
    if n < 0 {
      NatDigitsRoundTrip(-n);
      assert DecimalString(n)[1..] == NatDigits(-n);
    } else {
      NatDigitsRoundTrip(n);
    }
  }

  lemma DecimalStringInjective(m: int, n: int)
    requires DecimalString(m) == DecimalString(n)
    ensures m == n
  {
    DecimalStringRoundTrip(m);
    DecimalStringRoundTrip(n);
  }
}
