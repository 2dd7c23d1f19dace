/**
  The unit tables of the converter: the SI prefix and the divider selected by a
  magnitude code, and the physical-unit name selected by a unit code. All three
  lookups are total: a code beyond the table falls back to a neutral answer.
*/
module Units {

  /** A `uint32_t` code as it is read from the capture header. */
  type U32 = x: int | 0 <= x < 0x1_0000_0000

  /** `units_magnitude_prefixes`: yocto up to peta; index 8 is "no prefix". */
  const MAGNITUDE_PREFIXES: seq<string> :=
    ["y", "z", "a", "f", "p", "n", "u", "m", "", "k", "M", "G", "T", "P"]

  /** `units_names`, in the instrument's code order. */
  const UNIT_NAMES: seq<string> :=
    ["V", "A", "VV", "AA", "OU", "W", "SQRT_V", "SQRT_A", "INTEGRAL_V", "INTEGRAL_A",
     "DT_V", "DT_A", "DT_DIV", "Hz", "s", "PTS", "NULL", "dB", "dBV", "dBA", "VPP",
     "VDC", "dBM"]

  /** `unit_dividers`: entry k is the double 10^e, recorded here as its exponent e. */
  const DIVIDER_EXPONENTS: seq<int> :=
    [24, 21, 18, 15, 12, 9, 6, 3, 0, -3, -6, -9, -12, -15]

  /** `unit_magnitude_prefix`: the table entry, or "" for a code past the table. */
  function UnitMagnitudePrefix(magnitude: U32): (prefix: string)
    ensures prefix in MAGNITUDE_PREFIXES
    ensures |prefix| <= 1
  {
    if magnitude < |MAGNITUDE_PREFIXES| then MAGNITUDE_PREFIXES[magnitude] else ""
  }

  /** `unit_name`: the table entry, or "" for a code past the table. */
  function UnitName(unit: U32): (name: string)
    ensures name == "" || name in UNIT_NAMES
  {
    if unit < |UNIT_NAMES| then UNIT_NAMES[unit] else ""
  }

  /**
    `unit_divider`: the decimal exponent e of the divider 10^e; a code past
    the table gives the fallback divider 1.0, that is e = 0.
  */
  function UnitDivider(magnitude: U32): (e: int)
    ensures -15 <= e <= 24
    ensures e % 3 == 0
  {
    if magnitude < |DIVIDER_EXPONENTS| then DIVIDER_EXPONENTS[magnitude] else 0
  }

  /** The power of ten an SI prefix stands for, read from the prefix letter alone. */
  function PrefixExponent(prefix: string): int {
    if prefix == "y" then -24
    else if prefix == "z" then -21
    else if prefix == "a" then -18
    else if prefix == "f" then -15
    else if prefix == "p" then -12
    else if prefix == "n" then -9
    else if prefix == "u" then -6
    else if prefix == "m" then -3
    else if prefix == "k" then 3
    else if prefix == "M" then 6
    else if prefix == "G" then 9
    else if prefix == "T" then 12
    else if prefix == "P" then 15
    else 0
  }

  /** The prefix table and the divider table have the same 14 entries, index by index. */
  lemma MagnitudeTablesAligned()
    ensures |MAGNITUDE_PREFIXES| == |DIVIDER_EXPONENTS| == 14
    ensures MAGNITUDE_PREFIXES[8] == "" && DIVIDER_EXPONENTS[8] == 0
  {
  }

  /** The divider for magnitude code k is 10^(24 - 3k), and 10^0 past the table. */
  lemma DividerIsPowerOfThousand(magnitude: U32)
    ensures magnitude < 14 ==> UnitDivider(magnitude) == 24 - 3 * magnitude
    ensures magnitude >= 14 ==> UnitDivider(magnitude) == 0
  {
  }

  /**
    Dividing by `unit_divider(m)` converts a quantity written with prefix
    `unit_magnitude_prefix(m)` to its base unit, for every code m.
  */
  lemma DividerCancelsPrefix(magnitude: U32)
    ensures UnitDivider(magnitude) == -PrefixExponent(UnitMagnitudePrefix(magnitude))
  {
  }

  /** Only code 8 and the codes past the table mean "no prefix", and exactly they give divider 1.0. */
  lemma NoPrefixIffUnitDivider(magnitude: U32)
    ensures UnitMagnitudePrefix(magnitude) == "" <==> UnitDivider(magnitude) == 0
    ensures UnitDivider(magnitude) == 0 <==> (magnitude == 8 || magnitude >= 14)
  {
  }

  /** `unit_name` answers "" exactly for the codes past its table. */
  lemma UnknownUnitIffEmptyName(unit: U32)
    ensures UnitName(unit) == "" <==> unit >= |UNIT_NAMES|
    ensures unit < |UNIT_NAMES| ==> UnitName(unit) == UNIT_NAMES[unit]
  {
  }

  /** Distinct codes have distinct names, so a name identifies its code. */
  lemma UnitNamesDistinct(a: U32, b: U32)
    requires a < b < |UNIT_NAMES|
    ensures UnitName(a) != UnitName(b)
  {
  }

  /** Distinct magnitude codes inside the table have distinct prefixes. */
  lemma PrefixesDistinct(a: U32, b: U32)
    requires a < b < |MAGNITUDE_PREFIXES|
    ensures UnitMagnitudePrefix(a) != UnitMagnitudePrefix(b)
  {
  }
}
