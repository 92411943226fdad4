/** The human-readable byte-size formatter: a plain integer below one
    kibibyte (or whenever raw display is asked for), otherwise the value in
    kibi-, mebi- or gibibytes with one fractional digit and a K, M or G
    suffix. */
module SizeFormat {
  import opened Outcomes
  import opened Decimal
  import opened GoInt
  import Float64

  const Kibibyte: int := 1024
  const Mebibyte: int := 1024 * 1024
  const Gibibyte: int := 1024 * 1024 * 1024

  datatype Unit = Kibi | Mebi | Gibi

  function Scale(u: Unit): int {
    match u
    case Kibi => Kibibyte
    case Mebi => Mebibyte
    case Gibi => Gibibyte
  }

  function Suffix(u: Unit): char {
    match u
    case Kibi => 'K'
    case Mebi => 'M'
    case Gibi => 'G'
  }

  /** `%.1f` of size / Scale(u), then the unit's suffix. The quotient is exact
      in binary64 (a division by a power of two), and Go prints it by exact
      decimal rounding with ties to even, so the text is the quotient
      rounded to tenths. */
  function Tenths(size: int, u: Unit): (r: string)
    requires size >= 0
    ensures |r| >= 4 && r[|r| - 1] == Suffix(u)
  {
    var t: nat := Float64.RoundHalfEven(size * 10, Scale(u));
    NatToString(t / 10) + ['.', DigitChar(t % 10), Suffix(u)]
  }

  /** The formatter itself. `float64(s)` is taken first, so every comparison
      and every printed digit is about the binary64 value of s. */
  function Psize(displayRawValue: bool, s: Int64): (r: string)
    ensures |r| >= 1
    ensures displayRawValue || s < Kibibyte ==> ParseInt(r) == Some(Float64.OfInt(s))
    ensures !displayRawValue ==>
      && (r[|r| - 1] == 'K' <==> Kibibyte <= s < Mebibyte)
      && (r[|r| - 1] == 'M' <==> Mebibyte <= s < Gibibyte)
      && (r[|r| - 1] == 'G' <==> Gibibyte <= s)
  {
    var size := Float64.OfInt(s);
    assert size < Kibibyte <==> s < Kibibyte;
    assert size < Mebibyte <==> s < Mebibyte;
    assert size < Gibibyte <==> s < Gibibyte;
    if displayRawValue || size < Kibibyte then IntToStringRoundTrip(size); IntToString(size)
    else if size < Mebibyte then Tenths(size, Kibi)
    else if size < Gibibyte then Tenths(size, Mebi)
    else Tenths(size, Gibi)
  }

  /** What a formatted size says: a plain integer, or a count of tenths of a unit. */
  datatype Reading = Plain(value: int) | Scaled(tenths: nat, unit: Unit)

  function UnitOfSuffix(c: char): Option<Unit> {
    if c == 'K' then Some(Kibi)
    else if c == 'M' then Some(Mebi)
    else if c == 'G' then Some(Gibi)
    else None
  }

  /** Reads a size back from its text: `<digits>.<digit><suffix>` or a signed integer. */
  function ReadSize(r: string): Option<Reading> {
    var n := |r|;
    if n >= 4 && UnitOfSuffix(r[n - 1]).Some? && r[n - 3] == '.' && IsDigit(r[n - 2])
       && AllDigits(r[..n - 3])
    then
      Some(Scaled(ParseNat(r[..n - 3]) * 10 + DigitValue(r[n - 2]), UnitOfSuffix(r[n - 1]).value))
    else
      match ParseInt(r)
      case Some(v) => Some(Plain(v))
      case None => None
  }

  lemma ReadTenths(size: int, u: Unit)
    requires size >= 0
    ensures ReadSize(Tenths(size, u)) == Some(Scaled(Float64.RoundHalfEven(size * 10, Scale(u)), u))
  {
    var t: nat := Float64.RoundHalfEven(size * 10, Scale(u));
    var a := NatToString(t / 10);
    var r := a + ['.', DigitChar(t % 10), Suffix(u)];
    assert r[..|r| - 3] == a;
    ParseNatOfNatToString(t / 10);
  }

  lemma ReadPlain(i: int)
    ensures ReadSize(IntToString(i)) == Some(Plain(i))
  {
    IntToStringRoundTrip(i);
  }

  /** Reading the formatter's output back recovers the binary64 value of s
      exactly when it is printed plain, and otherwise the nearest tenth of
      the unit chosen by the thresholds (ties to the even tenth). */
  lemma PsizeReadsBack(raw: bool, s: Int64)
    ensures var v := Float64.OfInt(s);
      raw || v < Kibibyte ==> ReadSize(Psize(raw, s)) == Some(Plain(v))
    ensures var v, rd := Float64.OfInt(s), ReadSize(Psize(raw, s));
      !raw && v >= Kibibyte ==>
        && rd.Some? && rd.value.Scaled?
        && Scale(rd.value.unit) <= v
        && (rd.value.unit == Gibi || v < Kibibyte * Scale(rd.value.unit))
        && -Scale(rd.value.unit) <= 2 * (10 * v - rd.value.tenths * Scale(rd.value.unit)) <= Scale(rd.value.unit)
        && (2 * (10 * v - rd.value.tenths * Scale(rd.value.unit)) == Scale(rd.value.unit)
            || 2 * (10 * v - rd.value.tenths * Scale(rd.value.unit)) == -Scale(rd.value.unit)
            ==> rd.value.tenths % 2 == 0)
  {
    var v := Float64.OfInt(s);
    if raw || v < Kibibyte {
      ReadPlain(v);
    } else if v < Mebibyte {
      ReadTenths(v, Kibi);
    } else if v < Gibibyte {
      ReadTenths(v, Mebi);
    } else {
      ReadTenths(v, Gibi);
    }
  }

  /** Without raw display the suffix is chosen by the thresholds on s itself:
      none below 1024, K below 1024^2, M below 1024^3, G from there on. */
  lemma PsizeSuffix(s: Int64)
    ensures var r := Psize(false, s);
      && |r| >= 1
      && (IsDigit(r[|r| - 1]) <==> s < Kibibyte)
      && (r[|r| - 1] == 'K' <==> Kibibyte <= s < Mebibyte)
      && (r[|r| - 1] == 'M' <==> Mebibyte <= s < Gibibyte)
      && (r[|r| - 1] == 'G' <==> Gibibyte <= s)
  {
    var v := Float64.OfInt(s);
    assert v < Kibibyte <==> s < Kibibyte;
    assert v < Mebibyte <==> s < Mebibyte;
    assert v < Gibibyte <==> s < Gibibyte;
  }

  /** A plain result is the decimal text of s itself while s fits the 53-bit
      significand; beyond that the binary64 rounding of s shows. */
  lemma PsizePlainIsDecimal(raw: bool, s: Int64)
    requires raw || s < Kibibyte
    requires -Float64.TwoTo53 <= s <= Float64.TwoTo53
    ensures Psize(raw, s) == IntToString(s)
    ensures ParseInt(Psize(raw, s)) == Some(s as int)
  {
    IntToStringRoundTrip(s);
  }

  /** The raw bypass of an int64 that binary64 cannot hold prints its rounded value. */
  lemma PsizeRawRounds()
    ensures Psize(true, Float64.TwoTo53 + 1) == IntToString(Float64.TwoTo53)
  {
    Float64.OfIntLosesLowBit();
  }

  /** Reference values at and below the boundaries. */
  lemma PsizeBoundaryExamples()
    ensures Psize(false, 1023) == "1023"
    ensures Psize(false, Kibibyte) == "1.0K"
    ensures Psize(false, Mebibyte) == "1.0M"
    ensures Psize(false, Gibibyte) == "1.0G"
  {
    assert NatToString(1023) == "1023";
    OneUnit(Kibi);
    OneUnit(Mebi);
    OneUnit(Gibi);
  }

  /** Exactly one unit prints as "1.0" followed by the unit's suffix. */
  lemma OneUnit(u: Unit)
    ensures Psize(false, Scale(u)) == ['1', '.', '0', Suffix(u)]
  {
    var size := Float64.OfInt(Scale(u));
    assert size == Scale(u);
    Float64.RoundHalfEvenUnique(Scale(u) * 10, Scale(u), 10);
    assert Tenths(size, u) == NatToString(1) + ['.', DigitChar(0), Suffix(u)];
  }

  /** With raw display the same values print in full. */
  lemma PsizeRawExamples()
    ensures Psize(true, 1023) == "1023"
    ensures Psize(true, Kibibyte) == "1024"
    ensures Psize(true, Mebibyte) == "1048576"
    ensures Psize(true, Gibibyte) == "1073741824"
  {
    assert NatToString(1023) == "1023";
    assert NatToString(1024) == "1024";
    MebibyteDigits();
    GibibyteDigits();
  }

  lemma MebibyteDigits()
    ensures NatToString(Mebibyte) == "1048576"
  {
    assert NatToString(1048) == "1048";
    assert NatToString(1048576) == NatToString(104857) + "6" == NatToString(10485) + "76"
      == NatToString(1048) + "576";
  }

  lemma GibibyteDigits()
    ensures NatToString(Gibibyte) == "1073741824"
  {
    assert NatToString(1073) == "1073";
    assert NatToString(10737) == "10737";
    assert NatToString(107374) == "107374";
    assert NatToString(1073741) == "1073741";
    assert NatToString(10737418) == "10737418";
    assert NatToString(107374182) == "107374182";
    assert NatToString(1073741824) == "1073741824";
  }

  /** A tie rounds to the even tenth, and the printed mantissa can reach 1024.0. */
  lemma PsizeRoundingExamples()
    ensures Psize(false, 1280) == "1.2K"
    ensures Psize(false, Mebibyte - 1) == "1024.0K"
  {
    Float64.RoundHalfEvenUnique(12800, Kibibyte, 12);
    Float64.RoundHalfEvenUnique(10485750, Kibibyte, 10240);
    assert NatToString(1024) == "1024";
  }
}
