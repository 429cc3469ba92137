/** Durations in milliseconds and byte sizes, absolute or a percentage, in their units. */
module Units {
  import opened Integers
  import opened Wrappers
  import opened Text

  // ---- Durations --------------------------------------------------------------------------------

  const DURATIONS: seq<Unit> := [Unit("ms", 1), Unit("s", 1000), Unit("m", 60 * 1000), Unit("h", 60 * 60 * 1000)]

  lemma DurationsAscend()
    ensures |DURATIONS| == 4 && Ascending(DURATIONS) && DURATIONS[0] == Unit("ms", 1)
  {
  }

  lemma DurationUnits()
    ensures |DURATIONS| == 4 && AreUnits(DURATIONS) && Ascending(DURATIONS) && DURATIONS[0] == Unit("ms", 1)
  {
    DurationsAscend();
    assert DURATIONS[0].suffix == "ms" && DURATIONS[1].suffix == "s";
    assert DURATIONS[2].suffix == "m" && DURATIONS[3].suffix == "h";
    assert |"ms"| == 2 && |"s"| == |"m"| == |"h"| == 1;
  }

  function ParseDuration(text: string): (r: Result<nat, ParseError>)
    ensures r.Ok? ==> r.value <= MAX_INT64
  {
    DurationUnits();
    match SplitNumberAndSuffix(text)
    case Err(e) => Err(e)
    case Ok(parts) =>
      if parts.suffix == "" then Err(MissingUnit) else Scaled(DURATIONS, parts.value, parts.suffix, MAX_INT64)
  }

  /** The largest exact unit; a negative duration is refused. */
  function PrintDuration(millis: int): Result<string, ParseError> {
    if millis < 0 then Err(NegativeValue)
    else
      DurationUnits();
      match LargestExact(DURATIONS, millis)
      case Some(unit) =>
        if millis != 0 then Ok(Decimal(millis / unit.scale) + unit.suffix) else Ok(Decimal(millis) + "ms")
      case None => Ok(Decimal(millis) + "ms")
  }

  /** Count and unit of a printed quantity. */
  lemma PrintedDuration(millis: nat) returns (i: nat)
    ensures i < |DURATIONS| && millis % DURATIONS[i].scale == 0
    ensures PrintDuration(millis) == Ok(Decimal(millis / DURATIONS[i].scale) + DURATIONS[i].suffix)
    ensures millis != 0 ==> forall k :: 0 <= k < |DURATIONS| && millis % DURATIONS[k].scale == 0 ==>
              DURATIONS[k].scale <= DURATIONS[i].scale
  {
    hide DURATIONS;
    DurationUnits();
    if millis == 0 {
      i := 0;
    } else {
      LargestIsLargest(DURATIONS, millis, 0);
      i :| 0 <= i < |DURATIONS| && DURATIONS[i] == LargestExact(DURATIONS, millis).value;
      forall k | 0 <= k < |DURATIONS| && millis % DURATIONS[k].scale == 0
        ensures DURATIONS[k].scale <= DURATIONS[i].scale
      {
        LargestIsLargest(DURATIONS, millis, k);
      }
    }
  }

  /** A number of some unit, as written, is read as that many of it. */
  lemma ReadScaled(units: seq<Unit>, i: nat, n: nat, ceiling: nat)
    requires AreUnits(units) && i < |units| && n % units[i].scale == 0 && n <= ceiling
    ensures Scaled(units, n / units[i].scale, units[i].suffix, ceiling) == Ok(n)
  {
    var scale := units[i].scale;
    FoundUnit(units, i);
    assert n / scale * scale == n;
    ProductFits(n / scale, scale, ceiling);
  }

  lemma QuotientIsSmaller(n: nat, scale: nat)
    requires scale > 0
    ensures n / scale <= n
  {
    ProductFits(n / scale, scale, n);
    MultipleIsLarger(n / scale, scale);
  }

  lemma MultipleIsLarger(q: nat, scale: nat)
    requires scale > 0
    ensures q <= q * scale
  {
    assert q * (scale - 1) >= 0;
  }

  /** Every duration that can be configured is printed as text that is read back as itself, however padded. */
  lemma DurationRoundTrip(millis: nat, left: string, right: string)
    requires millis <= MAX_INT64 && AllSpace(left) && AllSpace(right)
    ensures PrintDuration(millis).Ok?
    ensures ParseDuration(left + PrintDuration(millis).value + right) == Ok(millis)
  {
    hide PrintDuration, Scaled, SplitNumberAndSuffix;
    DurationUnits();
    var i := PrintedDuration(millis);
    var scale, suffix := DURATIONS[i].scale, DURATIONS[i].suffix;
    var digits := Decimal(millis / scale);
    DecimalIsValue(millis / scale);
    QuotientIsSmaller(millis, scale);
    WrittenIsSplit(left + (digits + suffix) + right, left, digits, suffix, right);
    ReadScaled(DURATIONS, i, millis, MAX_INT64);
  }

  /** Exactly the texts that are durations: padding, digits, one of the units, padding, and a product that fits. */
  ghost predicate WritesDuration(text: string, millis: nat) {
    exists left, digits, right, i: nat ::
      && i < |DURATIONS| && IsWritten(text, left, digits, DURATIONS[i].suffix, right)
      && ValueOf(digits) <= MAX_UINT64 && millis == ValueOf(digits) * DURATIONS[i].scale && millis <= MAX_INT64
  }

  lemma DurationLanguage(text: string, millis: nat)
    ensures ParseDuration(text) == Ok(millis) <==> WritesDuration(text, millis)
  {
    hide SplitNumberAndSuffix;
    DurationUnits();
    if ParseDuration(text) == Ok(millis) {
      var left, digits, right := SplitIsWritten(text);
      var parts := SplitNumberAndSuffix(text).value;
      var unit := FindUnit(DURATIONS, parts.suffix).value;
      var i: nat :| i < |DURATIONS| && DURATIONS[i] == unit;
      assert IsWritten(text, left, digits, DURATIONS[i].suffix, right);
    }
    if WritesDuration(text, millis) {
      var left, digits, right, i: nat :|
        && i < |DURATIONS| && IsWritten(text, left, digits, DURATIONS[i].suffix, right)
        && ValueOf(digits) <= MAX_UINT64 && millis == ValueOf(digits) * DURATIONS[i].scale && millis <= MAX_INT64;
      WrittenIsSplit(text, left, digits, DURATIONS[i].suffix, right);
      FoundUnit(DURATIONS, i);
      ProductFits(ValueOf(digits), DURATIONS[i].scale, MAX_INT64);
    }
  }

  /** Why a number with a suffix is no duration: too large, no unit, an unknown one, or a product that does not fit. */
  lemma DurationRefusals(text: string, left: string, digits: string, suffix: string, right: string)
    requires IsWritten(text, left, digits, suffix, right)
    ensures ParseDuration(text) == Err(MissingUnit) <==> ValueOf(digits) <= MAX_UINT64 && suffix == ""
    ensures ParseDuration(text) == Err(UnknownUnit) <==>
            ValueOf(digits) <= MAX_UINT64 && suffix != ""
            && forall i :: 0 <= i < |DURATIONS| ==> DURATIONS[i].suffix != suffix
    ensures ParseDuration(text) == Err(OutOfRange) <==>
            ValueOf(digits) > MAX_UINT64
            || exists i :: 0 <= i < |DURATIONS| && DURATIONS[i].suffix == suffix
                           && ValueOf(digits) * DURATIONS[i].scale > MAX_INT64
  {
    hide SplitNumberAndSuffix, DURATIONS;
    DurationUnits();
    WrittenIsSplit(text, left, digits, suffix, right);
    forall i | 0 <= i < |DURATIONS| && DURATIONS[i].suffix == suffix
      ensures FindUnit(DURATIONS, suffix) == Some(DURATIONS[i])
      ensures ValueOf(digits) > MAX_INT64 / DURATIONS[i].scale <==> ValueOf(digits) * DURATIONS[i].scale > MAX_INT64
    {
      FoundUnit(DURATIONS, i);
      ProductFits(ValueOf(digits), DURATIONS[i].scale, MAX_INT64);
    }
    assert suffix != "" && FindUnit(DURATIONS, suffix).Some? ==>
             exists i :: 0 <= i < |DURATIONS| && DURATIONS[i] == FindUnit(DURATIONS, suffix).value;
  }

  // ---- Byte sizes -------------------------------------------------------------------------------

  const KIB := 1024
  const MIB := 1024 * KIB
  const GIB := 1024 * MIB
  const TIB := 1024 * GIB

  const SIZES: seq<Unit> := [Unit("B", 1), Unit("KiB", KIB), Unit("MiB", MIB), Unit("GiB", GIB), Unit("TiB", TIB)]

  lemma SizesAscend()
    ensures |SIZES| == 5 && Ascending(SIZES) && SIZES[0] == Unit("B", 1)
  {
  }

  lemma SizeUnits()
    ensures |SIZES| == 5 && AreUnits(SIZES) && Ascending(SIZES) && SIZES[0] == Unit("B", 1)
    ensures forall i :: 0 <= i < |SIZES| ==> SIZES[i].suffix != "%"
  {
    SizesAscend();
    assert SIZES[0].suffix == "B" && SIZES[1].suffix == "KiB" && SIZES[2].suffix == "MiB";
    assert SIZES[3].suffix == "GiB" && SIZES[4].suffix == "TiB";
    assert "B"[0] == 'B' && "KiB"[0] == 'K' && "MiB"[0] == 'M' && "GiB"[0] == 'G' && "TiB"[0] == 'T';
  }

  /** A footprint: so many bytes, or a share of what is available. */
  datatype ByteSize = Bytes(count: nat) | Percent(whole: nat)
  {
    predicate Valid() {
      match this
      case Bytes(count) => count <= MAX_UINT64
      case Percent(whole) => 1 <= whole <= 100
    }
  }

  function PercentOf(whole: nat): Result<ByteSize, ParseError> {
    if whole == 0 || whole > 100 then Err(OutOfRange) else Ok(Percent(whole))
  }

  function ParseByteSize(text: string): (r: Result<ByteSize, ParseError>)
    ensures r.Ok? ==> r.value.Valid()
  {
    SizeUnits();
    match SplitNumberAndSuffix(text)
    case Err(e) => Err(e)
    case Ok(parts) =>
      if parts.suffix == "" then Ok(Bytes(parts.value))
      else if parts.suffix == "%" then PercentOf(parts.value)
      else
        match Scaled(SIZES, parts.value, parts.suffix, MAX_UINT64)
        case Err(e) => Err(e)
        case Ok(count) => Ok(Bytes(count))
  }

  function PrintByteSize(size: ByteSize): string {
    match size
    case Percent(whole) => Decimal(whole) + "%"
    case Bytes(count) =>
      SizeUnits();
      match LargestExact(SIZES, count)
      case Some(unit) => if count != 0 then Decimal(count / unit.scale) + unit.suffix else Decimal(count) + "B"
      case None => Decimal(count) + "B"
  }

  lemma PrintedBytes(count: nat) returns (i: nat)
    ensures i < |SIZES| && count % SIZES[i].scale == 0
    ensures PrintByteSize(Bytes(count)) == Decimal(count / SIZES[i].scale) + SIZES[i].suffix
    ensures count != 0 ==> forall k :: 0 <= k < |SIZES| && count % SIZES[k].scale == 0 ==>
              SIZES[k].scale <= SIZES[i].scale
  {
    hide SIZES;
    SizeUnits();
    if count == 0 {
      i := 0;
    } else {
      LargestIsLargest(SIZES, count, 0);
      i :| 0 <= i < |SIZES| && SIZES[i] == LargestExact(SIZES, count).value;
      forall k | 0 <= k < |SIZES| && count % SIZES[k].scale == 0 ensures SIZES[k].scale <= SIZES[i].scale {
        LargestIsLargest(SIZES, count, k);
      }
    }
  }

  /** Every size, absolute or a percentage, is printed as text that is read back as itself, however padded. */
  lemma ByteSizeRoundTrip(size: ByteSize, left: string, right: string)
    requires size.Valid() && AllSpace(left) && AllSpace(right)
    ensures ParseByteSize(left + PrintByteSize(size) + right) == Ok(size)
  {
    hide Scaled, SplitNumberAndSuffix;
    SizeUnits();
    match size
    case Percent(whole) =>
      DecimalIsValue(whole);
      WrittenIsSplit(left + (Decimal(whole) + "%") + right, left, Decimal(whole), "%", right);
    case Bytes(count) =>
      hide PrintByteSize;
      var i := PrintedBytes(count);
      var scale, suffix := SIZES[i].scale, SIZES[i].suffix;
      var digits := Decimal(count / scale);
      DecimalIsValue(count / scale);
      QuotientIsSmaller(count, scale);
      WrittenIsSplit(left + (digits + suffix) + right, left, digits, suffix, right);
      ReadScaled(SIZES, i, count, MAX_UINT64);
  }

  /** A text that writes so many of a unit, or bytes if there is none. */
  predicate WritesBytes(text: string, size: ByteSize, left: string, digits: string, unit: Unit, right: string) {
    && IsWritten(text, left, digits, unit.suffix, right)
    && ValueOf(digits) <= MAX_UINT64 && size == Bytes(ValueOf(digits) * unit.scale) && size.Valid()
  }

  predicate WritesPercent(text: string, size: ByteSize, left: string, digits: string, right: string) {
    IsWritten(text, left, digits, "%", right) && size == Percent(ValueOf(digits)) && size.Valid()
  }

  /**
   Exactly the texts that are byte sizes: a bare number, a percentage from 1 to
   100, or a number of a unit that fits.
   */
  ghost predicate WritesByteSize(text: string, size: ByteSize) {
    || (exists left, digits, right :: WritesBytes(text, size, left, digits, Unit("", 1), right))
    || (exists left, digits, right :: WritesPercent(text, size, left, digits, right))
    || (exists left, digits, right, unit :: unit in SIZES && WritesBytes(text, size, left, digits, unit, right))
  }

  lemma ReadByteSize(text: string)
    requires ParseByteSize(text).Ok?
    ensures WritesByteSize(text, ParseByteSize(text).value)
  {
    hide SplitNumberAndSuffix, SIZES;
    SizeUnits();
    var left, digits, right := SplitIsWritten(text);
    var parts, size := SplitNumberAndSuffix(text).value, ParseByteSize(text).value;
    if parts.suffix == "" {
      assert WritesBytes(text, size, left, digits, Unit("", 1), right);
    } else if parts.suffix == "%" {
      assert WritesPercent(text, size, left, digits, right);
    } else {
      var unit := FindUnit(SIZES, parts.suffix).value;
      assert WritesBytes(text, size, left, digits, unit, right);
    }
  }

  lemma WrittenBytes(text: string, size: ByteSize, left: string, digits: string, unit: Unit, right: string)
    requires unit in SIZES && WritesBytes(text, size, left, digits, unit, right)
    ensures ParseByteSize(text) == Ok(size)
  {
    hide SplitNumberAndSuffix, SIZES;
    SizeUnits();
    var i :| 0 <= i < |SIZES| && SIZES[i] == unit;
    WrittenIsSplit(text, left, digits, unit.suffix, right);
    FoundUnit(SIZES, i);
    ProductFits(ValueOf(digits), unit.scale, MAX_UINT64);
  }

  lemma WrittenByteSize(text: string, size: ByteSize)
    requires WritesByteSize(text, size)
    ensures ParseByteSize(text) == Ok(size)
  {
    hide SplitNumberAndSuffix, SIZES;
    if left, digits, right :| WritesBytes(text, size, left, digits, Unit("", 1), right) {
      WrittenIsSplit(text, left, digits, "", right);
    } else if left, digits, right :| WritesPercent(text, size, left, digits, right) {
      WrittenIsSplit(text, left, digits, "%", right);
    } else {
      var left, digits, right, unit :| unit in SIZES && WritesBytes(text, size, left, digits, unit, right);
      WrittenBytes(text, size, left, digits, unit, right);
    }
  }

  lemma ByteSizeLanguage(text: string, size: ByteSize)
    ensures ParseByteSize(text) == Ok(size) <==> WritesByteSize(text, size)
  {
    hide ParseByteSize, WritesByteSize;
    if ParseByteSize(text) == Ok(size) {
      ReadByteSize(text);
    }
    if WritesByteSize(text, size) {
      WrittenByteSize(text, size);
    }
  }

  /**
   Why a number with a suffix is no size: too large, a percentage out of range,
   an unknown unit, or a product that does not fit.
   */
  lemma ByteSizeRefusals(text: string, left: string, digits: string, suffix: string, right: string)
    requires IsWritten(text, left, digits, suffix, right)
    ensures ParseByteSize(text) == Err(UnknownUnit) <==>
            ValueOf(digits) <= MAX_UINT64 && suffix != "" && suffix != "%"
            && forall i :: 0 <= i < |SIZES| ==> SIZES[i].suffix != suffix
    ensures ParseByteSize(text) == Err(OutOfRange) <==>
            || ValueOf(digits) > MAX_UINT64
            || (suffix == "%" && !(1 <= ValueOf(digits) <= 100))
            || exists i :: 0 <= i < |SIZES| && SIZES[i].suffix == suffix
                           && ValueOf(digits) * SIZES[i].scale > MAX_UINT64
  {
    hide SplitNumberAndSuffix, SIZES;
    SizeUnits();
    WrittenIsSplit(text, left, digits, suffix, right);
    forall i | 0 <= i < |SIZES| && SIZES[i].suffix == suffix
      ensures FindUnit(SIZES, suffix) == Some(SIZES[i])
      ensures ValueOf(digits) > MAX_UINT64 / SIZES[i].scale <==> ValueOf(digits) * SIZES[i].scale > MAX_UINT64
    {
      FoundUnit(SIZES, i);
      ProductFits(ValueOf(digits), SIZES[i].scale, MAX_UINT64);
    }
    assert FindUnit(SIZES, suffix).Some? ==>
             exists i :: 0 <= i < |SIZES| && SIZES[i] == FindUnit(SIZES, suffix).value;
  }
}
