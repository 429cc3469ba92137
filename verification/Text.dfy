/** Padded decimal numbers with a suffix, and tables of units: parsing and printing them. */
module Text {
  import opened Integers
  import opened Wrappers

  datatype ParseError = Empty | InvalidNumber | MissingUnit | UnknownUnit | NegativeValue | OutOfRange

  // ---- Padding --------------------------------------------------------------------------------

  predicate IsSpace(c: char) {
    c == ' ' || c == '\t'
  }

  predicate AllSpace(s: string) {
    forall i :: 0 <= i < |s| ==> IsSpace(s[i])
  }

  function TrimLeft(s: string): string {
    if s != "" && IsSpace(s[0]) then TrimLeft(s[1..]) else s
  }

  function TrimRight(s: string): string {
    if s != "" && IsSpace(s[|s| - 1]) then TrimRight(s[..|s| - 1]) else s
  }

  function Trim(s: string): string {
    TrimRight(TrimLeft(s))
  }

  /** Text that begins and ends with something other than padding. */
  predicate Bare(s: string) {
    s != "" && !IsSpace(s[0]) && !IsSpace(s[|s| - 1])
  }

  lemma {:induction false} LeftPadding(pad: string, s: string)
    requires AllSpace(pad) && (s == "" || !IsSpace(s[0]))
    ensures TrimLeft(pad + s) == s
  {
    if pad == "" {
      assert pad + s == s;
    } else {
      assert (pad + s)[1..] == pad[1..] + s;
      LeftPadding(pad[1..], s);
    }
  }

  lemma {:induction false} RightPadding(s: string, pad: string)
    requires AllSpace(pad) && (s == "" || !IsSpace(s[|s| - 1]))
    ensures TrimRight(s + pad) == s
  {
    if pad == "" {
      assert s + pad == s;
    } else {
      var n := |pad| - 1;
      assert (s + pad)[..|s| + n] == s + pad[..n];
      RightPadding(s, pad[..n]);
    }
  }

  lemma PaddingIsTrimmed(left: string, s: string, right: string)
    requires AllSpace(left) && AllSpace(right) && Bare(s)
    ensures Trim(left + s + right) == s
  {
    assert left + s + right == left + (s + right);
    LeftPadding(left, s + right);
    RightPadding(s, right);
  }

  lemma {:induction false} TrimLeftSplits(s: string) returns (pad: string)
    ensures AllSpace(pad) && s == pad + TrimLeft(s)
    ensures TrimLeft(s) == "" || !IsSpace(TrimLeft(s)[0])
  {
    if s != "" && IsSpace(s[0]) {
      var rest := TrimLeftSplits(s[1..]);
      pad := [s[0]] + rest;
      assert s == [s[0]] + s[1..] == [s[0]] + (rest + TrimLeft(s[1..])) == pad + TrimLeft(s);
    } else {
      pad := "";
    }
  }

  lemma {:induction false} TrimRightSplits(s: string) returns (pad: string)
    ensures AllSpace(pad) && s == TrimRight(s) + pad
    ensures TrimRight(s) == "" || !IsSpace(TrimRight(s)[|TrimRight(s)| - 1])
  {
    if s != "" && IsSpace(s[|s| - 1]) {
      var rest := TrimRightSplits(s[..|s| - 1]);
      pad := rest + [s[|s| - 1]];
      assert s == s[..|s| - 1] + [s[|s| - 1]] == (TrimRight(s) + rest) + [s[|s| - 1]] == TrimRight(s) + pad;
    } else {
      pad := "";
    }
  }

  /** What trimming leaves is the text less its padding, on both sides. */
  lemma TrimSplits(s: string) returns (left: string, right: string)
    ensures AllSpace(left) && AllSpace(right) && s == left + Trim(s) + right
    ensures Trim(s) == "" || Bare(Trim(s))
  {
    left := TrimLeftSplits(s);
    right := TrimRightSplits(TrimLeft(s));
    assert s == left + (Trim(s) + right) == left + Trim(s) + right;
    if Trim(s) != "" {
      assert Trim(s)[0] == TrimLeft(s)[0];
    }
  }

  // ---- Decimal numbers --------------------------------------------------------------------------

  predicate IsDigit(c: char) {
    '0' <= c <= '9'
  }

  predicate AllDigits(s: string) {
    forall i :: 0 <= i < |s| ==> IsDigit(s[i])
  }

  function ValueOf(digits: string): nat
    requires AllDigits(digits)
  {
    if digits == "" then 0
    else ValueOf(digits[..|digits| - 1]) * 10 + (digits[|digits| - 1] as int - '0' as int)
  }

  function DigitOf(n: nat): (c: char)
    requires n < 10
    ensures IsDigit(c) && c as int - '0' as int == n
  {
    ('0' as int + n) as char
  }

  function Decimal(n: nat): (s: string)
    ensures s != "" && AllDigits(s)
  {
    if n < 10 then [DigitOf(n)] else Decimal(n / 10) + [DigitOf(n % 10)]
  }

  lemma {:induction false} DecimalIsValue(n: nat)
    ensures ValueOf(Decimal(n)) == n
  {
    var s := Decimal(n);
    if n < 10 {
      assert s[..|s| - 1] == "";
    } else {
      DecimalIsValue(n / 10);
      assert s[..|s| - 1] == Decimal(n / 10);
    }
  }

  /** The digits a text begins with. */
  function DigitRun(s: string): (n: nat)
    ensures n <= |s| && AllDigits(s[..n]) && (n < |s| ==> !IsDigit(s[n]))
  {
    if s == "" || !IsDigit(s[0]) then 0
    else
      var rest := DigitRun(s[1..]);
      assert s[..1 + rest] == [s[0]] + s[1..][..rest];
      1 + rest
  }

  lemma {:induction false} RunOfDigits(digits: string, rest: string)
    requires AllDigits(digits) && (rest == "" || !IsDigit(rest[0]))
    ensures DigitRun(digits + rest) == |digits|
  {
    if digits == "" {
      assert digits + rest == rest;
    } else {
      assert (digits + rest)[1..] == digits[1..] + rest;
      RunOfDigits(digits[1..], rest);
    }
  }

  datatype NumberAndSuffix = NumberAndSuffix(value: nat, suffix: string)

  function SplitNumberAndSuffix(text: string): (r: Result<NumberAndSuffix, ParseError>)
    ensures r.Ok? ==> r.value.value <= MAX_UINT64
  {
    var trimmed := Trim(text);
    if trimmed == "" then Err(Empty)
    else if trimmed[0] == '-' then Err(NegativeValue)
    else
      var n := DigitRun(trimmed);
      if n == 0 then Err(InvalidNumber)
      else if ValueOf(trimmed[..n]) > MAX_UINT64 then Err(OutOfRange)
      else Ok(NumberAndSuffix(ValueOf(trimmed[..n]), trimmed[n..]))
  }

  /** A suffix that can stand after a number: it does not go on with digits or end in padding. */
  predicate IsSuffix(s: string) {
    s == "" || (!IsDigit(s[0]) && !IsSpace(s[|s| - 1]))
  }

  /** A number as written: padding, digits, a suffix, padding. */
  predicate IsWritten(text: string, left: string, digits: string, suffix: string, right: string) {
    && AllSpace(left) && AllSpace(right)
    && digits != "" && AllDigits(digits) && IsSuffix(suffix)
    && text == left + (digits + suffix) + right
  }

  lemma WrittenIsSplit(text: string, left: string, digits: string, suffix: string, right: string)
    requires IsWritten(text, left, digits, suffix, right)
    ensures SplitNumberAndSuffix(text) ==
            if ValueOf(digits) > MAX_UINT64 then Err(OutOfRange) else Ok(NumberAndSuffix(ValueOf(digits), suffix))
  {
    var s := digits + suffix;
    assert s[0] == digits[0];
    assert s[|s| - 1] == if suffix == "" then digits[|digits| - 1] else suffix[|suffix| - 1];
    PaddingIsTrimmed(left, s, right);
    RunOfDigits(digits, suffix);
    assert s[..|digits|] == digits && s[|digits|..] == suffix;
  }

  lemma SplitIsWritten(text: string) returns (left: string, digits: string, right: string)
    requires SplitNumberAndSuffix(text).Ok?
    ensures var parts := SplitNumberAndSuffix(text).value;
            IsWritten(text, left, digits, parts.suffix, right) && ValueOf(digits) == parts.value
  {
    left, right := TrimSplits(text);
    var trimmed := Trim(text);
    var n := DigitRun(trimmed);
    digits := trimmed[..n];
    assert trimmed == digits + trimmed[n..];
  }

  /** Why a text is no number: nothing but padding, a minus sign, or no digit where one must be. */
  lemma NotANumber(text: string)
    ensures SplitNumberAndSuffix(text) == Err(Empty) <==> AllSpace(text)
    ensures SplitNumberAndSuffix(text) == Err(NegativeValue) <==> Trim(text) != "" && Trim(text)[0] == '-'
    ensures SplitNumberAndSuffix(text) == Err(InvalidNumber) <==>
            Trim(text) != "" && Trim(text)[0] != '-' && !IsDigit(Trim(text)[0])
  {
    var left, right := TrimSplits(text);
    if AllSpace(text) {
      LeftPadding(text, "");
      assert text + "" == text;
    }
  }

  // ---- Units ------------------------------------------------------------------------------------

  datatype Unit = Unit(suffix: string, scale: nat)

  predicate AreUnits(units: seq<Unit>) {
    && (forall i :: 0 <= i < |units| ==> units[i].scale > 0 && units[i].suffix != "" && IsSuffix(units[i].suffix))
    && forall i, j :: 0 <= i < j < |units| ==> units[i].suffix != units[j].suffix
  }

  /** The first unit with a suffix. */
  function FindUnit(units: seq<Unit>, suffix: string): (u: Option<Unit>)
    ensures u.Some? ==> u.value in units && u.value.suffix == suffix
    ensures u.None? ==> forall i :: 0 <= i < |units| ==> units[i].suffix != suffix
  {
    if units == [] then None
    else if units[0].suffix == suffix then Some(units[0])
    else FindUnit(units[1..], suffix)
  }

  lemma FoundUnit(units: seq<Unit>, i: nat)
    requires AreUnits(units) && i < |units|
    ensures FindUnit(units, units[i].suffix) == Some(units[i])
  {
    var found := FindUnit(units, units[i].suffix);
    var j :| 0 <= j < |units| && units[j] == found.value;
  }

  /** A count of a unit, refused if the product would pass the ceiling. */
  function Scaled(units: seq<Unit>, count: nat, suffix: string, ceiling: nat): (r: Result<nat, ParseError>)
    requires forall i :: 0 <= i < |units| ==> units[i].scale > 0
    ensures r.Ok? ==> r.value <= ceiling
  {
    match FindUnit(units, suffix)
    case None => Err(UnknownUnit)
    case Some(unit) =>
      if count > ceiling / unit.scale then Err(OutOfRange)
      else
        ProductFits(count, unit.scale, ceiling);
        Ok(count * unit.scale)
  }

  /** The guard refuses exactly the products that do not fit. */
  lemma ProductFits(count: nat, scale: nat, ceiling: nat)
    requires scale > 0
    ensures count <= ceiling / scale <==> count * scale <= ceiling
  {
    var q, r := ceiling / scale, ceiling % scale;
    assert ceiling == q * scale + r && r < scale;
    if count <= q {
      assert count * scale <= q * scale;
    } else {
      assert count * scale >= (q + 1) * scale == q * scale + scale;
    }
  }

  /** The last unit, so the largest, that divides a count exactly. */
  function LargestExact(units: seq<Unit>, n: nat): (u: Option<Unit>)
    requires forall i :: 0 <= i < |units| ==> units[i].scale > 0
    ensures u.Some? ==> u.value in units && n % u.value.scale == 0
    ensures u.None? ==> forall i :: 0 <= i < |units| ==> n % units[i].scale != 0
  {
    if units == [] then None
    else
      var last := units[|units| - 1];
      if n % last.scale == 0 then Some(last) else LargestExact(units[..|units| - 1], n)
  }

  predicate Ascending(units: seq<Unit>) {
    forall i, j :: 0 <= i < j < |units| ==> units[i].scale < units[j].scale
  }

  /** It is the largest of all that divide exactly. */
  lemma {:induction false} LargestIsLargest(units: seq<Unit>, n: nat, i: nat)
    requires (forall k :: 0 <= k < |units| ==> units[k].scale > 0) && Ascending(units)
    requires i < |units| && n % units[i].scale == 0
    ensures LargestExact(units, n).Some? && units[i].scale <= LargestExact(units, n).value.scale
  {
    var last := |units| - 1;
    if n % units[last].scale != 0 {
      LargestIsLargest(units[..last], n, i);
    }
  }
}
