/**
 CRC-32: the byte-table loop and the bit-serial definition it must equal. Bits
 go least significant first within each byte, which is the order of transmission
 in section 3.2.9 of IEEE 802.3.
 */
module Crc32 {

  /** The generator without its leading term, reflected: bit 0 is the coefficient of x^31. */
  const POLYNOMIAL: bv32 := 0xEDB88320

  // ---- Words, as polynomials over two elements ------------------------------------------------

  function Add(x: bv32, y: bv32): bv32 {
    x ^ y
  }

  function Half(x: bv32): bv32 {
    x >> 1
  }

  function Double(x: bv32): bv32 {
    x << 1
  }

  predicate Odd(x: bv32) {
    x & 1 != 0
  }

  function Bit(b: bool): bv32 {
    if b then 1 else 0
  }

  lemma AddParts(x: bv32, y: bv32)
    ensures Odd(Add(x, y)) == (Odd(x) != Odd(y))
    ensures Half(Add(x, y)) == Add(Half(x), Half(y))
  {
  }

  lemma AddCommutes(x: bv32, y: bv32)
    ensures Add(x, y) == Add(y, x)
  {
  }

  lemma AddAssociates(x: bv32, y: bv32, z: bv32)
    ensures Add(Add(x, y), z) == Add(x, Add(y, z))
  {
  }

  lemma AddCancels(x: bv32)
    ensures Add(x, x) == 0 && Add(x, 0) == x && Add(0, x) == x
  {
  }

  lemma AddTwice(x: bv32, y: bv32, p: bv32)
    ensures Add(Add(x, p), Add(y, p)) == Add(x, y)
    ensures Add(Add(x, p), y) == Add(Add(x, y), p)
    ensures Add(x, Add(y, p)) == Add(Add(x, y), p)
  {
    hide Add;
    AddAssociates(x, y, p);
    AddAssociates(x, p, y);
    AddCommutes(p, y);
    AddAssociates(Add(x, p), y, p);
    AddAssociates(Add(x, y), p, p);
    AddCancels(p);
    AddCancels(Add(x, y));
  }

  lemma AddZero(x: bv32, y: bv32)
    ensures Add(x, y) == 0 <==> x == y
  {
    hide Add;
    AddAssociates(x, y, y);
    AddCancels(x);
    AddCancels(y);
  }

  lemma BitParts(b: bool)
    ensures Odd(Bit(b)) == b && Half(Bit(b)) == 0 && !Odd(0) && Half(0) == 0
  {
  }

  lemma OddAndHalf(x: bv32)
    ensures x == Add(Bit(Odd(x)), Double(Half(x)))
    ensures !Odd(Double(x))
  {
  }

  /** A word moved n places towards its low bit. */
  function Halves(x: bv32, n: nat): bv32
    decreases n
  {
    if n == 0 then x else Halves(Half(x), n - 1)
  }

  lemma {:induction false} HalvesAdd(x: bv32, m: nat, n: nat)
    ensures Halves(x, m + n) == Halves(Halves(x, m), n)
    decreases m
  {
    if m > 0 {
      HalvesAdd(Half(x), m - 1, n);
    }
  }

  lemma {:induction false} HalvesOfZero(n: nat)
    ensures Halves(0, n) == 0
  {
    if n > 0 {
      BitParts(false);
      HalvesOfZero(n - 1);
    }
  }

  function By2(x: bv32): bv32 {
    x >> 2
  }

  function By4(x: bv32): bv32 {
    x >> 4
  }

  function By8(x: bv32): bv32 {
    x >> 8
  }

  lemma Doubling(x: bv32)
    ensures Half(Half(x)) == By2(x)
  {
  }

  lemma DoublingTwo(x: bv32)
    ensures By2(By2(x)) == By4(x)
  {
  }

  lemma DoublingFour(x: bv32)
    ensures By4(By4(x)) == By8(x)
  {
  }

  lemma HalvesByTwo(x: bv32, n: nat)
    requires n >= 2
    ensures Halves(x, n) == Halves(By2(x), n - 2)
  {
    hide Half, By2;
    Doubling(x);
  }

  lemma HalvesByFour(x: bv32, n: nat)
    requires n >= 4
    ensures Halves(x, n) == Halves(By4(x), n - 4)
  {
    hide Half, Halves, By2, By4;
    HalvesByTwo(x, n);
    HalvesByTwo(By2(x), n - 2);
    DoublingTwo(x);
  }

  lemma HalvesByEight(x: bv32, n: nat)
    requires n >= 8
    ensures Halves(x, n) == Halves(By8(x), n - 8)
  {
    hide Half, Halves, By4, By8;
    HalvesByFour(x, n);
    HalvesByFour(By4(x), n - 4);
    DoublingFour(x);
  }

  lemma HalvesToTop(x: bv32)
    ensures Halves(x, 31) == Half(By2(By4(By8(By8(By8(x))))))
  {
    hide Half, By2, By4, By8;
    HalvesByEight(x, 31);
    HalvesByEight(By8(x), 23);
    HalvesByEight(By8(By8(x)), 15);
    var y := By8(By8(By8(x)));
    HalvesByFour(y, 7);
    HalvesByTwo(By4(y), 3);
  }

  /** A word of at most 31 bits loses nothing when doubled. */
  lemma HalfOfDouble(x: bv32, n: nat)
    requires n <= 31 && Halves(x, n) == 0
    ensures Half(Double(x)) == x
  {
    hide Half, Double, By2, By4, By8;
    HalvesAdd(x, n, 31 - n);
    HalvesOfZero(31 - n);
    HalvesToTop(x);
    TopClear(x);
  }

  lemma TopClear(x: bv32)
    requires Half(By2(By4(By8(By8(By8(x)))))) == 0
    ensures Half(Double(x)) == x
  {
  }

  // ---- The bit-serial definition ---------------------------------------------------------

  /** The register moves one place towards its low bit. */
  function Shift(r: bv32): bv32 {
    if Odd(r) then Add(Half(r), POLYNOMIAL) else Half(r)
  }

  function Shifts(r: bv32, n: nat): bv32
    decreases n
  {
    if n == 0 then r else Shifts(Shift(r), n - 1)
  }

  /** One message bit meets the register's low bit, then the register moves. */
  function Serial(r: bv32, bits: seq<bool>): bv32
    decreases |bits|
  {
    if bits == [] then r else Serial(Shift(Add(r, Bit(bits[0]))), bits[1..])
  }

  /** The low n bits of a word, least significant first. */
  function Bits(x: bv32, n: nat): (s: seq<bool>)
    ensures |s| == n
    decreases n
  {
    if n == 0 then [] else [Odd(x)] + Bits(Half(x), n - 1)
  }

  function Word(b: bv8): bv32 {
    b as bv32
  }

  function Invert(x: bv32): bv32 {
    !x
  }

  function BitsOf(bytes: seq<bv8>): (s: seq<bool>)
    ensures |s| == 8 * |bytes|
  {
    if bytes == [] then [] else Bits(Word(bytes[0]), 8) + BitsOf(bytes[1..])
  }

  /** The checksum of a continuation: the register is inverted at both ends. */
  function Continued(crc: bv32, bytes: seq<bv8>): bv32 {
    Invert(Serial(Invert(crc), BitsOf(bytes)))
  }

  function Checksum(bytes: seq<bv8>): bv32 {
    Continued(0, bytes)
  }

  // ---- The register is linear -----------------------------------------------------------------

  lemma ShiftIsLinear(x: bv32, y: bv32)
    ensures Shift(Add(x, y)) == Add(Shift(x), Shift(y))
  {
    hide Add, Half, Odd;
    AddParts(x, y);
    AddTwice(Half(x), Half(y), POLYNOMIAL);
  }

  /** The generator's constant term keeps the bit that falls off, so no two registers merge. */
  lemma ShiftIsInjective(x: bv32, y: bv32)
    requires Shift(x) == Shift(y)
    ensures x == y
  {
  }

  lemma {:induction false} ShiftsAreLinear(x: bv32, y: bv32, n: nat)
    ensures Shifts(Add(x, y), n) == Add(Shifts(x, n), Shifts(y, n))
    decreases n
  {
    hide Add, Shift;
    if n > 0 {
      ShiftIsLinear(x, y);
      ShiftsAreLinear(Shift(x), Shift(y), n - 1);
    }
  }

  lemma {:induction false} ShiftsAreInjective(x: bv32, y: bv32, n: nat)
    requires Shifts(x, n) == Shifts(y, n)
    ensures x == y
    decreases n
  {
    hide Shift;
    if n > 0 {
      ShiftsAreInjective(Shift(x), Shift(y), n - 1);
      ShiftIsInjective(x, y);
    }
  }

  lemma {:induction false} SerialAppend(r: bv32, a: seq<bool>, b: seq<bool>)
    ensures Serial(r, a + b) == Serial(Serial(r, a), b)
    decreases |a|
  {
    hide Shift, Add, Bit;
    if a == [] {
      assert a + b == b;
    } else {
      assert (a + b)[1..] == a[1..] + b;
      SerialAppend(Shift(Add(r, Bit(a[0]))), a[1..], b);
    }
  }

  function Xor(a: seq<bool>, b: seq<bool>): (e: seq<bool>)
    requires |a| == |b|
    ensures |e| == |a| && forall i :: 0 <= i < |e| ==> e[i] == (a[i] != b[i])
  {
    seq(|a|, i requires 0 <= i < |a| => a[i] != b[i])
  }

  lemma AddBits(r: bv32, s: bv32, a: bool, b: bool)
    ensures Add(Add(r, s), Bit(a != b)) == Add(Add(r, Bit(a)), Add(s, Bit(b)))
  {
    hide Add;
    AddTwice(r, s, 1);
    AddCancels(Add(r, s));
    AddCancels(r);
    AddCancels(s);
  }

  lemma {:induction false} SerialIsLinear(r: bv32, s: bv32, a: seq<bool>, b: seq<bool>)
    requires |a| == |b|
    ensures Serial(Add(r, s), Xor(a, b)) == Add(Serial(r, a), Serial(s, b))
    decreases |a|
  {
    hide Add, Shift, Bit;
    if a != [] {
      assert Xor(a, b)[1..] == Xor(a[1..], b[1..]);
      AddBits(r, s, a[0], b[0]);
      ShiftIsLinear(Add(r, Bit(a[0])), Add(s, Bit(b[0])));
      SerialIsLinear(Shift(Add(r, Bit(a[0]))), Shift(Add(s, Bit(b[0]))), a[1..], b[1..]);
    }
  }

  predicate AllZero(s: seq<bool>) {
    forall i :: 0 <= i < |s| ==> !s[i]
  }

  lemma {:induction false} SerialOfZeros(r: bv32, s: seq<bool>)
    requires AllZero(s)
    ensures Serial(r, s) == Shifts(r, |s|)
    decreases |s|
  {
    hide Add, Shift;
    if s != [] {
      AddCancels(r);
      SerialOfZeros(Shift(r), s[1..]);
    }
  }

  lemma {:induction false} ZeroStaysZero(n: nat)
    ensures Shifts(0, n) == 0
  {
    if n > 0 {
      BitParts(false);
      ZeroStaysZero(n - 1);
    }
  }

  // ---- A whole word of bits at once ---------------------------------------------------------

  /** Up to 32 bits as a word, the first the least significant. */
  function Pack(bits: seq<bool>): bv32 {
    if bits == [] then 0 else Add(Bit(bits[0]), Double(Pack(bits[1..])))
  }

  lemma {:induction false} PackFits(bits: seq<bool>)
    requires |bits| <= 32
    ensures Halves(Pack(bits), |bits|) == 0
    ensures bits != [] ==> Half(Pack(bits)) == Pack(bits[1..]) && Odd(Pack(bits)) == bits[0]
  {
    hide Add, Half, Double, Odd, Bit;
    if bits != [] {
      var rest := Pack(bits[1..]);
      PackFits(bits[1..]);
      HalfOfDouble(rest, |bits| - 1);
      AddParts(Bit(bits[0]), Double(rest));
      BitParts(bits[0]);
      OddAndHalf(rest);
      AddCancels(rest);
    }
  }

  /** Up to 32 bits fed one by one are those bits put in at once and the register moved as often. */
  lemma {:induction false} SerialIsPacked(r: bv32, bits: seq<bool>)
    requires |bits| <= 32
    ensures Serial(r, bits) == Shifts(Add(r, Pack(bits)), |bits|)
    decreases |bits|
  {
    hide Add, Half, Double, Odd, Bit;
    if bits == [] {
      AddCancels(r);
    } else {
      var first, rest := Bit(bits[0]), Pack(bits[1..]);
      PackFits(bits[1..]);
      HalfOfDouble(rest, |bits| - 1);
      OddAndHalf(rest);
      AddAssociates(r, first, Double(rest));
      ShiftIsLinear(Add(r, first), Double(rest));
      SerialIsPacked(Shift(Add(r, first)), bits[1..]);
    }
  }

  lemma {:induction false} PackIsZero(bits: seq<bool>)
    requires |bits| <= 32 && Pack(bits) == 0
    ensures AllZero(bits)
  {
    hide Add, Half, Double, Odd, Bit;
    if bits != [] {
      PackFits(bits);
      BitParts(false);
      PackIsZero(bits[1..]);
      assert forall i :: 1 <= i < |bits| ==> bits[i] == bits[1..][i - 1];
    }
  }

  /** At most 32 bits, not all zero, never leave a zero register zero. */
  lemma ShortErrorsShow(error: seq<bool>)
    requires |error| <= 32 && Serial(0, error) == 0
    ensures AllZero(error)
  {
    hide Add, Shift;
    SerialIsPacked(0, error);
    ZeroStaysZero(|error|);
    AddCancels(Pack(error));
    ShiftsAreInjective(Pack(error), 0, |error|);
    PackIsZero(error);
  }

  // ---- The byte table -------------------------------------------------------------------------

  function Low(x: bv32): bv32 {
    x & 0xFF
  }

  function High(x: bv32): bv32 {
    x & 0xFFFFFF00
  }

  lemma LowAndHigh(x: bv32)
    ensures x == Add(Low(x), High(x))
    ensures By8(High(x)) == By8(x)
  {
  }

  predicate TwoClear(x: bv32) {
    x & 3 == 0
  }

  lemma TwoShifts(x: bv32, n: nat)
    requires n >= 2 && TwoClear(x)
    ensures Shifts(x, n) == Shifts(By2(x), n - 2)
  {
    hide Half, Odd, Add, By2, TwoClear;
    ClearIsEven(x);
    Doubling(x);
  }

  lemma ClearIsEven(x: bv32)
    requires TwoClear(x)
    ensures !Odd(x) && !Odd(Half(x))
  {
  }

  lemma HighIsClear(x: bv32)
    ensures TwoClear(High(x)) && TwoClear(By2(High(x)))
    ensures TwoClear(By4(High(x))) && TwoClear(By2(By4(High(x))))
  {
  }

  /** Eight moves leave the high bytes as they are and make a table entry of the low one. */
  lemma EightShifts(x: bv32)
    ensures Shifts(x, 8) == Add(Shifts(Low(x), 8), By8(x))
  {
    hide Half, Odd, Add, By2, By4, By8, TwoClear, Low, High, Shift;
    var y := High(x);
    LowAndHigh(x);
    ShiftsAreLinear(Low(x), y, 8);
    HighIsClear(x);
    TwoShifts(y, 8);
    TwoShifts(By2(y), 6);
    DoublingTwo(y);
    TwoShifts(By4(y), 4);
    TwoShifts(By2(By4(y)), 2);
    DoublingTwo(By4(y));
    DoublingFour(y);
  }

  lemma WordIsLow(r: bv32, b: bv8)
    ensures By8(Add(r, Word(b))) == By8(r)
    ensures By8(Word(b)) == 0
  {
  }

  lemma {:induction false} PackedBits(x: bv32, n: nat)
    requires Halves(x, n) == 0
    ensures Pack(Bits(x, n)) == x
    decreases n
  {
    hide Add, Half, Double, Odd, Bit;
    if n > 0 {
      PackedBits(Half(x), n - 1);
      OddAndHalf(x);
    }
  }

  /** Eight message bits at once: a table entry for the low byte, the rest moved down. */
  lemma ByteAtOnce(r: bv32, b: bv8)
    ensures Serial(r, Bits(Word(b), 8)) == Add(Shifts(Low(Add(r, Word(b))), 8), By8(r))
  {
    hide Add, Half, Double, Odd, Bit, Shift, Low, By8, Word;
    HalvesByEight(Word(b), 8);
    WordIsLow(r, b);
    PackedBits(Word(b), 8);
    SerialIsPacked(r, Bits(Word(b), 8));
    EightShifts(Add(r, Word(b)));
  }

  lemma IndexIsByte(x: bv32)
    ensures Low(x) as int < 256
    ensures (Low(x) as int) as bv32 == Low(x)
  {
  }

  function EntryOf(i: nat): bv32
    requires i < 256
  {
    Shifts(i as bv32, 8)
  }

  ghost predicate IsTable(table: seq<bv32>) {
    |table| == 256 && forall i :: 0 <= i < 256 ==> table[i] == EntryOf(i)
  }

  method MakeTable() returns (table: array<bv32>)
    ensures IsTable(table[..])
  {
    hide EntryOf;
    table := new bv32[256];
    for index := 0 to 256
      invariant forall i :: 0 <= i < index ==> table[i] == EntryOf(i)
    {
      table[index] := MakeEntry(index);
    }
  }

  method MakeEntry(index: nat) returns (entry: bv32)
    requires index < 256
    ensures entry == EntryOf(index)
  {
    hide Shift;
    entry := index as bv32;
    for bit := 0 to 8
      invariant Shifts(entry, 8 - bit) == EntryOf(index)
    {
      ShiftIs(entry);
      entry := if entry & 1 != 0 then (entry >> 1) ^ POLYNOMIAL else entry >> 1;
    }
  }

  lemma ShiftIs(r: bv32)
    ensures Shift(r) == if r & 1 != 0 then (r >> 1) ^ POLYNOMIAL else r >> 1
  {
  }

  /** The table loop computes the bit-serial checksum of any bytes. */
  method Update(table: array<bv32>, crc: bv32, bytes: seq<bv8>) returns (r: bv32)
    requires IsTable(table[..])
    ensures r == Continued(crc, bytes)
  {
    hide Shift, Shifts, Serial, Add, By8, Low, Word, IsTable;
    var running := !crc;
    InvertIs(crc);
    NoBits(running);
    for i := 0 to |bytes|
      invariant running == Serial(Invert(crc), BitsOf(bytes[..i]))
    {
      OneMoreByte(Invert(crc), bytes, i);
      ByteAtOnce(running, bytes[i]);
      running := Advance(table, running, bytes[i]);
    }
    assert bytes[..|bytes|] == bytes;
    InvertIs(running);
    return !running;
  }

  method Advance(table: array<bv32>, running: bv32, byte: bv8) returns (next: bv32)
    requires IsTable(table[..])
    ensures next == Add(Shifts(Low(Add(running, Word(byte))), 8), By8(running))
  {
    hide Shifts, IsTable, Low, Add, Word, By8;
    IndexIs(running, byte);
    var index := (running ^ (byte as bv32)) & 0xFF;
    LookUp(table[..], Add(running, Word(byte)));
    var entry := table[index as int];
    EntryIs(entry, running);
    next := entry ^ (running >> 8);
  }

  method Crc(table: array<bv32>, bytes: seq<bv8>) returns (r: bv32)
    requires IsTable(table[..])
    ensures r == Checksum(bytes)
  {
    hide Continued, IsTable;
    r := Update(table, 0, bytes);
  }

  lemma IndexIs(running: bv32, byte: bv8)
    ensures (running ^ (byte as bv32)) & 0xFF == Low(Add(running, Word(byte)))
  {
  }

  lemma EntryIs(entry: bv32, running: bv32)
    ensures entry ^ (running >> 8) == Add(entry, By8(running))
  {
  }

  lemma LookUp(table: seq<bv32>, x: bv32)
    requires IsTable(table)
    ensures |table| == 256 && Low(x) as int < 256 && table[Low(x) as int] == Shifts(Low(x), 8)
  {
    hide Shifts, Low;
    IndexIsByte(x);
  }

  lemma InvertIs(x: bv32)
    ensures Invert(x) == !x && Invert(Invert(x)) == x
  {
  }

  lemma NoBits(r: bv32)
    ensures Serial(r, BitsOf([])) == r
  {
  }

  lemma {:induction false} BitsAppend(a: seq<bv8>, b: seq<bv8>)
    ensures BitsOf(a + b) == BitsOf(a) + BitsOf(b)
  {
    hide Bits, Word;
    if a == [] {
      assert a + b == b;
    } else {
      assert (a + b)[1..] == a[1..] + b;
      BitsAppend(a[1..], b);
    }
  }

  lemma OneByte(b: bv8)
    ensures BitsOf([b]) == Bits(Word(b), 8)
  {
    hide Bits, Word;
    assert [b][1..] == [];
  }

  lemma OneMoreByte(r: bv32, bytes: seq<bv8>, i: nat)
    requires i < |bytes|
    ensures Serial(r, BitsOf(bytes[..i + 1])) == Serial(Serial(r, BitsOf(bytes[..i])), Bits(Word(bytes[i]), 8))
  {
    hide Serial, Bits, BitsOf, Word;
    assert bytes[..i + 1] == bytes[..i] + [bytes[i]];
    BitsAppend(bytes[..i], [bytes[i]]);
    OneByte(bytes[i]);
    SerialAppend(r, BitsOf(bytes[..i]), Bits(Word(bytes[i]), 8));
  }

  /** A stream split anywhere has one checksum. */
  lemma UpdatesChain(crc: bv32, a: seq<bv8>, b: seq<bv8>)
    ensures Continued(Continued(crc, a), b) == Continued(crc, a + b)
  {
    hide Serial, BitsOf, Invert;
    BitsAppend(a, b);
    SerialAppend(Invert(crc), BitsOf(a), BitsOf(b));
    InvertIs(Serial(Invert(crc), BitsOf(a)));
  }
}
