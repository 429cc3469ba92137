/**
 What CRC-32 detects: which differences between messages of one length change
 the checksum. A difference is read as a polynomial, first bit first, over the
 generator of section 3.2.9 of IEEE 802.3.
 */
module Detection {
  import opened Crc32

  /** The bits in which two messages of one length differ. */
  function Difference(a: seq<bv8>, b: seq<bv8>): seq<bool>
    requires |a| == |b|
  {
    Xor(BitsOf(a), BitsOf(b))
  }

  /** Two messages have one checksum exactly when their difference leaves a zero register zero. */
  lemma CollisionIsSilent(crc: bv32, a: seq<bv8>, b: seq<bv8>)
    requires |a| == |b|
    ensures Continued(crc, a) == Continued(crc, b) <==> Serial(0, Difference(a, b)) == 0
  {
    hide Serial, BitsOf, Add, Invert;
    var r := Invert(crc);
    SerialIsLinear(r, r, BitsOf(a), BitsOf(b));
    AddCancels(r);
    AddZero(Serial(r, BitsOf(a)), Serial(r, BitsOf(b)));
    InvertIs(Serial(r, BitsOf(a)));
    InvertIs(Serial(r, BitsOf(b)));
  }

  // ---- Bursts -----------------------------------------------------------------------------

  lemma {:induction false} BitsTellBytes(a: seq<bv8>, b: seq<bv8>)
    requires |a| == |b| && BitsOf(a) == BitsOf(b)
    ensures a == b
  {
    hide Bits, Word, By8;
    if a != [] {
      var x, y := Bits(Word(a[0]), 8), Bits(Word(b[0]), 8);
      assert BitsOf(a)[..8] == x && BitsOf(b)[..8] == y;
      assert BitsOf(a)[8..] == BitsOf(a[1..]) && BitsOf(b)[8..] == BitsOf(b[1..]);
      BitsTellByte(a[0], b[0]);
      BitsTellBytes(a[1..], b[1..]);
    }
  }

  lemma BitsTellByte(a: bv8, b: bv8)
    requires Bits(Word(a), 8) == Bits(Word(b), 8)
    ensures a == b
  {
    hide Bits, Word, By8, Pack, Halves;
    WordHalves(a);
    WordHalves(b);
    PackedBits(Word(a), 8);
    PackedBits(Word(b), 8);
    WordTellsByte(a, b);
  }

  lemma WordHalves(b: bv8)
    ensures Halves(Word(b), 8) == 0
  {
    hide Word, By8, Half;
    HalvesByEight(Word(b), 8);
    WordIsLow(0, b);
  }

  lemma WordTellsByte(a: bv8, b: bv8)
    requires Word(a) == Word(b)
    ensures a == b
  {
  }

  lemma SilentWindow(error: seq<bool>, i: nat, j: nat)
    requires i <= j <= |error| && j - i <= 32
    requires AllZero(error[..i]) && AllZero(error[j..]) && Serial(0, error) == 0
    ensures AllZero(error)
  {
    hide Serial, Shift, Shifts;
    var before, window, after := error[..i], error[i..j], error[j..];
    assert error == before + (window + after);
    SerialAppend(0, before, window + after);
    SerialOfZeros(0, before);
    ZeroStaysZero(|before|);
    SerialAppend(0, window, after);
    SerialOfZeros(Serial(0, window), after);
    ZeroStaysZero(|after|);
    ShiftsAreInjective(Serial(0, window), 0, |after|);
    ShortErrorsShow(window);
    assert forall k :: i <= k < j ==> error[k] == window[k - i];
    assert forall k :: 0 <= k < i ==> error[k] == before[k];
    assert forall k :: j <= k < |error| ==> error[k] == after[k - j];
  }

  /**
   Every burst of up to 32 bits is detected: two different messages that agree
   outside a window of 32 consecutive bits have different checksums.
   */
  lemma BurstsAreDetected(crc: bv32, a: seq<bv8>, b: seq<bv8>, i: nat, j: nat)
    requires |a| == |b| && a != b && i <= j <= 8 * |a| && j - i <= 32
    requires BitsOf(a)[..i] == BitsOf(b)[..i] && BitsOf(a)[j..] == BitsOf(b)[j..]
    ensures Continued(crc, a) != Continued(crc, b)
  {
    hide Serial, BitsOf, Continued;
    if Continued(crc, a) == Continued(crc, b) {
      var error := Difference(a, b);
      CollisionIsSilent(crc, a, b);
      assert forall k :: 0 <= k < i ==> BitsOf(a)[k] == BitsOf(a)[..i][k] && BitsOf(b)[k] == BitsOf(b)[..i][k];
      assert forall k :: 0 <= k < |error| - j ==>
               BitsOf(a)[j..][k] == BitsOf(a)[j + k] && BitsOf(b)[j..][k] == BitsOf(b)[j + k];
      SilentWindow(error, i, j);
      assert BitsOf(a) == BitsOf(b);
      BitsTellBytes(a, b);
      assert false;
    }
  }

  /** In particular every single-bit error. */
  lemma SingleBitsAreDetected(crc: bv32, a: seq<bv8>, b: seq<bv8>, k: nat)
    requires |a| == |b| && k < 8 * |a| && BitsOf(a)[k] != BitsOf(b)[k]
    requires forall m :: 0 <= m < 8 * |a| && m != k ==> BitsOf(a)[m] == BitsOf(b)[m]
    ensures Continued(crc, a) != Continued(crc, b)
  {
    hide BitsOf, Continued;
    BurstsAreDetected(crc, a, b, k, k + 1);
  }

  // ---- Exactly what is missed: multiples of the generator -----------------------------------------

  /** x^32 + x^26 + x^23 + x^22 + x^16 + x^12 + x^11 + x^10 + x^8 + x^7 + x^5 + x^4 + x^2 + x + 1. */
  const GENERATOR: seq<bool> := [true] + TAIL

  const TAIL: seq<bool> := [
    false, false, false, false, false, true, false, false,
    true, true, false, false, false, false, false, true,
    false, false, false, true, true, true, false, true,
    true, false, true, true, false, true, true, true]

  function Zeros(n: nat): (s: seq<bool>)
    ensures |s| == n && AllZero(s)
  {
    seq(n, _ => false)
  }

  /** One step of long division: the generator is taken from the front if the first term is there. */
  function Reduced(e: seq<bool>): (r: seq<bool>)
    requires |e| >= 33
    ensures |r| == |e| - 1
  {
    if e[0] then Xor(e, GENERATOR + Zeros(|e| - 33))[1..] else e[1..]
  }

  /** Long division by the generator leaves nothing. */
  predicate Divides(e: seq<bool>)
    decreases |e|
  {
    if |e| < 33 then AllZero(e) else Divides(Reduced(e))
  }

  lemma FourBits(x: bv32)
    ensures Bits(x, 4) == [Odd(x), Odd(Half(x)), Odd(By2(x)), Odd(Half(By2(x)))]
  {
    hide Odd, Half, By2;
    Doubling(x);
    assert Bits(By2(x), 2) == [Odd(By2(x)), Odd(Half(By2(x)))];
  }

  lemma EightBits(x: bv32)
    ensures Bits(x, 8) ==
            [Odd(x), Odd(Half(x)), Odd(By2(x)), Odd(Half(By2(x))),
             Odd(By4(x)), Odd(Half(By4(x))), Odd(By2(By4(x))), Odd(Half(By2(By4(x))))]
  {
    hide Odd, Half, By2, By4, Bits, Halves;
    BitsSplit(x, 4, 4);
    HalvesByFour(x, 4);
    NoHalves(By4(x));
    FourBits(x);
    FourBits(By4(x));
  }

  lemma NoHalves(x: bv32)
    ensures Halves(x, 0) == x
  {
  }

  lemma {:induction false} BitsSplit(x: bv32, n: nat, m: nat)
    ensures Bits(x, n + m) == Bits(x, n) + Bits(Halves(x, n), m)
    decreases n
  {
    hide Odd, Half;
    if n > 0 {
      BitsSplit(Half(x), n - 1, m);
    }
  }

  lemma BitsByEight(x: bv32, m: nat)
    ensures Bits(x, 8 + m) == Bits(x, 8) + Bits(By8(x), m)
  {
    hide Bits, Half, By8;
    BitsSplit(x, 8, m);
    HalvesByEight(x, 8);
  }

  lemma TailBytes()
    ensures Bits(0xEDB88320, 8) == [false, false, false, false, false, true, false, false]
    ensures Bits(0xEDB883, 8) == [true, true, false, false, false, false, false, true]
    ensures Bits(0xEDB8, 8) == [false, false, false, true, true, true, false, true]
    ensures Bits(0xED, 8) == [true, false, true, true, false, true, true, true]
  {
    hide Bits;
    EightBits(0xEDB88320);
    EightBits(0xEDB883);
    EightBits(0xEDB8);
    EightBits(0xED);
  }

  /** The constant in the code is the standard's generator. */
  lemma TailIsPolynomial()
    ensures Bits(POLYNOMIAL, 32) == TAIL
  {
    hide Bits;
    BitsByEight(0xEDB88320, 24);
    BitsByEight(0xEDB883, 16);
    BitsByEight(0xEDB8, 8);
    TailBytes();
  }

  /** The generator itself leaves no mark: its tail meets what its first bit left. */
  lemma GeneratorIsSilent()
    ensures Serial(0, GENERATOR) == 0
  {
    hide Shift, Shifts, Bits, Pack, Halves, Add;
    assert GENERATOR[1..] == TAIL;
    FirstBit();
    assert Serial(0, GENERATOR) == Serial(POLYNOMIAL, TAIL);
    TailIsPolynomial();
    PolynomialFits();
    PackedBits(POLYNOMIAL, 32);
    SerialIsPacked(POLYNOMIAL, TAIL);
    AddCancels(POLYNOMIAL);
    ZeroStaysZero(32);
  }

  lemma FirstBit()
    ensures Shift(Add(0, Bit(true))) == POLYNOMIAL
  {
  }

  lemma PolynomialFits()
    ensures Halves(POLYNOMIAL, 32) == 0
  {
    hide Halves, Half;
    HalvesByEight(0xEDB88320, 32);
    HalvesByEight(0xEDB883, 24);
    HalvesByEight(0xEDB8, 16);
    HalvesByEight(0xED, 8);
    NoHalves(0);
  }

  lemma ReducedIsSilentToo(e: seq<bool>)
    requires |e| >= 33
    ensures Serial(0, Reduced(e)) == 0 <==> Serial(0, e) == 0
  {
    hide Shift, Shifts, Add, GENERATOR;
    var rest := Zeros(|e| - 33);
    var g := GENERATOR + rest;
    GeneratorIsSilent();
    GeneratorLeads(|e| - 33);
    SerialAppend(0, GENERATOR, rest);
    SerialOfZeros(0, rest);
    ZeroStaysZero(|rest|);
    SerialIsLinear(0, 0, e, g);
    AddCancels(0);
    AddCancels(Serial(0, e));
    var next := if e[0] then Xor(e, g) else e;
    FirstIsGone(e);
    LeadingZero(next);
  }

  lemma FirstIsGone(e: seq<bool>)
    requires |e| >= 33
    ensures e[0] ==> !Xor(e, GENERATOR + Zeros(|e| - 33))[0]
  {
  }

  lemma LeadingZero(e: seq<bool>)
    requires e != [] && !e[0]
    ensures Serial(0, e) == Serial(0, e[1..])
  {
    assert Shift(Add(0, Bit(false))) == 0;
  }

  lemma {:induction false} SilentIsDivided(e: seq<bool>)
    ensures Serial(0, e) == 0 <==> Divides(e)
    decreases |e|
  {
    hide Serial, Reduced, Shifts;
    if |e| < 33 {
      if AllZero(e) {
        SerialOfZeros(0, e);
        ZeroStaysZero(|e|);
      } else if Serial(0, e) == 0 {
        ShortErrorsShow(e);
      }
    } else {
      ReducedIsSilentToo(e);
      SilentIsDivided(Reduced(e));
    }
  }

  /**
   Exactly what CRC-32 misses: two messages of one length have one checksum if
   and only if their difference is a multiple of the generator.
   */
  lemma MissesOnlyMultiples(crc: bv32, a: seq<bv8>, b: seq<bv8>)
    requires |a| == |b|
    ensures Continued(crc, a) == Continued(crc, b) <==> Divides(Difference(a, b))
  {
    hide Serial, Divides, Continued, Difference;
    CollisionIsSilent(crc, a, b);
    SilentIsDivided(Difference(a, b));
  }

  // ---- Long division is multiplication undone ---------------------------------------------------

  /** The generator times a polynomial. */
  function Product(q: seq<bool>): (e: seq<bool>)
    ensures |e| == |q| + 32
  {
    if q == [] then Zeros(32)
    else
      var rest := [false] + Product(q[1..]);
      if q[0] then Xor(rest, GENERATOR + Zeros(|q| - 1)) else rest
  }

  function Quotient(e: seq<bool>): (q: seq<bool>)
    ensures |e| >= 32 ==> |q| == |e| - 32
    decreases |e|
  {
    if |e| < 33 then [] else [e[0]] + Quotient(Reduced(e))
  }

  lemma XorTwice(a: seq<bool>, b: seq<bool>)
    requires |a| == |b|
    ensures Xor(Xor(a, b), b) == a
  {
  }

  /** What divides is the quotient times the generator, and every product divides. */
  lemma {:induction false} DividesMeansMultiple(e: seq<bool>)
    requires |e| >= 32 && Divides(e)
    ensures e == Product(Quotient(e))
    decreases |e|
  {
    hide GENERATOR;
    if |e| == 32 {
      assert e == Zeros(32);
    } else {
      var g := GENERATOR + Zeros(|e| - 33);
      GeneratorLeads(|e| - 33);
      DividesMeansMultiple(Reduced(e));
      FirstIsGone(e);
      if e[0] {
        assert [false] + Reduced(e) == Xor(e, g);
        XorTwice(e, g);
      } else {
        assert [false] + Reduced(e) == e;
      }
      assert Quotient(e)[1..] == Quotient(Reduced(e));
    }
  }

  lemma {:induction false} MultiplesDivide(q: seq<bool>)
    ensures Divides(Product(q))
  {
    hide GENERATOR;
    if q != [] {
      var e, g := Product(q), GENERATOR + Zeros(|q| - 1);
      var rest := [false] + Product(q[1..]);
      MultiplesDivide(q[1..]);
      GeneratorLeads(|q| - 1);
      if q[0] {
        XorTwice(rest, g);
        assert Xor(e, g) == rest;
      }
      assert Reduced(e) == Product(q[1..]);
    }
  }

  lemma GeneratorLeads(n: nat)
    ensures |GENERATOR| == 33 && (GENERATOR + Zeros(n))[0]
  {
  }

  /** A product tells its factor. */
  lemma {:induction false} QuotientOfProduct(q: seq<bool>)
    ensures Quotient(Product(q)) == q
  {
    hide GENERATOR;
    if q != [] {
      var e, g := Product(q), GENERATOR + Zeros(|q| - 1);
      var rest := [false] + Product(q[1..]);
      GeneratorLeads(|q| - 1);
      if q[0] {
        XorTwice(rest, g);
        assert Xor(e, g) == rest;
      }
      assert Reduced(e) == Product(q[1..]);
      assert e[0] == q[0];
      QuotientOfProduct(q[1..]);
    }
  }

  // ---- How many are missed -------------------------------------------------------------------------

  function PowerOfTwo(n: nat): nat {
    if n == 0 then 1 else 2 * PowerOfTwo(n - 1)
  }

  function Prefixed(b: bool, s: set<seq<bool>>): (r: set<seq<bool>>)
    ensures forall e :: e in r <==> e != [] && e[0] == b && e[1..] in s
  {
    var r := set e | e in s :: [b] + e;
    assert forall e :: e != [] && e[0] == b && e[1..] in s ==> e == [b] + e[1..];
    r
  }

  lemma {:induction false} PrefixedSize(b: bool, s: set<seq<bool>>)
    ensures |Prefixed(b, s)| == |s|
    decreases |s|
  {
    if s == {} {
      assert Prefixed(b, s) == {};
    } else {
      var e :| e in s;
      PrefixedSize(b, s - {e});
      assert Prefixed(b, s) == Prefixed(b, s - {e}) + {[b] + e} by {
        assert ([b] + e)[1..] == e;
        assert forall x :: x in Prefixed(b, s) && x[1..] == e ==> x == [b] + e;
      }
    }
  }

  /** Every difference of n bits. */
  function Differences(n: nat): (s: set<seq<bool>>)
    ensures forall e :: e in s <==> |e| == n
  {
    if n == 0 then {[]} else Prefixed(false, Differences(n - 1)) + Prefixed(true, Differences(n - 1))
  }

  lemma {:induction false} DifferencesCount(n: nat)
    ensures |Differences(n)| == PowerOfTwo(n)
  {
    if n > 0 {
      DifferencesCount(n - 1);
      PrefixedSize(false, Differences(n - 1));
      PrefixedSize(true, Differences(n - 1));
      assert Prefixed(false, Differences(n - 1)) !! Prefixed(true, Differences(n - 1));
    }
  }

  function Products(s: set<seq<bool>>): (r: set<seq<bool>>)
    ensures forall e :: e in r <==> exists q :: q in s && e == Product(q)
  {
    set q | q in s :: Product(q)
  }

  lemma {:induction false} ProductsSize(s: set<seq<bool>>)
    ensures |Products(s)| == |s|
    decreases |s|
  {
    hide Product;
    if s != {} {
      var q :| q in s;
      ProductsSize(s - {q});
      assert Products(s) == Products(s - {q}) + {Product(q)};
      if Product(q) in Products(s - {q}) {
        var other :| other in s - {q} && Product(other) == Product(q);
        QuotientOfProduct(q);
        QuotientOfProduct(other);
      }
    }
  }

  /** The differences of n bits that leave a zero register zero. */
  ghost function Silent(n: nat): (s: set<seq<bool>>)
    ensures forall e :: e in s <==> |e| == n && Serial(0, e) == 0
  {
    set e | e in Differences(n) && Serial(0, e) == 0
  }

  lemma {:induction false} PowersMultiply(m: nat, n: nat)
    ensures PowerOfTwo(m + n) == PowerOfTwo(m) * PowerOfTwo(n)
  {
    if m > 0 {
      PowersMultiply(m - 1, n);
    }
  }

  lemma FourBillion()
    ensures PowerOfTwo(32) == 0x1_0000_0000
  {
    PowersMultiply(16, 16);
    PowersMultiply(8, 8);
  }

  lemma SilentIsProduct(n: nat, e: seq<bool>)
    requires n >= 32
    ensures e in Silent(n) <==> e in Products(Differences(n - 32))
  {
    hide Serial, Product, Quotient, Divides, Differences, Products, Silent;
    SilentIsDivided(e);
    if |e| == n && Divides(e) {
      DividesMeansMultiple(e);
      assert Quotient(e) in Differences(n - 32);
    }
    if e in Products(Differences(n - 32)) {
      var q :| q in Differences(n - 32) && e == Product(q);
      MultiplesDivide(q);
    }
  }

  /** Of the differences of n bits, for 32 bits or more, exactly one in 2^32 is missed. */
  lemma OneInFourBillion(n: nat)
    requires n >= 32
    ensures |Differences(n)| == PowerOfTwo(n)
    ensures |Silent(n)| == PowerOfTwo(n - 32)
    ensures |Differences(n)| == 0x1_0000_0000 * |Silent(n)|
  {
    hide Serial, Product, PowerOfTwo, Differences, Products, Silent;
    forall e ensures e in Silent(n) <==> e in Products(Differences(n - 32)) {
      SilentIsProduct(n, e);
    }
    assert Silent(n) == Products(Differences(n - 32));
    ProductsSize(Differences(n - 32));
    DifferencesCount(n - 32);
    DifferencesCount(n);
    PowersMultiply(32, n - 32);
    FourBillion();
  }

  // ---- Values ------------------------------------------------------------------------------

  /** One byte of a message moves the register from one value to the next. */
  predicate Takes(r: bv32, b: bv8, next: bv32) {
    Shifts(Add(r, Word(b)), 8) == next
  }

  lemma TakenByte(r: bv32, message: seq<bv8>, next: bv32)
    requires message != [] && Takes(r, message[0], next)
    ensures Serial(r, BitsOf(message)) == Serial(next, BitsOf(message[1..]))
  {
    hide Serial, Bits, Word, Shifts, Pack;
    WordHalves(message[0]);
    PackedBits(Word(message[0]), 8);
    SerialIsPacked(r, Bits(Word(message[0]), 8));
    SerialAppend(r, Bits(Word(message[0]), 8), BitsOf(message[1..]));
  }

  lemma CheckDigits()
    ensures Takes(0xFFFFFFFF, 0x31, 0x7C231048) && Takes(0x7C231048, 0x32, 0xB0ACBB32)
    ensures Takes(0xB0ACBB32, 0x33, 0x77B79C2D) && Takes(0x77B79C2D, 0x34, 0x641C1F5C)
    ensures Takes(0x641C1F5C, 0x35, 0x340AC5E3) && Takes(0x340AC5E3, 0x36, 0xF68D2C9E)
    ensures Takes(0xF68D2C9E, 0x37, 0xAFFC9660) && Takes(0xAFFC9660, 0x38, 0x651F2550)
    ensures Takes(0x651F2550, 0x39, 0x340BC6D9)
  {
  }

  /** The check value of this CRC: the digits 1 to 9. */
  lemma CheckValue()
    ensures Checksum([0x31, 0x32, 0x33, 0x34, 0x35, 0x36, 0x37, 0x38, 0x39]) == 0xCBF43926
  {
    hide Takes, Serial, BitsOf;
    CheckDigits();
    var m: seq<bv8> := [0x31, 0x32, 0x33, 0x34, 0x35, 0x36, 0x37, 0x38, 0x39];
    TakenByte(0xFFFFFFFF, m, 0x7C231048);
    TakenByte(0x7C231048, m[1..], 0xB0ACBB32);
    TakenByte(0xB0ACBB32, m[1..][1..], 0x77B79C2D);
    TakenByte(0x77B79C2D, m[1..][1..][1..], 0x641C1F5C);
    TakenByte(0x641C1F5C, m[1..][1..][1..][1..], 0x340AC5E3);
    TakenByte(0x340AC5E3, m[1..][1..][1..][1..][1..], 0xF68D2C9E);
    TakenByte(0xF68D2C9E, m[1..][1..][1..][1..][1..][1..], 0xAFFC9660);
    TakenByte(0xAFFC9660, m[1..][1..][1..][1..][1..][1..][1..], 0x651F2550);
    TakenByte(0x651F2550, m[1..][1..][1..][1..][1..][1..][1..][1..], 0x340BC6D9);
    NoBits(0x340BC6D9);
  }

  /** How many bits differ. */
  function Weight(s: seq<bool>): nat {
    if s == [] then 0 else (if s[0] then 1 else 0) + Weight(s[1..])
  }

  const SILENT: seq<bv8> := [0, 0, 0, 0, 0]
  const ECHO: seq<bv8> := [0x41, 0x06, 0x71, 0xDB, 0x01]

  lemma EchoRegisters()
    ensures Takes(0xFFFFFFFF, 0, 0x2DFD1072) && Takes(0x2DFD1072, 0, 0xBE26ED00)
    ensures Takes(0xBE26ED00, 0, 0xBE26ED) && Takes(0xBE26ED, 0, 0xDEBB20E3) && Takes(0xDEBB20E3, 0, 0x39DD08E2)
    ensures Takes(0xFFFFFFFF, 0x41, 0x2C266174) && Takes(0x2C266174, 0x06, 0xBE273671)
    ensures Takes(0xBE273671, 0x71, 0xBE2736) && Takes(0xBE2736, 0xDB, 0xDEBB20E2)
            && Takes(0xDEBB20E2, 0x01, 0x39DD08E2)
  {
  }

  lemma EchoCollides()
    ensures Checksum(SILENT) == Checksum(ECHO)
  {
    hide Takes, Serial, BitsOf;
    EchoRegisters();
    TakenByte(0xFFFFFFFF, SILENT, 0x2DFD1072);
    TakenByte(0x2DFD1072, SILENT[1..], 0xBE26ED00);
    TakenByte(0xBE26ED00, SILENT[1..][1..], 0xBE26ED);
    TakenByte(0xBE26ED, SILENT[1..][1..][1..], 0xDEBB20E3);
    TakenByte(0xDEBB20E3, SILENT[1..][1..][1..][1..], 0x39DD08E2);
    TakenByte(0xFFFFFFFF, ECHO, 0x2C266174);
    TakenByte(0x2C266174, ECHO[1..], 0xBE273671);
    TakenByte(0xBE273671, ECHO[1..][1..], 0xBE2736);
    TakenByte(0xBE2736, ECHO[1..][1..][1..], 0xDEBB20E2);
    TakenByte(0xDEBB20E2, ECHO[1..][1..][1..][1..], 0x39DD08E2);
  }

  lemma {:induction false} WeightAppend(a: seq<bool>, b: seq<bool>)
    ensures Weight(a + b) == Weight(a) + Weight(b)
  {
    if a == [] {
      assert a + b == b;
    } else {
      assert (a + b)[1..] == a[1..] + b;
      WeightAppend(a[1..], b);
    }
  }

  lemma WeightOfFirst(message: seq<bv8>)
    requires message != []
    ensures Weight(BitsOf(message)) == Weight(Bits(Word(message[0]), 8)) + Weight(BitsOf(message[1..]))
  {
    hide Weight, Bits, Word;
    WeightAppend(Bits(Word(message[0]), 8), BitsOf(message[1..]));
  }

  lemma EchoWeights()
    ensures Weight(Bits(Word(0x41), 8)) == 2 && Weight(Bits(Word(0x06), 8)) == 2
    ensures Weight(Bits(Word(0x71), 8)) == 4 && Weight(Bits(Word(0xDB), 8)) == 6
    ensures Weight(Bits(Word(0x01), 8)) == 1
  {
  }

  lemma {:induction false} SilentBits(n: nat, zeros: seq<bv8>)
    requires |zeros| == n && forall i :: 0 <= i < n ==> zeros[i] == 0
    ensures AllZero(BitsOf(zeros))
  {
    hide Word;
    if n > 0 {
      ZeroWord();
      EightZeros();
      SilentBits(n - 1, zeros[1..]);
    }
  }

  lemma ZeroWord()
    ensures Word(0) == 0
  {
  }

  lemma EightZeros()
    ensures AllZero(Bits(0, 8))
  {
    hide Bits;
    EightBits(0);
  }

  /**
   Not every odd number of bit errors is detected, as the generator has an odd
   number of terms: fifteen errors that make a multiple of it are missed.
   */
  lemma OddErrorsCanBeMissed()
    ensures |SILENT| == |ECHO| && Weight(Difference(SILENT, ECHO)) == 15
    ensures Checksum(SILENT) == Checksum(ECHO)
  {
    hide Weight, BitsOf, Bits, Word, Checksum;
    EchoCollides();
    SilentBits(5, SILENT);
    assert Difference(SILENT, ECHO) == BitsOf(ECHO);
    WeightOfFirst(ECHO);
    WeightOfFirst(ECHO[1..]);
    WeightOfFirst(ECHO[1..][1..]);
    WeightOfFirst(ECHO[1..][1..][1..]);
    WeightOfFirst(ECHO[1..][1..][1..][1..]);
    NoWeight();
    EchoWeights();
  }

  lemma NoWeight()
    ensures Weight(BitsOf([])) == 0
  {
  }
}
