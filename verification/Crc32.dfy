/**
 The CRC-32 of ios/WarrenRustRuntime/WarrenGzip.swift: a table of 256 words drives a register a
 byte at a time.  The reference is the division a bit at a time, least significant bit first.
 */
module Crc32 {

  const POLYNOMIAL: bv32 := 0xEDB8_8320

  /** One bit of the division. */
  function Step(c: bv32): bv32 {
    if c & 1 != 0 then POLYNOMIAL ^ (c >> 1) else c >> 1
  }

  function Xor(a: bv32, b: bv32): bv32 {
    a ^ b
  }

  function Iterate<T>(f: T -> T, c: T, n: nat): T {
    if n == 0 then c else f(Iterate(f, c, n - 1))
  }

  function Steps(c: bv32, n: nat): bv32 {
    Iterate(Step, c, n)
  }

  predicate Odd(c: bv32) {
    c & 1 != 0
  }

  function Half(c: bv32): bv32 {
    c >> 1
  }

  function Unfold<T>(odd: T -> bool, half: T -> T, w: T, n: nat): seq<bool> {
    if n == 0 then [] else [odd(w)] + Unfold(odd, half, half(w), n - 1)
  }

  /** The first bits of a word, least significant first. */
  function Bits(w: bv32, n: nat): seq<bool> {
    Unfold(Odd, Half, w, n)
  }

  function ByteBits(b: bv8): seq<bool> {
    Bits(b as bv32, 8)
  }

  function FlatMap<S, T>(f: S -> seq<T>, s: seq<S>): seq<T> {
    if s == [] then [] else f(s[0]) + FlatMap(f, s[1..])
  }

  /** The bits of the input: the bytes in order, each least significant bit first. */
  function Message(data: seq<bv8>): seq<bool> {
    FlatMap(ByteBits, data)
  }

  function Bit(b: bool): bv32 {
    if b then 1 else 0
  }

  /** The register after dividing a message bit by bit: each bit joins at the end that leaves. */
  function Divide(c: bv32, message: seq<bool>): bv32
    decreases |message|
  {
    if message == [] then c
    else Divide(Step(Xor(c, Bit(message[0]))), message[1..])
  }

  /** The checksum by its definition. */
  function Checksum(data: seq<bv8>): bv32 {
    Xor(Divide(0xFFFF_FFFF, Message(data)), 0xFFFF_FFFF)
  }

  /** One byte of the table-driven form. */
  function ByteStep(c: bv32, b: bv8): bv32 {
    Xor(Steps((c ^ (b as bv32)) & 0xFF, 8), c >> 8)
  }

  function FoldLeft<S, T>(f: (T, S) -> T, c: T, data: seq<S>): T
    decreases |data|
  {
    if data == [] then c else FoldLeft(f, f(c, data[0]), data[1..])
  }

  function Register(c: bv32, data: seq<bv8>): bv32 {
    FoldLeft(ByteStep, c, data)
  }

  // ----- the step is linear and loses nothing

  lemma StepEven(c: bv32)
    requires c & 1 == 0
    ensures Step(c) == c >> 1
  {
  }

  lemma XorParity(a: bv32, b: bv32)
    ensures ((a ^ b) & 1 != 0) <==> ((a & 1 != 0) != (b & 1 != 0))
  {
  }

  lemma XorShift(a: bv32, b: bv32)
    ensures (a ^ b) >> 1 == (a >> 1) ^ (b >> 1)
  {
  }

  lemma XorLeft(p: bv32, x: bv32, y: bv32, px: bv32, xy: bv32)
    requires px == p ^ x && xy == x ^ y
    ensures p ^ xy == px ^ y
  {
  }

  lemma XorRight(p: bv32, x: bv32, y: bv32, py: bv32, xy: bv32)
    requires py == p ^ y && xy == x ^ y
    ensures p ^ xy == x ^ py
  {
  }

  lemma XorBoth(p: bv32, x: bv32, y: bv32, px: bv32, py: bv32)
    requires px == p ^ x && py == p ^ y
    ensures x ^ y == px ^ py
  {
  }

  /** A step by the parity and the half of its register. */
  function Stepped(odd: bool, half: bv32): bv32 {
    if odd then POLYNOMIAL ^ half else half
  }

  lemma BothOdd(x: bv32, y: bv32)
    ensures Xor(x, y) == Xor(Stepped(true, x), Stepped(true, y))
  {
    XorBoth(POLYNOMIAL, x, y, Stepped(true, x), Stepped(true, y));
  }

  lemma LeftOdd(x: bv32, y: bv32)
    ensures Stepped(true, Xor(x, y)) == Xor(Stepped(true, x), y)
  {
    XorLeft(POLYNOMIAL, x, y, Stepped(true, x), Xor(x, y));
  }

  lemma RightOdd(x: bv32, y: bv32)
    ensures Stepped(true, Xor(x, y)) == Xor(x, Stepped(true, y))
  {
    XorRight(POLYNOMIAL, x, y, Stepped(true, y), Xor(x, y));
  }

  lemma NoneOdd(x: bv32)
    ensures Stepped(false, x) == x
  {
  }

  lemma SteppedLinear(oddA: bool, oddB: bool, halfA: bv32, halfB: bv32)
    ensures Stepped(oddA != oddB, Xor(halfA, halfB)) == Xor(Stepped(oddA, halfA), Stepped(oddB, halfB))
  {
    NoneOdd(halfA);
    NoneOdd(halfB);
    NoneOdd(Xor(halfA, halfB));
    BothOdd(halfA, halfB);
    LeftOdd(halfA, halfB);
    RightOdd(halfA, halfB);
  }

  lemma StepIs(c: bv32)
    ensures Step(c) == Stepped(Odd(c), Half(c))
  {
  }

  lemma OddXor(a: bv32, b: bv32)
    ensures Odd(Xor(a, b)) == (Odd(a) != Odd(b))
  {
    XorParity(a, b);
  }

  lemma HalfXor(a: bv32, b: bv32)
    ensures Half(Xor(a, b)) == Xor(Half(a), Half(b))
  {
    XorShift(a, b);
  }

  /** A map made of a part that adds and a linear rest is linear. */
  lemma LinearByParts<T, B>(
    step: T -> T, plus: (T, T) -> T, odd: T -> B, half: T -> T, join: (B, B) -> B, made: (B, T) -> T, a: T, b: T)
    requires step(a) == made(odd(a), half(a)) && step(b) == made(odd(b), half(b))
    requires step(plus(a, b)) == made(odd(plus(a, b)), half(plus(a, b)))
    requires odd(plus(a, b)) == join(odd(a), odd(b)) && half(plus(a, b)) == plus(half(a), half(b))
    requires made(join(odd(a), odd(b)), plus(half(a), half(b))) == plus(made(odd(a), half(a)), made(odd(b), half(b)))
    ensures step(plus(a, b)) == plus(step(a), step(b))
  {
  }

  predicate Differ(p: bool, q: bool) {
    p != q
  }

  lemma StepLinear(a: bv32, b: bv32)
    ensures Step(Xor(a, b)) == Xor(Step(a), Step(b))
  {
    StepIs(a);
    StepIs(b);
    StepIs(Xor(a, b));
    OddXor(a, b);
    HalfXor(a, b);
    SteppedLinear(Odd(a), Odd(b), Half(a), Half(b));
    LinearByParts(Step, Xor, Odd, Half, Differ, Stepped, a, b);
  }

  lemma StepInjective(a: bv32, b: bv32)
    requires Step(a) == Step(b)
    ensures a == b
  {
  }

  ghost predicate Linear<T(!new)>(f: T -> T, plus: (T, T) -> T) {
    forall a, b :: f(plus(a, b)) == plus(f(a), f(b))
  }

  ghost predicate Injective<T(!new)>(f: T -> T) {
    forall a, b :: f(a) == f(b) ==> a == b
  }

  lemma {:induction false} IterateLinear<T(!new)>(f: T -> T, plus: (T, T) -> T, a: T, b: T, n: nat)
    requires Linear(f, plus)
    ensures Iterate(f, plus(a, b), n) == plus(Iterate(f, a, n), Iterate(f, b, n))
  {
    if n > 0 {
      IterateLinear(f, plus, a, b, n - 1);
    }
  }

  lemma {:induction false} IterateInjective<T(!new)>(f: T -> T, a: T, b: T, n: nat)
    requires Injective(f) && Iterate(f, a, n) == Iterate(f, b, n)
    ensures a == b
  {
    if n > 0 {
      IterateInjective(f, a, b, n - 1);
    }
  }

  lemma StepHolds()
    ensures Linear(Step, Xor) && Injective(Step)
  {
    forall a, b
      ensures Step(Xor(a, b)) == Xor(Step(a), Step(b))
    {
      StepLinear(a, b);
    }
    forall a, b | Step(a) == Step(b)
      ensures a == b
    {
      StepInjective(a, b);
    }
  }

  /** A register whose low byte is empty is only shifted. */
  lemma StepsHigh(c: bv32)
    requires c & 0xFF == 0
    ensures Steps(c, 8) == c >> 8
  {
    var c1, c2, c3, c4 := c >> 1, c >> 2, c >> 3, c >> 4;
    var c5, c6, c7 := c >> 5, c >> 6, c >> 7;
    LowBitsEmpty(c);
    StepEven(c);
    StepEven(c1);
    StepEven(c2);
    StepEven(c3);
    StepEven(c4);
    StepEven(c5);
    StepEven(c6);
    StepEven(c7);
    ShiftsAdd(c);
    assert Steps(c, 0) == c;
    assert Steps(c, 1) == c1;
    assert Steps(c, 2) == c2;
    assert Steps(c, 3) == c3;
    assert Steps(c, 4) == c4;
    assert Steps(c, 5) == c5;
    assert Steps(c, 6) == c6;
    assert Steps(c, 7) == c7;
  }

  lemma LowBitsEmpty(c: bv32)
    requires c & 0xFF == 0
    ensures c & 1 == 0 && (c >> 1) & 1 == 0 && (c >> 2) & 1 == 0 && (c >> 3) & 1 == 0
    ensures (c >> 4) & 1 == 0 && (c >> 5) & 1 == 0 && (c >> 6) & 1 == 0 && (c >> 7) & 1 == 0
  {
  }

  lemma ShiftsAdd(c: bv32)
    ensures (c >> 1) >> 1 == c >> 2 && (c >> 2) >> 1 == c >> 3 && (c >> 3) >> 1 == c >> 4 && (c >> 4) >> 1 == c >> 5
    ensures (c >> 5) >> 1 == c >> 6 && (c >> 6) >> 1 == c >> 7 && (c >> 7) >> 1 == c >> 8
  {
  }

  lemma LowHigh(c: bv32)
    ensures c == (c & 0xFF) ^ (c & 0xFFFF_FF00)
    ensures (c & 0xFFFF_FF00) & 0xFF == 0 && (c & 0xFFFF_FF00) >> 8 == c >> 8
  {
  }

  lemma IterateSplit<T(!new)>(f: T -> T, plus: (T, T) -> T, low: T, high: T, shifted: T, n: nat)
    requires Linear(f, plus) && Iterate(f, high, n) == shifted
    ensures Iterate(f, plus(low, high), n) == plus(Iterate(f, low, n), shifted)
  {
    IterateLinear(f, plus, low, high, n);
  }

  lemma EightStepsSplit(c: bv32, low: bv32, high: bv32, shifted: bv32)
    requires c == Xor(low, high) && Steps(high, 8) == shifted
    ensures Steps(c, 8) == Xor(Steps(low, 8), shifted)
  {
    StepHolds();
    IterateSplit(Step, Xor, low, high, shifted, 8);
  }

  lemma EightStepsParts(c: bv32)
    ensures c == Xor(c & 0xFF, c & 0xFFFF_FF00)
    ensures Steps(c & 0xFFFF_FF00, 8) == c >> 8
  {
    LowHigh(c);
    StepsHigh(c & 0xFFFF_FF00);
  }

  /** Eight single-bit steps are one look into the table. */
  lemma EightSteps(c: bv32)
    ensures Steps(c, 8) == Xor(Steps(c & 0xFF, 8), c >> 8)
  {
    EightStepsParts(c);
    EightStepsSplit(c, c & 0xFF, c & 0xFFFF_FF00, c >> 8);
  }

  lemma ByteShift(c: bv32, b: bv8)
    ensures (c ^ (b as bv32)) >> 8 == c >> 8
  {
  }

  lemma ByteStepAs(c: bv32, x: bv32, b: bv8)
    requires x == c ^ (b as bv32) && x >> 8 == c >> 8
    ensures ByteStep(c, b) == Steps(x, 8)
  {
    EightSteps(x);
  }

  /** The table-driven byte step is eight steps of the division. */
  lemma ByteStepIsEightSteps(c: bv32, b: bv8)
    ensures ByteStep(c, b) == Steps(c ^ (b as bv32), 8)
  {
    ByteShift(c, b);
    ByteStepAs(c, c ^ (b as bv32), b);
  }

  // ----- the table-driven register is the division

  lemma {:induction false} IterateFront<T>(f: T -> T, c: T, n: nat)
    ensures Iterate(f, f(c), n) == f(Iterate(f, c, n)) == Iterate(f, c, n + 1)
  {
    if n > 0 {
      IterateFront(f, c, n - 1);
    }
  }

  lemma StepOfWord(w: bv32)
    ensures Xor(Bit(Odd(w)), w & 0xFFFF_FFFE) == w
    ensures (w & 0xFFFF_FFFE) & 1 == 0 && (w & 0xFFFF_FFFE) >> 1 == w >> 1
  {
  }

  lemma XorAssociates(a: bv32, b: bv32, c: bv32)
    ensures Xor(a, Xor(b, c)) == Xor(Xor(a, b), c)
  {
    XorLeft(a, b, c, Xor(a, b), Xor(b, c));
  }

  /** A step consumes the lowest bit of the word that joined the register and halves the rest. */
  lemma StepConsumes(c: bv32, w: bv32)
    ensures Step(Xor(c, w)) == Xor(Step(Xor(c, Bit(Odd(w)))), w >> 1)
  {
    StepOfWord(w);
    StepEven(w & 0xFFFF_FFFE);
    StepConsumesAs(c, w, Bit(Odd(w)), w & 0xFFFF_FFFE, w >> 1);
  }

  lemma StepConsumesAs(c: bv32, w: bv32, bit: bv32, rest: bv32, half: bv32)
    requires w == Xor(bit, rest) && Step(rest) == half
    ensures Step(Xor(c, w)) == Xor(Step(Xor(c, bit)), half)
  {
    XorAssociates(c, bit, rest);
    StepHolds();
    LinearConsumes(Step, Xor, c, bit, rest);
  }

  lemma LinearConsumes<T(!new)>(f: T -> T, plus: (T, T) -> T, c: T, bit: T, rest: T)
    requires Linear(f, plus) && plus(c, plus(bit, rest)) == plus(plus(c, bit), rest)
    ensures f(plus(c, plus(bit, rest))) == plus(f(plus(c, bit)), f(rest))
  {
  }

  lemma {:induction false} DivideWord(c: bv32, w: bv32, n: nat)
    ensures Steps(Xor(c, w), n) == Xor(Divide(c, Bits(w, n)), Iterate(Half, w, n))
    decreases n
  {
    if n > 0 {
      var next := Step(Xor(c, Bit(Odd(w))));
      StepConsumes(c, w);
      IterateFront(Step, Xor(c, w), n - 1);
      IterateFront(Half, w, n - 1);
      DivideWord(next, Half(w), n - 1);
      assert Bits(w, n)[0] == Odd(w) && Bits(w, n)[1..] == Bits(Half(w), n - 1);
    }
  }

  lemma ShiftedOut(b: bv8)
    ensures (b as bv32) >> 8 == 0
  {
  }

  lemma HalvesOfByte(b: bv8)
    ensures Iterate(Half, b as bv32, 8) == 0
  {
    var w := b as bv32;
    ShiftsAdd(w);
    ShiftedOut(b);
    EightHalves(w, w >> 1, w >> 2, w >> 3, w >> 4, w >> 5, w >> 6, w >> 7, w >> 8);
  }

  lemma EightHalves(w: bv32, w1: bv32, w2: bv32, w3: bv32, w4: bv32, w5: bv32, w6: bv32, w7: bv32, w8: bv32)
    requires Half(w) == w1 && Half(w1) == w2 && Half(w2) == w3 && Half(w3) == w4
    requires Half(w4) == w5 && Half(w5) == w6 && Half(w6) == w7 && Half(w7) == w8
    ensures Iterate(Half, w, 8) == w8
  {
    assert Iterate(Half, w, 4) == w4;
  }

  lemma XorZero(a: bv32)
    ensures Xor(a, 0) == a
  {
  }

  lemma ByteStepDivides(c: bv32, b: bv8)
    ensures ByteStep(c, b) == Divide(c, ByteBits(b))
  {
    ByteStepIsEightSteps(c, b);
    DivideWord(c, b as bv32, 8);
    HalvesOfByte(b);
    XorZero(Divide(c, Bits(b as bv32, 8)));
  }

  lemma {:induction false} DivideAppend(c: bv32, a: seq<bool>, b: seq<bool>)
    ensures Divide(c, a + b) == Divide(Divide(c, a), b)
    decreases |a|
  {
    if a == [] {
      assert a + b == b;
    } else {
      assert (a + b)[0] == a[0] && (a + b)[1..] == a[1..] + b;
      DivideAppend(Step(Xor(c, Bit(a[0]))), a[1..], b);
    }
  }

  /** Driving the register by the table, a byte at a time, is the division a bit at a time. */
  lemma {:induction false} RegisterDivides(c: bv32, data: seq<bv8>)
    ensures Register(c, data) == Divide(c, Message(data))
    decreases |data|
  {
    if data != [] {
      ByteStepDivides(c, data[0]);
      RegisterDivides(ByteStep(c, data[0]), data[1..]);
      DivideAppend(c, ByteBits(data[0]), Message(data[1..]));
    }
  }

  // ----- the source's loops

  ghost predicate IsTable(table: seq<bv32>) {
    && |table| == 256
    && forall i :: 0 <= i < 256 ==> table[i] == Steps(i as bv32, 8)
  }

  /** The table, each entry by eight rounds on its index. */
  method BuildTable() returns (table: seq<bv32>)
    ensures IsTable(table)
  {
    table := [];
    for index := 0 to 256
      invariant |table| == index
      invariant forall i :: 0 <= i < index ==> table[i] == Steps(i as bv32, 8)
    {
      var c := index as bv32;
      for k := 0 to 8
        invariant c == Steps(index as bv32, k)
      {
        c := if c & 1 != 0 then POLYNOMIAL ^ (c >> 1) else c >> 1;
      }
      table := table + [c];
    }
  }

  lemma ThereAndBack(y: bv32)
    ensures (y as int) as bv32 == y
  {
  }

  lemma LowByteIndex(x: bv32)
    ensures 0 <= (x & 0xFF) as int < 256
  {
  }

  /** The look into the table is the byte step. */
  lemma TableStep(table: seq<bv32>, c: bv32, x: bv32, b: bv8)
    requires IsTable(table) && x == c ^ (b as bv32)
    ensures 0 <= (x & 0xFF) as int < 256
    ensures Xor(table[(x & 0xFF) as int], c >> 8) == ByteStep(c, b)
  {
    LowByteIndex(x);
    ThereAndBack(x & 0xFF);
    assert table[(x & 0xFF) as int] == Steps(((x & 0xFF) as int) as bv32, 8);
  }

  lemma {:induction false} FoldAppend<S, T>(f: (T, S) -> T, c: T, a: seq<S>, b: seq<S>)
    ensures FoldLeft(f, c, a + b) == FoldLeft(f, FoldLeft(f, c, a), b)
    decreases |a|
  {
    if a == [] {
      assert a + b == b;
    } else {
      assert (a + b)[0] == a[0] && (a + b)[1..] == a[1..] + b;
      FoldAppend(f, f(c, a[0]), a[1..], b);
    }
  }

  lemma FoldSnoc<S, T>(f: (T, S) -> T, start: T, data: seq<S>, i: nat, c: T, next: T)
    requires i < |data| && c == FoldLeft(f, start, data[..i]) && next == f(c, data[i])
    ensures next == FoldLeft(f, start, data[..i + 1])
  {
    FoldAppend(f, start, data[..i], [data[i]]);
    assert data[..i + 1] == data[..i] + [data[i]];
  }

  lemma ChecksumOfRegister(data: seq<bv8>)
    ensures Checksum(data) == Xor(Register(0xFFFF_FFFF, data), 0xFFFF_FFFF)
  {
    RegisterDivides(0xFFFF_FFFF, data);
  }

  /** The loop over the bytes. */
  method Drive(table: seq<bv32>, start: bv32, data: seq<bv8>) returns (crc: bv32)
    requires IsTable(table)
    ensures crc == Register(start, data)
  {
    crc := start;
    for i := 0 to |data|
      invariant crc == FoldLeft(ByteStep, start, data[..i])
    {
      var x := crc ^ (data[i] as bv32);
      TableStep(table, crc, x, data[i]);
      var next := Xor(table[(x & 0xFF) as int], crc >> 8);
      FoldSnoc(ByteStep, start, data, i, crc, next);
      crc := next;
    }
    assert data[..|data|] == data;
  }

  /** The table-driven checksum is the checksum by its definition. */
  method Crc(table: seq<bv32>, data: seq<bv8>) returns (r: bv32)
    requires IsTable(table)
    ensures r == Checksum(data)
  {
    var crc := Drive(table, 0xFFFF_FFFF, data);
    ChecksumOfRegister(data);
    r := Xor(crc, 0xFFFF_FFFF);
  }
}
