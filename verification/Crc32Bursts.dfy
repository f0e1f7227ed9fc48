/**
 What the checksum detects: a change confined to thirty-two consecutive bits of the message, and in
 particular to four consecutive bytes, always changes it.
 */
module Crc32Bursts {
  import opened Crc32

  function Twice(w: bv32): bv32 {
    w << 1
  }

  function Join(bit: bool, w: bv32): bv32 {
    if bit then (w << 1) | 1 else w << 1
  }

  function Fold<T>(f: (bool, T) -> T, z: T, u: seq<bool>): T {
    if u == [] then z else f(u[0], Fold(f, z, u[1..]))
  }

  /** The word with the given bits, least significant first. */
  function Word(u: seq<bool>): bv32 {
    Fold(Join, 0, u)
  }

  /** The positions from `n` up. */
  function Mask(n: nat): bv32 {
    Iterate(Twice, 0xFFFF_FFFF, n)
  }

  predicate Apart(w: bv32, m: bv32) {
    w & m == 0
  }

  predicate Covers(a: bv32, b: bv32) {
    a & b == b
  }

  lemma JoinApart(w: bv32, m: bv32, bit: bool)
    requires Apart(w, m)
    ensures Apart(Join(bit, w), Twice(m))
  {
    ShiftedApart(w, m);
  }

  lemma ShiftedApart(w: bv32, m: bv32)
    requires w & m == 0
    ensures (w << 1) & (m << 1) == 0 && ((w << 1) | 1) & (m << 1) == 0
  {
  }

  lemma {:induction false} FoldKeeps<T(!new)>(
    f: (bool, T) -> T, g: T -> T, related: (T, T) -> bool, z: T, m: T, u: seq<bool>)
    requires related(z, m) && forall w, n, bit :: related(w, n) ==> related(f(bit, w), g(n))
    ensures related(Fold(f, z, u), Iterate(g, m, |u|))
  {
    if u != [] {
      FoldKeeps(f, g, related, z, m, u[1..]);
    }
  }

  lemma WordFits(u: seq<bool>)
    ensures Apart(Word(u), Mask(|u|))
  {
    forall w, m, bit | Apart(w, m)
      ensures Apart(Join(bit, w), Twice(m))
    {
      JoinApart(w, m, bit);
    }
    FoldKeeps(Join, Twice, Apart, 0, 0xFFFF_FFFF, u);
  }

  lemma CoverShifts(m: bv32)
    requires Covers(m, Twice(m))
    ensures Covers(Twice(m), Twice(Twice(m)))
  {
  }

  lemma {:induction false} MaskShrinks(n: nat)
    ensures Covers(Mask(n), Mask(n + 1))
  {
    if n > 0 {
      MaskShrinks(n - 1);
      CoverShifts(Mask(n - 1));
    }
  }

  lemma CoverChain(a: bv32, b: bv32, c: bv32)
    requires Covers(a, b) && Covers(b, c)
    ensures Covers(a, c)
  {
  }

  lemma {:induction false} MaskCovers(n: nat, k: nat)
    requires n <= k
    ensures Covers(Mask(n), Mask(k))
    decreases k - n
  {
    if n < k {
      MaskCovers(n + 1, k);
      MaskShrinks(n);
      CoverChain(Mask(n), Mask(n + 1), Mask(k));
    }
  }

  lemma MaskTop()
    ensures Mask(31) == 0x8000_0000
  {
    assert Mask(8) == 0xFFFF_FF00;
    assert Mask(16) == 0xFFFF_0000;
    assert Mask(24) == 0xFF00_0000;
  }

  lemma TopFree(w: bv32, m: bv32, top: bv32)
    requires Apart(w, m) && Covers(m, top) && top == 0x8000_0000
    ensures Half(Twice(w)) == w
  {
  }

  lemma ShiftedParts(w: bv32)
    ensures (w << 1) & 1 == 0 && ((w << 1) | 1) & 1 != 0
  {
  }

  lemma ShiftedHalf(w: bv32)
    ensures ((w << 1) | 1) >> 1 == (w << 1) >> 1
  {
  }

  lemma JoinBit(w: bv32, bit: bool)
    ensures Odd(Join(bit, w)) == bit
  {
    ShiftedParts(w);
  }

  lemma JoinHalf(w: bv32, bit: bool)
    ensures Half(Join(bit, w)) == Half(Twice(w))
  {
    if bit {
      assert Join(bit, w) == (w << 1) | 1;
      ShiftedHalf(w);
    } else {
      assert Join(bit, w) == Twice(w);
    }
  }

  lemma RoomAbove(u: seq<bool>)
    requires |u| < 32
    ensures Half(Twice(Word(u))) == Word(u)
  {
    WordFits(u);
    MaskCovers(|u|, 31);
    MaskTop();
    TopFree(Word(u), Mask(|u|), Mask(31));
  }

  lemma WordParts(u: seq<bool>)
    requires 0 < |u| <= 32
    ensures Odd(Word(u)) == u[0] && Half(Word(u)) == Word(u[1..])
  {
    RoomAbove(u[1..]);
    JoinBit(Word(u[1..]), u[0]);
    JoinHalf(Word(u[1..]), u[0]);
  }

  lemma {:induction false} UnfoldReadBack<T>(odd: T -> bool, half: T -> T, word: seq<bool> -> T, limit: nat, u: seq<bool>)
    requires |u| <= limit
    requires forall v :: 0 < |v| <= limit ==> odd(word(v)) == v[0] && half(word(v)) == word(v[1..])
    ensures Unfold(odd, half, word(u), |u|) == u && Iterate(half, word(u), |u|) == word([])
    decreases |u|
  {
    if u == [] {
      assert u == [];
    } else {
      UnfoldReadBack(odd, half, word, limit, u[1..]);
      IterateFront(half, word(u), |u| - 1);
    }
  }

  lemma WordReadBack(u: seq<bool>)
    requires |u| <= 32
    ensures Bits(Word(u), |u|) == u && Iterate(Half, Word(u), |u|) == 0
  {
    forall v: seq<bool> | 0 < |v| <= 32
      ensures Odd(Word(v)) == v[0] && Half(Word(v)) == Word(v[1..])
    {
      WordParts(v);
    }
    UnfoldReadBack(Odd, Half, Word, 32, u);
  }

  lemma WindowDivides(c: bv32, u: seq<bool>)
    requires |u| <= 32
    ensures Divide(c, u) == Steps(Xor(c, Word(u)), |u|)
  {
    DivideWord(c, Word(u), |u|);
    WordReadBack(u);
    XorZero(Divide(c, u));
  }

  lemma XorCancels(c: bv32, a: bv32, b: bv32)
    requires Xor(c, a) == Xor(c, b) || Xor(a, c) == Xor(b, c)
    ensures a == b
  {
  }

  lemma StepsTell(c: bv32, a: bv32, b: bv32, n: nat)
    requires Steps(Xor(c, a), n) == Steps(Xor(c, b), n)
    ensures a == b
  {
    StepHolds();
    IterateInjective(Step, Xor(c, a), Xor(c, b), n);
    XorCancels(c, a, b);
  }

  /** Different windows of equal length leave different registers. */
  lemma WindowsDiffer(c: bv32, u: seq<bool>, v: seq<bool>)
    requires |u| == |v| <= 32 && Divide(c, u) == Divide(c, v)
    ensures u == v
  {
    WindowDivides(c, u);
    WindowDivides(c, v);
    StepsTell(c, Word(u), Word(v), |u|);
    WordReadBack(u);
    WordReadBack(v);
  }

  lemma JoinedStepTells(c: bv32, d: bv32, bit: bv32)
    requires Step(Xor(c, bit)) == Step(Xor(d, bit))
    ensures c == d
  {
    StepInjective(Xor(c, bit), Xor(d, bit));
    XorCancels(bit, c, d);
  }

  /** No register is forgotten: the same message keeps different registers apart. */
  lemma {:induction false} DivideInjective(c: bv32, d: bv32, message: seq<bool>)
    requires Divide(c, message) == Divide(d, message)
    ensures c == d
    decreases |message|
  {
    if message != [] {
      var bit := Bit(message[0]);
      DivideInjective(Step(Xor(c, bit)), Step(Xor(d, bit)), message[1..]);
      JoinedStepTells(c, d, bit);
    }
  }

  lemma ComplementInjective(a: bv32, b: bv32)
    requires Xor(a, 0xFFFF_FFFF) == Xor(b, 0xFFFF_FFFF)
    ensures a == b
  {
  }

  /** The register part of the burst theorem. */
  lemma BurstLeavesTrace(c: bv32, before: seq<bool>, u: seq<bool>, v: seq<bool>, after: seq<bool>)
    requires |u| == |v| <= 32 && Divide(c, before + u + after) == Divide(c, before + v + after)
    ensures u == v
  {
    DivideAppend(c, before + u, after);
    DivideAppend(c, before + v, after);
    DivideAppend(c, before, u);
    DivideAppend(c, before, v);
    DivideInjective(Divide(Divide(c, before), u), Divide(Divide(c, before), v), after);
    WindowsDiffer(Divide(c, before), u, v);
  }

  /** Two inputs whose bits differ, and only inside a window of thirty-two, have different checksums. */
  lemma BurstsDetected(a: seq<bv8>, b: seq<bv8>, before: seq<bool>, u: seq<bool>, v: seq<bool>, after: seq<bool>)
    requires Message(a) == before + u + after && Message(b) == before + v + after
    requires |u| == |v| <= 32 && u != v
    ensures Checksum(a) != Checksum(b)
  {
    if Checksum(a) == Checksum(b) {
      ComplementInjective(Divide(0xFFFF_FFFF, Message(a)), Divide(0xFFFF_FFFF, Message(b)));
      BurstLeavesTrace(0xFFFF_FFFF, before, u, v, after);
    }
  }

  // ----- the same in bytes

  lemma {:induction false} UnfoldLength<T>(odd: T -> bool, half: T -> T, w: T, n: nat)
    ensures |Unfold(odd, half, w, n)| == n
  {
    if n > 0 {
      UnfoldLength(odd, half, half(w), n - 1);
    }
  }

  ghost predicate Wide<S(!new), T>(f: S -> seq<T>, n: nat) {
    forall x :: |f(x)| == n
  }

  lemma {:induction false} FlatMapLength<S(!new), T>(f: S -> seq<T>, n: nat, s: seq<S>)
    requires Wide(f, n)
    ensures |FlatMap(f, s)| == n * |s|
  {
    if s != [] {
      FlatMapLength(f, n, s[1..]);
      assert n * |s| == n + n * (|s| - 1);
    }
  }

  lemma {:induction false} FlatMapAppend<S, T>(f: S -> seq<T>, a: seq<S>, b: seq<S>)
    ensures FlatMap(f, a + b) == FlatMap(f, a) + FlatMap(f, b)
  {
    if a == [] {
      assert a + b == b;
    } else {
      assert (a + b)[0] == a[0] && (a + b)[1..] == a[1..] + b;
      FlatMapAppend(f, a[1..], b);
    }
  }

  lemma {:induction false} FlatMapInjective<S(!new), T>(f: S -> seq<T>, n: nat, a: seq<S>, b: seq<S>)
    requires Wide(f, n) && (forall x, y :: f(x) == f(y) ==> x == y)
    requires |a| == |b| && FlatMap(f, a) == FlatMap(f, b)
    ensures a == b
  {
    if a != [] {
      assert FlatMap(f, a)[..n] == f(a[0]) && FlatMap(f, a)[n..] == FlatMap(f, a[1..]);
      assert FlatMap(f, b)[..n] == f(b[0]) && FlatMap(f, b)[n..] == FlatMap(f, b[1..]);
      FlatMapInjective(f, n, a[1..], b[1..]);
      assert a == [a[0]] + a[1..] && b == [b[0]] + b[1..];
    }
  }

  lemma BytesWide()
    ensures Wide(ByteBits, 8)
  {
    forall b
      ensures |ByteBits(b)| == 8
    {
      UnfoldLength(Odd, Half, b as bv32, 8);
    }
  }

  lemma MessageLength(data: seq<bv8>)
    ensures |Message(data)| == 8 * |data|
  {
    BytesWide();
    FlatMapLength(ByteBits, 8, data);
  }

  lemma {:induction false} UnfoldTells<T(!new)>(odd: T -> bool, half: T -> T, v: T, w: T, n: nat)
    requires forall x, y :: odd(x) == odd(y) && half(x) == half(y) ==> x == y
    requires Unfold(odd, half, v, n) == Unfold(odd, half, w, n) && Iterate(half, v, n) == Iterate(half, w, n)
    ensures v == w
  {
    if n > 0 {
      var a, b := Unfold(odd, half, v, n), Unfold(odd, half, w, n);
      assert a[0] == odd(v) && b[0] == odd(w);
      assert a[1..] == Unfold(odd, half, half(v), n - 1) && b[1..] == Unfold(odd, half, half(w), n - 1);
      IterateFront(half, v, n - 1);
      IterateFront(half, w, n - 1);
      UnfoldTells(odd, half, half(v), half(w), n - 1);
    }
  }

  lemma HalvesTell(v: bv32, w: bv32)
    requires Odd(v) == Odd(w) && Half(v) == Half(w)
    ensures v == w
  {
  }

  lemma WordsTell()
    ensures forall x, y :: Odd(x) == Odd(y) && Half(x) == Half(y) ==> x == y
  {
    forall x, y | Odd(x) == Odd(y) && Half(x) == Half(y)
      ensures x == y
    {
      HalvesTell(x, y);
    }
  }

  lemma ByteTell(a: bv8, b: bv8)
    requires a as bv32 == b as bv32
    ensures a == b
  {
  }

  lemma ByteBitsTell(a: bv8, b: bv8)
    requires ByteBits(a) == ByteBits(b)
    ensures a == b
  {
    HalvesOfByte(a);
    HalvesOfByte(b);
    WordsTell();
    UnfoldTells(Odd, Half, a as bv32, b as bv32, 8);
    ByteTell(a, b);
  }

  lemma MessageInjective(a: seq<bv8>, b: seq<bv8>)
    requires |a| == |b| && Message(a) == Message(b)
    ensures a == b
  {
    BytesWide();
    forall x, y | ByteBits(x) == ByteBits(y)
      ensures x == y
    {
      ByteBitsTell(x, y);
    }
    FlatMapInjective(ByteBits, 8, a, b);
  }

  /** Replacing up to four consecutive bytes by others changes the checksum. */
  lemma ByteBurstsDetected(before: seq<bv8>, x: seq<bv8>, y: seq<bv8>, after: seq<bv8>)
    requires |x| == |y| <= 4 && x != y
    ensures Checksum(before + x + after) != Checksum(before + y + after)
  {
    FlatMapAppend(ByteBits, before + x, after);
    FlatMapAppend(ByteBits, before + y, after);
    FlatMapAppend(ByteBits, before, x);
    FlatMapAppend(ByteBits, before, y);
    MessageLength(x);
    MessageLength(y);
    if Message(x) == Message(y) {
      MessageInjective(x, y);
    }
    BurstsDetected(before + x + after, before + y + after, Message(before), Message(x), Message(y), Message(after));
  }
}
