/** The little-endian words of the gzip trailer (section 2.1 of RFC 1952). */
module LittleEndian {
  type Bytes = seq<bv8>

  function Little(w: bv32): (b: Bytes)
    ensures |b| == 4
  {
    [(w & 0xFF) as bv8, ((w >> 8) & 0xFF) as bv8, ((w >> 16) & 0xFF) as bv8, (w >> 24) as bv8]
  }

  function Or(a: bv32, b: bv32): bv32 {
    a | b
  }

  /** A byte in its place. */
  function Place(b: bv8, offset: nat): bv32
    requires offset < 4
  {
    (b as bv32) << (8 * offset)
  }

  function Joined(a: bv32, b: bv32, c: bv32, d: bv32): bv32 {
    ((a | (b << 8)) | (c << 16)) | (d << 24)
  }

  /** The word that four bytes hold, the low byte first. */
  function FromLittle(b: Bytes): bv32
    requires |b| == 4
  {
    Joined(b[0] as bv32, b[1] as bv32, b[2] as bv32, b[3] as bv32)
  }

  lemma WordOfBytes(w: bv32)
    ensures Joined(w & 0xFF, (w >> 8) & 0xFF, (w >> 16) & 0xFF, w >> 24) == w
  {
  }

  lemma Narrow(w: bv32)
    requires w & 0xFFFF_FF00 == 0
    ensures w < 256 && (w as bv8) as bv32 == w
  {
  }

  lemma LowParts(w: bv32)
    ensures (w & 0xFF) & 0xFFFF_FF00 == 0 && ((w >> 8) & 0xFF) & 0xFFFF_FF00 == 0
    ensures ((w >> 16) & 0xFF) & 0xFFFF_FF00 == 0 && (w >> 24) & 0xFFFF_FF00 == 0
  {
  }

  /** Writing a word and reading it give the same word. */
  lemma LittleReadBack(w: bv32)
    ensures FromLittle(Little(w)) == w
  {
    LowParts(w);
    Narrow(w & 0xFF);
    Narrow((w >> 8) & 0xFF);
    Narrow((w >> 16) & 0xFF);
    Narrow(w >> 24);
    WordOfBytes(w);
  }

  lemma BytesOfWord(a: bv32, b: bv32, c: bv32, d: bv32, w: bv32)
    requires a < 256 && b < 256 && c < 256 && d < 256
    requires w == ((a | (b << 8)) | (c << 16)) | (d << 24)
    ensures w & 0xFF == a && (w >> 8) & 0xFF == b && (w >> 16) & 0xFF == c && w >> 24 == d
  {
  }

  lemma JoinedReadBack(a: bv32, b: bv32, c: bv32, d: bv32)
    requires a < 256 && b < 256 && c < 256 && d < 256
    ensures Joined(a, b, c, d) & 0xFF == a && (Joined(a, b, c, d) >> 8) & 0xFF == b
    ensures (Joined(a, b, c, d) >> 16) & 0xFF == c && Joined(a, b, c, d) >> 24 == d
  {
    BytesOfWord(a, b, c, d, Joined(a, b, c, d));
  }

  lemma Widen(b: bv8)
    ensures (b as bv32) < 256
  {
  }

  lemma BackToByte(b: bv8, w: bv32)
    requires w == b as bv32
    ensures w < 256 && w as bv8 == b
  {
  }

  lemma LittleParts(w: bv32, a: bv8, b: bv8, c: bv8, d: bv8)
    requires w & 0xFF == a as bv32 && (w >> 8) & 0xFF == b as bv32
    requires (w >> 16) & 0xFF == c as bv32 && w >> 24 == d as bv32
    ensures Little(w) == [a, b, c, d]
  {
    BackToByte(a, w & 0xFF);
    BackToByte(b, (w >> 8) & 0xFF);
    BackToByte(c, (w >> 16) & 0xFF);
    BackToByte(d, w >> 24);
  }

  lemma JoinedParts(a: bv8, b: bv8, c: bv8, d: bv8)
    ensures Little(Joined(a as bv32, b as bv32, c as bv32, d as bv32)) == [a, b, c, d]
  {
    Widen(a);
    Widen(b);
    Widen(c);
    Widen(d);
    JoinedReadBack(a as bv32, b as bv32, c as bv32, d as bv32);
    LittleParts(Joined(a as bv32, b as bv32, c as bv32, d as bv32), a, b, c, d);
  }

  /** Reading four bytes and writing the word give the same bytes. */
  lemma FromLittleReadBack(b: Bytes)
    requires |b| == 4
    ensures Little(FromLittle(b)) == b
  {
    FourBytes(b, b[0], b[1], b[2], b[3]);
    JoinedParts(b[0], b[1], b[2], b[3]);
  }

  lemma FourBytes<T>(s: seq<T>, a: T, b: T, c: T, d: T)
    requires |s| == 4 && s[0] == a && s[1] == b && s[2] == c && s[3] == d
    ensures [a, b, c, d] == s
  {
  }

  function Partial(b: Bytes, n: nat): bv32
    requires n <= 4 == |b|
  {
    if n == 0 then 0 else Or(Partial(b, n - 1), Place(b[n - 1], n - 1))
  }

  lemma Places(b: bv8)
    ensures Place(b, 0) == b as bv32 && Place(b, 1) == (b as bv32) << 8
    ensures Place(b, 2) == (b as bv32) << 16 && Place(b, 3) == (b as bv32) << 24
  {
  }

  lemma OrZero(a: bv32)
    ensures Or(0, a) == a
  {
  }

  lemma PartialIsWhole(b: Bytes)
    requires |b| == 4
    ensures Partial(b, 4) == FromLittle(b)
  {
    Places(b[0]);
    Places(b[1]);
    Places(b[2]);
    Places(b[3]);
    OrZero(b[0] as bv32);
    assert Partial(b, 1) == b[0] as bv32;
    assert Partial(b, 2) == Or(b[0] as bv32, (b[1] as bv32) << 8);
    assert Partial(b, 3) == Or(Or(b[0] as bv32, (b[1] as bv32) << 8), (b[2] as bv32) << 16);
  }

  method ReadUInt32LE(data: Bytes, index: nat) returns (value: bv32)
    requires index + 4 <= |data|
    ensures value == FromLittle(data[index..index + 4])
  {
    var bytes := data[index..index + 4];
    value := 0;
    for offset := 0 to 4
      invariant value == Partial(bytes, offset)
    {
      value := Or(value, Place(bytes[offset], offset));
    }
    PartialIsWhole(bytes);
  }
}
