/**
 The gzip framing of ios/WarrenRustRuntime/WarrenGzip.swift (sections 2.3 and 2.3.1 of RFC 1952).
 The DEFLATE streams are parameters: two functions that may fail.
 */
module Gzip {
  import opened Options
  import opened Crc32
  import opened Crc32Bursts
  import opened LittleEndian

  datatype Error = Stream | NotGzip
  datatype Outcome = Done(data: Bytes) | Failed(error: Error)

  /** The two directions of the compression stream; None is a stream error. */
  datatype Codec = Codec(deflate: Bytes -> Option<Bytes>, inflate: Bytes -> Option<Bytes>)

  /** Inflating undoes deflating. */
  ghost predicate Faithful(codec: Codec) {
    forall d :: codec.deflate(d).Some? ==> codec.inflate(codec.deflate(d).value) == Some(d)
  }

  const HEADER: Bytes := [0x1f, 0x8b, 0x08, 0x00, 0, 0, 0, 0, 0x00, 0xff]

  /** The input's length modulo 2^32. */
  function Size(d: Bytes): bv32 {
    (|d| % 0x1_0000_0000) as bv32
  }

  /** A gzip member: a header, a body and the trailer's two words. */
  function Member(head: Bytes, body: Bytes, crc: Bytes, size: Bytes): Bytes {
    head + body + crc + size
  }

  function Compressed(codec: Codec, d: Bytes): Outcome {
    match codec.deflate(d)
    case None => Failed(Stream)
    case Some(body) => Done(Member(HEADER, body, Little(Checksum(d)), Little(Size(d))))
  }

  predicate Framed(gz: Bytes) {
    |gz| >= 18 && gz[0] == 0x1f && gz[1] == 0x8b && gz[2] == 0x08
  }

  function Body(gz: Bytes): Bytes
    requires Framed(gz)
  {
    gz[10..|gz| - 8]
  }

  function StoredCrc(gz: Bytes): Bytes
    requires Framed(gz)
  {
    gz[|gz| - 8..|gz| - 4]
  }

  function Decompressed(codec: Codec, gz: Bytes): Outcome {
    if !Framed(gz) then Failed(NotGzip)
    else
      match codec.inflate(Body(gz))
      case None => Failed(Stream)
      case Some(d) => if Checksum(d) == FromLittle(StoredCrc(gz)) then Done(d) else Failed(NotGzip)
  }

  method Compress(codec: Codec, table: seq<bv32>, data: Bytes) returns (r: Outcome)
    requires IsTable(table)
    ensures r == Compressed(codec, data)
  {
    match codec.deflate(data)
    case None =>
      return Failed(Stream);
    case Some(deflated) =>
      var out := HEADER;
      out := out + deflated;
      var crc := Crc(table, data);
      out := out + Little(crc);
      out := out + Little(Size(data));
      return Done(out);
  }

  method Decompress(codec: Codec, table: seq<bv32>, gz: Bytes) returns (r: Outcome)
    requires IsTable(table)
    ensures r == Decompressed(codec, gz)
  {
    if |gz| < |HEADER| + 8 || gz[0] != 0x1f || gz[1] != 0x8b || gz[2] != 0x08 {
      return Failed(NotGzip);
    }
    var body := gz[|HEADER|..|gz| - 8];
    match codec.inflate(body)
    case None =>
      return Failed(Stream);
    case Some(inflated) =>
      var expected := ReadUInt32LE(gz, |gz| - 8);
      var crc := Crc(table, inflated);
      if crc != expected {
        return Failed(NotGzip);
      }
      return Done(inflated);
  }

  // ----- what the frame promises

  ghost predicate Magic(head: Bytes) {
    |head| == 10 && head[0] == 0x1f && head[1] == 0x8b && head[2] == 0x08
  }

  lemma MemberParts(head: Bytes, body: Bytes, crc: Bytes, size: Bytes)
    requires Magic(head) && |crc| == 4 && |size| == 4
    ensures Framed(Member(head, body, crc, size))
    ensures Body(Member(head, body, crc, size)) == body && StoredCrc(Member(head, body, crc, size)) == crc
  {
  }

  /** Every framed string is a member, so the theorems below on members speak of every input. */
  lemma FramedIsMember(gz: Bytes)
    requires Framed(gz)
    ensures Magic(gz[..10])
    ensures gz == Member(gz[..10], Body(gz), StoredCrc(gz), gz[|gz| - 4..])
  {
  }

  /** Four bytes hold a word exactly when they are the word's bytes. */
  lemma HoldsExactly(b: Bytes, w: bv32)
    requires |b| == 4
    ensures FromLittle(b) == w <==> b == Little(w)
  {
    LittleReadBack(w);
    FromLittleReadBack(b);
  }

  lemma MemberAccepted(codec: Codec, head: Bytes, body: Bytes, crc: Bytes, size: Bytes, d: Bytes)
    requires Magic(head) && |crc| == 4 && |size| == 4
    ensures Decompressed(codec, Member(head, body, crc, size)) == Done(d)
       <==> codec.inflate(body) == Some(d) && crc == Little(Checksum(d))
  {
    MemberParts(head, body, crc, size);
    HoldsExactly(crc, Checksum(d));
  }

  /**
   Any string is accepted, with content d, exactly when it has eighteen bytes and the three magic ones, its
   body inflates to d and the four bytes after the body are the checksum of d.
   */
  lemma AcceptedExactly(codec: Codec, gz: Bytes, d: Bytes)
    ensures Decompressed(codec, gz) == Done(d) <==>
      && |gz| >= 18 && gz[..3] == [0x1f, 0x8b, 0x08]
      && codec.inflate(gz[10..|gz| - 8]) == Some(d) && gz[|gz| - 8..|gz| - 4] == Little(Checksum(d))
  {
    if |gz| >= 3 {
      assert gz[..3] == [gz[0], gz[1], gz[2]];
    }
    if Framed(gz) {
      FramedIsMember(gz);
      MemberAccepted(codec, gz[..10], Body(gz), StoredCrc(gz), gz[|gz| - 4..], d);
    }
  }

  /** The stream is blamed exactly when the frame is right and the body does not inflate. */
  lemma StreamFailsExactly(codec: Codec, gz: Bytes)
    ensures Decompressed(codec, gz) == Failed(Stream) <==>
      |gz| >= 18 && gz[..3] == [0x1f, 0x8b, 0x08] && codec.inflate(gz[10..|gz| - 8]) == None
  {
    if |gz| >= 3 {
      assert gz[..3] == [gz[0], gz[1], gz[2]];
    }
  }

  /** The member in full: the ten bytes of the header, the body, and the words of the checksum and of the
      length modulo 2^32, each read low byte first. */
  lemma CompressedIs(codec: Codec, d: Bytes)
    ensures codec.deflate(d).None? ==> Compressed(codec, d) == Failed(Stream)
    ensures codec.deflate(d).Some? ==>
      var r, n := Compressed(codec, d), |codec.deflate(d).value|;
      && r.Done? && |r.data| == n + 18
      && r.data[..10] == [0x1f, 0x8b, 0x08, 0, 0, 0, 0, 0, 0, 0xff]
      && r.data[10..10 + n] == codec.deflate(d).value
      && FromLittle(r.data[10 + n..14 + n]) == Checksum(d)
      && FromLittle(r.data[14 + n..]) == (|d| % 0x1_0000_0000) as bv32
  {
    if codec.deflate(d).Some? {
      LittleReadBack(Checksum(d));
      LittleReadBack(Size(d));
      PartsStand(HEADER, codec.deflate(d).value, Little(Checksum(d)), Little(Size(d)));
    }
  }

  lemma PartsStand(head: Bytes, body: Bytes, crc: Bytes, size: Bytes)
    requires |head| == 10 && |crc| == 4 && |size| == 4
    ensures var gz, n := Member(head, body, crc, size), |body|;
      && |gz| == n + 18 && gz[..10] == head && gz[10..10 + n] == body
      && gz[10 + n..14 + n] == crc && gz[14 + n..] == size
  {
  }

  lemma HeaderIsMagic()
    ensures Magic(HEADER)
  {
  }

  /** Decompressing undoes compressing. */
  lemma RoundTrip(codec: Codec, d: Bytes)
    requires Faithful(codec) && codec.deflate(d).Some?
    ensures Compressed(codec, d).Done? && Decompressed(codec, Compressed(codec, d).data) == Done(d)
  {
    HeaderIsMagic();
    MemberAccepted(codec, HEADER, codec.deflate(d).value, Little(Checksum(d)), Little(Size(d)), d);
  }

  /** Any other four checksum bytes are refused. */
  lemma CrcChangeRefused(codec: Codec, head: Bytes, body: Bytes, crc: Bytes, size: Bytes, other: Bytes)
    requires Magic(head) && |crc| == 4 && |size| == 4 && |other| == 4 && other != crc
    requires Decompressed(codec, Member(head, body, crc, size)).Done?
    ensures Decompressed(codec, Member(head, body, other, size)) == Failed(NotGzip)
  {
    var d := Decompressed(codec, Member(head, body, crc, size)).data;
    MemberAccepted(codec, head, body, crc, size, d);
    MemberAccepted(codec, head, body, other, size, d);
    MemberParts(head, body, other, size);
  }

  /**
   A body that inflates to the original with up to thirty-two consecutive bits changed is refused,
   whatever the header's unread bytes and the length field say.
   */
  lemma CorruptionRefused(
    codec: Codec, head: Bytes, body: Bytes, size: Bytes, d: Bytes, e: Bytes,
    before: seq<bool>, u: seq<bool>, v: seq<bool>, after: seq<bool>)
    requires Magic(head) && |size| == 4 && codec.inflate(body) == Some(e)
    requires Message(d) == before + u + after && Message(e) == before + v + after
    requires |u| == |v| <= 32 && u != v
    ensures Decompressed(codec, Member(head, body, Little(Checksum(d)), size)) == Failed(NotGzip)
  {
    BurstsDetected(d, e, before, u, v, after);
    RefusedOnMismatch(codec, head, body, Checksum(d), size, e);
  }

  /** The same for a change of up to four consecutive bytes. */
  lemma ByteCorruptionRefused(
    codec: Codec, head: Bytes, body: Bytes, size: Bytes, before: Bytes, x: Bytes, y: Bytes, after: Bytes)
    requires Magic(head) && |size| == 4 && codec.inflate(body) == Some(before + y + after)
    requires |x| == |y| <= 4 && x != y
    ensures Decompressed(codec, Member(head, body, Little(Checksum(before + x + after)), size)) == Failed(NotGzip)
  {
    ByteBurstsDetected(before, x, y, after);
    RefusedOnMismatch(codec, head, body, Checksum(before + x + after), size, before + y + after);
  }

  lemma RefusedOnMismatch(codec: Codec, head: Bytes, body: Bytes, w: bv32, size: Bytes, e: Bytes)
    requires Magic(head) && |size| == 4 && codec.inflate(body) == Some(e) && Checksum(e) != w
    ensures Decompressed(codec, Member(head, body, Little(w), size)) == Failed(NotGzip)
  {
    MemberParts(head, body, Little(w), size);
    LittleReadBack(w);
  }

  /** Nothing reads the length word, nor the header after its third byte. */
  lemma LengthIsIgnored(codec: Codec, head: Bytes, other: Bytes, body: Bytes, crc: Bytes, size: Bytes, longer: Bytes)
    requires Magic(head) && Magic(other) && |crc| == 4 && |size| == 4 && |longer| == 4
    ensures Decompressed(codec, Member(head, body, crc, size)) == Decompressed(codec, Member(other, body, crc, longer))
  {
    MemberParts(head, body, crc, size);
    MemberParts(other, body, crc, longer);
  }
}
