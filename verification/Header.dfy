/** The erasure header in front of every datagram (net/src/packet.rs). */
module Header {
  import opened Bytes

  datatype Info = Info(
    blockId: u32,
    minFragmentSize: u32,
    recoveryPkt: bool,
    fragmentIndex: u32,
    pktSizes: seq<u16>,
    sendTimestamp: u128)

  /** Size on the wire of a header with k packet sizes: three u32, a bool, k u16 and a u128. */
  function NoBytes(k: nat): (n: nat) {
    3 * 4 + 1 + 2 * k + 16
  }

  /** The datagram size less the header, rounded up to the 64 bytes the erasure code works in. */
  function SimdPacketSize(mtu: nat, k: nat): (n: nat)
    requires NoBytes(k) <= mtu
  {
    (mtu - NoBytes(k) + 63) / 64 * 64
  }

  /** The values the program is built with: 4 regular packets to a block, 1200-byte datagrams. */
  lemma {:induction false} BuiltSizes()
    ensures NoBytes(4) == 37
    ensures SimdPacketSize(1200, 4) == 1216
  {
  }

  lemma {:induction false} SimdPacketSizeIsLeast(mtu: nat, k: nat)
    requires NoBytes(k) <= mtu
    ensures SimdPacketSize(mtu, k) % 64 == 0
    ensures forall n: nat :: mtu - NoBytes(k) <= n && n % 64 == 0 ==> SimdPacketSize(mtu, k) <= n
    ensures mtu - NoBytes(k) <= SimdPacketSize(mtu, k)
  {
  }

  /** The packet sizes, each as two bytes, high byte first. */
  function SizesBytes(sizes: seq<u16>): (s: seq<byte>)
    ensures |s| == 2 * |sizes|
  {
    seq(2 * |sizes|, j requires 0 <= j < 2 * |sizes| => if j % 2 == 0 then sizes[j / 2] / 256 else sizes[j / 2] % 256)
  }

  function Encoded(h: Info): (s: seq<byte>)
    ensures |s| == NoBytes(|h.pktSizes|)
  {
    BigEndian(h.blockId, 4) + BigEndian(h.minFragmentSize, 4) + [if h.recoveryPkt then 1 else 0]
    + BigEndian(h.fragmentIndex, 4) + SizesBytes(h.pktSizes) + BigEndian(h.sendTimestamp, 16)
  }

  /** A header, byte by byte: the fields in this order, each with its highest byte first. */
  lemma {:induction false} EncodedExample(time: u128)
    requires time == 0x0D0E
    ensures Encoded(Info(0x0102_0304, 4, true, 0x0506_0708, [0x090A, 0x0B0C], time))
         == [1, 2, 3, 4] + [0, 0, 0, 4] + [1] + [5, 6, 7, 8] + [9, 10] + [11, 12] + Zeros(14) + [13, 14]
  {
    hide BigEndian, SizesBytes;
    FourBytes(0x0102_0304, 1, 2, 3, 4);
    FourBytes(4, 0, 0, 0, 4);
    FourBytes(0x0506_0708, 5, 6, 7, 8);
    TimeExample();
    SizesExample();
  }

  lemma {:induction false} TimeExample()
    ensures BigEndian(0x0D0E, 16) == Zeros(14) + [13, 14]
  {
    ZeroBytes(14);
    assert BigEndian(0x0D0E, 16) == BigEndian(0x0D, 15) + [14];
    assert BigEndian(0x0D, 15) == BigEndian(0, 14) + [13];
  }

  lemma {:induction false} SizesExample()
    ensures SizesBytes([0x090A, 0x0B0C]) == [9, 10] + [11, 12]
  {
  }

  lemma {:induction false} FourBytes(v: nat, a: byte, b: byte, c: byte, d: byte)
    requires v == ((a * 256 + b) * 256 + c) * 256 + d
    ensures BigEndian(v, 4) == [a, b, c, d]
  {
    LastByte((a * 256 + b) * 256 + c, d, 3);
    LastByte(a * 256 + b, c, 2);
    LastByte(a, b, 1);
    LastByte(0, a, 0);
    hide BigEndian;
    assert BigEndian(0, 0) == [];
  }

  lemma {:induction false} LastByte(v: nat, x: byte, n: nat)
    ensures BigEndian(v * 256 + x, n + 1) == BigEndian(v, n) + [x]
  {
  }

  lemma {:induction false} ZeroBytes(n: nat)
    ensures BigEndian(0, n) == Zeros(n)
  {
    if n > 0 {
      ZeroBytes(n - 1);
    }
  }

  function Word16(s: seq<byte>): (v: u16)
    requires |s| == 2
  {
    256 * (s[0] as int) + s[1] as int
  }

  function Word32(s: seq<byte>): (v: u32)
    requires |s| == 4
  {
    (((s[0] as int) * 256 + s[1] as int) * 256 + s[2] as int) * 256 + s[3] as int
  }

  lemma {:induction false} Word32IsBigEndian(s: seq<byte>)
    requires |s| == 4
    ensures Word32(s) == FromBigEndian(s)
  {
    assert FromBigEndian(s[..1]) == 256 * FromBigEndian(s[..1][..0]) + s[0];
    assert s[..2][..1] == s[..1] && s[..3][..2] == s[..2];
    assert FromBigEndian(s[..2]) == 256 * FromBigEndian(s[..1]) + s[1];
    assert FromBigEndian(s[..3]) == 256 * FromBigEndian(s[..2]) + s[2];
  }

  function Word128(s: seq<byte>): (v: u128)
    requires |s| == 16
  {
    FromBigEndian(s)
  }

  function SizesIn(buf: seq<byte>, k: nat): (sizes: seq<u16>)
    requires |buf| >= NoBytes(k)
    ensures |sizes| == k
  {
    seq(k, i requires 0 <= i < k => Word16(buf[13 + 2 * i..15 + 2 * i]))
  }

  /** The reader takes every field from its fixed offset and ignores what follows the header. */
  function Decoded(buf: seq<byte>, k: nat): (h: Info)
    requires |buf| >= NoBytes(k)
    ensures |h.pktSizes| == k
  {
    Info(
      Word32(buf[0..4]),
      Word32(buf[4..8]),
      buf[8] != 0,
      Word32(buf[9..13]),
      SizesIn(buf, k),
      Word128(buf[13 + 2 * k..29 + 2 * k]))
  }

  /** Where each field of an encoded header lies, whatever follows it. */
  lemma {:induction false} EncodedFields(h: Info, rest: seq<byte>)
    ensures
      var k := |h.pktSizes|;
      var buf := Encoded(h) + rest;
      && buf[0..4] == BigEndian(h.blockId, 4)
      && buf[4..8] == BigEndian(h.minFragmentSize, 4)
      && buf[8] == (if h.recoveryPkt then 1 else 0)
      && buf[9..13] == BigEndian(h.fragmentIndex, 4)
      && buf[13..13 + 2 * k] == SizesBytes(h.pktSizes)
      && buf[13 + 2 * k..29 + 2 * k] == BigEndian(h.sendTimestamp, 16)
      && buf[NoBytes(k)..] == rest
  {
  }

  lemma {:induction false} Word32ReadBack(v: u32)
    ensures Word32(BigEndian(v, 4)) == v
  {
    Widths();
    FromBigEndianOfBigEndian(v, 4);
    Word32IsBigEndian(BigEndian(v, 4));
  }

  lemma {:induction false} Word128ReadBack(v: u128)
    ensures Word128(BigEndian(v, 16)) == v
  {
    FromBigEndianOfBigEndian(v, 16);
  }

  lemma {:induction false} SizesReadBack(sizes: seq<u16>, buf: seq<byte>)
    requires |buf| >= NoBytes(|sizes|)
    requires buf[13..13 + 2 * |sizes|] == SizesBytes(sizes)
    ensures SizesIn(buf, |sizes|) == sizes
  {
    forall i | 0 <= i < |sizes|
      ensures SizesIn(buf, |sizes|)[i] == sizes[i]
    {
      assert buf[13 + 2 * i] == SizesBytes(sizes)[2 * i];
      assert buf[14 + 2 * i] == SizesBytes(sizes)[2 * i + 1];
    }
  }

  /** Reading back what was written gives the header that was written, and the payload starts right after it. */
  lemma {:induction false} DecodedOfEncoded(h: Info, rest: seq<byte>)
    ensures Decoded(Encoded(h) + rest, |h.pktSizes|) == h
    ensures (Encoded(h) + rest)[NoBytes(|h.pktSizes|)..] == rest
  {
    EncodedFields(h, rest);
    SizesReadBack(h.pktSizes, Encoded(h) + rest);
    Word32ReadBack(h.blockId);
    Word32ReadBack(h.minFragmentSize);
    Word32ReadBack(h.fragmentIndex);
    Word128ReadBack(h.sendTimestamp);
  }

  lemma {:induction false} SizesBytesOfSizesIn(buf: seq<byte>, k: nat)
    requires |buf| >= NoBytes(k)
    ensures SizesBytes(SizesIn(buf, k)) == buf[13..13 + 2 * k]
  {
    forall j | 0 <= j < 2 * k
      ensures SizesBytes(SizesIn(buf, k))[j] == buf[13 + j]
    {
      assert j == 2 * (j / 2) + j % 2;
    }
  }

  /** The fields of a well-formed header, taken from their offsets, make up the header's bytes. */
  lemma {:induction false} FieldsTile(buf: seq<byte>, k: nat)
    requires |buf| >= NoBytes(k)
    ensures buf[0..4] + buf[4..8] + [buf[8]] + buf[9..13] + buf[13..13 + 2 * k] + buf[13 + 2 * k..29 + 2 * k]
         == buf[..NoBytes(k)]
  {
    Adjacent(buf, 0, 4, 8);
    assert [buf[8]] == buf[8..9];
    Adjacent(buf, 0, 8, 9);
    Adjacent(buf, 0, 9, 13);
    Adjacent(buf, 0, 13, 13 + 2 * k);
    Adjacent(buf, 0, 13 + 2 * k, 29 + 2 * k);
  }

  lemma {:induction false} Word32Bytes(s: seq<byte>)
    requires |s| == 4
    ensures BigEndian(Word32(s), 4) == s
  {
    Word32IsBigEndian(s);
    BigEndianOfFromBigEndian(s);
  }

  lemma {:induction false} EncodedOfDecodedParts(buf: seq<byte>, k: nat)
    requires |buf| >= NoBytes(k)
    ensures Encoded(Decoded(buf, k))
         == buf[0..4] + buf[4..8] + [if buf[8] != 0 then 1 else 0] + buf[9..13] + buf[13..13 + 2 * k]
            + buf[13 + 2 * k..29 + 2 * k]
  {
    Word32Bytes(buf[0..4]);
    Word32Bytes(buf[4..8]);
    Word32Bytes(buf[9..13]);
    BigEndianOfFromBigEndian(buf[13 + 2 * k..29 + 2 * k]);
    SizesBytesOfSizesIn(buf, k);
  }

  /** A header read from the network re-encodes to the bytes it came from, unless the flag byte is not a bool. */
  lemma {:induction false} EncodedOfDecoded(buf: seq<byte>, k: nat)
    requires |buf| >= NoBytes(k)
    ensures Encoded(Decoded(buf, k)) == buf[..NoBytes(k)] <==> buf[8] <= 1
  {
    EncodedOfDecodedParts(buf, k);
    FieldsTile(buf, k);
    if buf[8] > 1 {
      assert Encoded(Decoded(buf, k))[8] == 1;
      assert buf[..NoBytes(k)][8] == buf[8];
    }
  }

  /** One of the writer's byte loops: bytes go to the cursor, which moves past them. */
  method PutBytes(buf: array<byte>, cursor: nat, bytes: seq<byte>) returns (next: nat)
    requires cursor + |bytes| <= buf.Length
    modifies buf
    ensures next == cursor + |bytes|
    ensures buf[..next] == old(buf[..cursor]) + bytes
    ensures forall j :: next <= j < buf.Length ==> buf[j] == old(buf[j])
  {
    next := cursor;
    for n := 0 to |bytes|
      invariant next == cursor + n
      invariant buf[..next] == old(buf[..cursor]) + bytes[..n]
      invariant forall j :: next <= j < buf.Length ==> buf[j] == old(buf[j])
    {
      buf[next] := bytes[n];
      next := next + 1;
    }
  }

  lemma {:induction false} OneMoreSize(sizes: seq<u16>, n: nat)
    requires n < |sizes|
    ensures SizesBytes(sizes[..n + 1]) == SizesBytes(sizes[..n]) + BigEndian(sizes[n], 2)
  {
    assert BigEndian(sizes[n], 2) == [sizes[n] / 256, sizes[n] % 256] by {
      assert BigEndian(sizes[n] / 256, 1) == BigEndian(sizes[n] / 65536, 0) + [sizes[n] / 256 % 256];
    }
    forall j | 0 <= j < 2 * n + 2
      ensures SizesBytes(sizes[..n + 1])[j] == (SizesBytes(sizes[..n]) + BigEndian(sizes[n], 2))[j]
    {
      assert j == 2 * (j / 2) + j % 2;
    }
  }

  /** The writer's nested loop over the packet sizes. */
  method PutSizes(buf: array<byte>, cursor: nat, sizes: seq<u16>) returns (next: nat)
    requires cursor + 2 * |sizes| <= buf.Length
    modifies buf
    ensures next == cursor + 2 * |sizes|
    ensures buf[..next] == old(buf[..cursor]) + SizesBytes(sizes)
    ensures forall j :: next <= j < buf.Length ==> buf[j] == old(buf[j])
  {
    next := cursor;
    for n := 0 to |sizes|
      invariant next == cursor + 2 * n
      invariant buf[..next] == old(buf[..cursor]) + SizesBytes(sizes[..n])
      invariant forall j :: next <= j < buf.Length ==> buf[j] == old(buf[j])
    {
      next := PutBytes(buf, next, BigEndian(sizes[n], 2));
      OneMoreSize(sizes, n);
    }
    assert sizes[..|sizes|] == sizes;
  }

  /** Writes the header at the front of buf through a moving cursor; the rest of buf keeps its contents. */
  method ToBytes(h: Info, buf: array<byte>)
    requires NoBytes(|h.pktSizes|) <= buf.Length
    modifies buf
    ensures buf[..NoBytes(|h.pktSizes|)] == Encoded(h)
    ensures forall j :: NoBytes(|h.pktSizes|) <= j < buf.Length ==> buf[j] == old(buf[j])
  {
    var k := |h.pktSizes|;
    var i := PutBytes(buf, 0, BigEndian(h.blockId, 4));
    i := PutBytes(buf, i, BigEndian(h.minFragmentSize, 4));
    i := PutBytes(buf, i, [if h.recoveryPkt then 1 else 0]);
    i := PutBytes(buf, i, BigEndian(h.fragmentIndex, 4));
    ghost var front := BigEndian(h.blockId, 4) + BigEndian(h.minFragmentSize, 4)
      + [if h.recoveryPkt then 1 else 0] + BigEndian(h.fragmentIndex, 4);
    assert buf[..i] == front;
    i := PutSizes(buf, i, h.pktSizes);
    i := PutBytes(buf, i, BigEndian(h.sendTimestamp, 16));
  }

  /** Reads a header; only the packet sizes need a loop. */
  method FromBytes(buf: seq<byte>, k: nat) returns (h: Info)
    requires |buf| >= NoBytes(k)
    ensures h == Decoded(buf, k)
  {
    var pktSizes: seq<u16> := seq(k, _ => 0);
    for i := 0 to k
      invariant |pktSizes| == k
      invariant forall j :: 0 <= j < i ==> pktSizes[j] == SizesIn(buf, k)[j]
    {
      pktSizes := pktSizes[i := Word16(buf[13 + 2 * i..15 + 2 * i])];
    }
    assert pktSizes == SizesIn(buf, k);
    h := Info(
      Word32(buf[0..4]),
      Word32(buf[4..8]),
      buf[8] != 0,
      Word32(buf[9..13]),
      pktSizes,
      Word128(buf[13 + 2 * k..29 + 2 * k]));
  }
}
