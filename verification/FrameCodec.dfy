/** The two wire formats: RS485 frames and firmware update packets. */
module FrameCodec {
  import opened Crc
  import opened Resync
  import opened StreamDecoder

  predicate Word16(n: int) { 0 <= n < 0x1_0000 }

  predicate Word32(n: int) { 0 <= n < 0x1_0000_0000 }

  function Le16(n: int): seq<Byte>
    requires Word16(n)
  {
    [n % 256, n / 256]
  }

  function Le32(n: int): seq<Byte>
    requires Word32(n)
  {
    Le16(n % 0x1_0000) + Le16(n / 0x1_0000)
  }

  function FromLe16(s: seq<Byte>, at: nat): (n: int)
    requires at + 2 <= |s|
    ensures Word16(n)
  {
    (s[at] as int) + 256 * (s[at + 1] as int)
  }

  function FromLe32(s: seq<Byte>, at: nat): (n: int)
    requires at + 4 <= |s|
    ensures Word32(n)
  {
    FromLe16(s, at) + 0x1_0000 * FromLe16(s, at + 2)
  }

  // ----- RS485 frames -----

  datatype Frame = Frame(
    frameType: Byte, flags: Byte, destination: Byte, source: Byte, sequence: int, payload: seq<Byte>)

  const FRAME_MAGIC: seq<Byte> := [0x55, 0xAA]
  const FRAME_VERSION: Byte := 2
  const FRAME_HEADER_SIZE: nat := 13
  const FRAME_MAX_PAYLOAD: nat := 1024

  /** What the packing of the header can represent. */
  predicate PackableFrame(f: Frame) {
    Word32(f.sequence) && Word16(|f.payload|)
  }

  function FrameBody(f: Frame): seq<Byte>
    requires PackableFrame(f)
  {
    FRAME_MAGIC + [FRAME_VERSION, f.frameType, f.flags, f.destination, f.source]
    + Le16(|f.payload|) + Le32(f.sequence) + f.payload
  }

  function ParseFrame(body: seq<Byte>): Frame
    requires |body| >= FRAME_HEADER_SIZE
  {
    Frame(body[3], body[4], body[5], body[6], FromLe32(body, 9), body[FRAME_HEADER_SIZE..])
  }

  function FrameLayout(): (l: Layout<Byte>)
    ensures ValidLayout(l)
  {
    Layout(FRAME_MAGIC, FRAME_HEADER_SIZE,
           h => |h| == FRAME_HEADER_SIZE && h[..2] == FRAME_MAGIC && h[2] == FRAME_VERSION
                && FromLe16(h, 7) <= FRAME_MAX_PAYLOAD,
           h => if |h| == FRAME_HEADER_SIZE then FromLe16(h, 7) else 0,
           2, data => Checksum(CRC16, data))
  }

  function EncodeFrame(f: Frame): seq<Byte>
    requires PackableFrame(f)
  {
    var body := FrameBody(f);
    body + Checksum(CRC16, body)
  }

  /** Packing and unpacking the fields are inverse. */
  lemma ParseFrameBody(f: Frame)
    requires PackableFrame(f)
    ensures |FrameBody(f)| == FRAME_HEADER_SIZE + |f.payload|
    ensures ParseFrame(FrameBody(f)) == f
    ensures FromLe16(FrameBody(f), 7) == |f.payload|
  {
    var body := FrameBody(f);
    assert body[FRAME_HEADER_SIZE..] == f.payload;
    assert body[7] == |f.payload| % 256 && body[8] == |f.payload| / 256;
    var low, high := f.sequence % 0x1_0000, f.sequence / 0x1_0000;
    assert body[9] == low % 256 && body[10] == low / 256;
    assert body[11] == high % 256 && body[12] == high / 256;
    assert FromLe16(body, 9) == low && FromLe16(body, 11) == high;
  }

  /** The bytes of a frame: the layout "<HBBBBBHI" of the header, then the payload. */
  lemma FrameBytes(f: Frame)
    requires PackableFrame(f)
    ensures var b, n := FrameBody(f), |f.payload|;
            && |b| == 13 + n && b[0] == 0x55 && b[1] == 0xAA && b[2] == 2
            && b[3] == f.frameType && b[4] == f.flags && b[5] == f.destination && b[6] == f.source
            && (b[7] as int) + 0x100 * (b[8] as int) == n
            && (b[9] as int) + 0x100 * (b[10] as int) + 0x1_0000 * (b[11] as int) + 0x100_0000 * (b[12] as int)
               == f.sequence
            && b[13..] == f.payload
  {
    ParseFrameBody(f);
    Number32(FrameBody(f), 9, f.sequence);
  }

  lemma Number32(s: seq<Byte>, at: nat, n: int)
    requires at + 4 <= |s| && FromLe32(s, at) == n
    ensures (s[at] as int) + 0x100 * (s[at + 1] as int) + 0x1_0000 * (s[at + 2] as int)
            + 0x100_0000 * (s[at + 3] as int) == n
  {
  }

  /** Exactly the frames within the payload limit are well formed. */
  lemma FrameWellformedIff(f: Frame)
    requires PackableFrame(f)
    ensures Wellformed(FrameLayout(), FrameBody(f)) <==> |f.payload| <= FRAME_MAX_PAYLOAD
  {
    ParseFrameBody(f);
    var body, h := FrameBody(f), FrameBody(f)[..FRAME_HEADER_SIZE];
    assert h[..2] == FRAME_MAGIC && FRAME_MAGIC <= body;
    assert FromLe16(h, 7) == FromLe16(body, 7);
  }

  /** A header that announces too much costs one byte. */
  lemma LongHeaderSkipped(buf: seq<Byte>)
    requires |buf| >= FRAME_HEADER_SIZE && buf[..2] == FRAME_MAGIC
    requires FromLe16(buf[..FRAME_HEADER_SIZE], 7) > FRAME_MAX_PAYLOAD
    ensures Head(FrameLayout(), buf) == Take(1, [])
  {
  }

  lemma LongFrameSkipped(f: Frame, more: seq<Byte>)
    requires PackableFrame(f) && |f.payload| > FRAME_MAX_PAYLOAD
    ensures Head(FrameLayout(), EncodeFrame(f) + more) == Take(1, [])
  {
    var body, buf := FrameBody(f), EncodeFrame(f) + more;
    ParseFrameBody(f);
    assert buf[..2] == body[..2] == FRAME_MAGIC;
    assert buf[..FRAME_HEADER_SIZE] == body[..FRAME_HEADER_SIZE];
    assert FromLe16(body[..FRAME_HEADER_SIZE], 7) == FromLe16(body, 7);
    LongHeaderSkipped(buf);
  }

  /** An encoded frame is delivered, whatever follows, if and only if it keeps
      the payload limit; the encoder of the host tools does not check it. */
  lemma {:induction false} EncodedFrameDeliveredIff(f: Frame, more: seq<Byte>)
    requires PackableFrame(f)
    ensures Head(FrameLayout(), EncodeFrame(f) + more)
         == if |f.payload| <= FRAME_MAX_PAYLOAD then Take(|EncodeFrame(f)|, [FrameBody(f)]) else Take(1, [])
  {
    if |f.payload| <= FRAME_MAX_PAYLOAD {
      var l, body := FrameLayout(), FrameBody(f);
      FrameWellformedIff(f);
      HeadOfWellformed(l, body, l.checksum(body), more);
    } else {
      LongFrameSkipped(f, more);
    }
  }

  function FrameBodies(fs: seq<Frame>): (bodies: seq<seq<Byte>>)
    requires forall i :: 0 <= i < |fs| ==> PackableFrame(fs[i])
    ensures |bodies| == |fs|
  {
    seq(|fs|, i requires 0 <= i < |fs| => FrameBody(fs[i]))
  }

  function EncodedFrames(fs: seq<Frame>): (units: seq<seq<Byte>>)
    requires forall i :: 0 <= i < |fs| ==> PackableFrame(fs[i])
  {
    seq(|fs|, i requires 0 <= i < |fs| => EncodeFrame(fs[i]))
  }

  /** Frames encoded back to back, received in reads of any sizes, come out as
      the same frames in the same order, and nothing is left over. */
  lemma {:induction false} FramesRoundTrip(fs: seq<Frame>, chunks: seq<seq<Byte>>)
    requires forall i :: 0 <= i < |fs| ==> PackableFrame(fs[i]) && |fs[i].payload| <= FRAME_MAX_PAYLOAD
    requires Concat(chunks) == Concat(EncodedFrames(fs))
    ensures Consuming(DecoderOf(FrameLayout()))
    ensures ReceiveAll(DecoderOf(FrameLayout()), Drained([], []), chunks) == Drained(FrameBodies(fs), [])
    ensures forall i :: 0 <= i < |fs| ==>
        |FrameBodies(fs)[i]| >= FRAME_HEADER_SIZE && ParseFrame(FrameBodies(fs)[i]) == fs[i]
  {
    FrameBodiesParse(fs);
    FramesSealed(fs);
    SealedFramesReceived(FrameLayout(), FrameBodies(fs), chunks);
  }

  lemma FramesSealed(fs: seq<Frame>)
    requires forall i :: 0 <= i < |fs| ==> PackableFrame(fs[i])
    ensures SealAll(FrameLayout(), FrameBodies(fs)) == EncodedFrames(fs)
  {
  }

  lemma FrameBodiesParse(fs: seq<Frame>)
    requires forall i :: 0 <= i < |fs| ==> PackableFrame(fs[i]) && |fs[i].payload| <= FRAME_MAX_PAYLOAD
    ensures forall i :: 0 <= i < |fs| ==>
        && Wellformed(FrameLayout(), FrameBodies(fs)[i])
        && |FrameBodies(fs)[i]| >= FRAME_HEADER_SIZE && ParseFrame(FrameBodies(fs)[i]) == fs[i]
  {
    forall i | 0 <= i < |fs|
      ensures Wellformed(FrameLayout(), FrameBodies(fs)[i])
      ensures |FrameBodies(fs)[i]| >= FRAME_HEADER_SIZE && ParseFrame(FrameBodies(fs)[i]) == fs[i]
    {
      FrameWellformedIff(fs[i]);
      ParseFrameBody(fs[i]);
    }
  }

  // ----- firmware update packets -----

  datatype Packet = Packet(packetType: Byte, destination: Byte, sequence: int, payload: seq<Byte>)

  const UPDATE_MAGIC: seq<Byte> := [0x44, 0x54, 0x50, 0x55]
  const UPDATE_HEADER_SIZE: nat := 12
  const UPDATE_MAX_PAYLOAD: nat := 1024 + 32

  /** The encoder of update packets refuses a payload over the limit. */
  predicate PackablePacket(p: Packet) {
    Word32(p.sequence) && |p.payload| <= UPDATE_MAX_PAYLOAD
  }

  function PacketBody(p: Packet): seq<Byte>
    requires PackablePacket(p)
  {
    UPDATE_MAGIC + [p.packetType, p.destination] + Le16(|p.payload|) + Le32(p.sequence) + p.payload
  }

  function ParsePacket(body: seq<Byte>): Packet
    requires |body| >= UPDATE_HEADER_SIZE
  {
    Packet(body[4], body[5], FromLe32(body, 8), body[UPDATE_HEADER_SIZE..])
  }

  function UpdateLayout(): (l: Layout<Byte>)
    ensures ValidLayout(l)
  {
    Layout(UPDATE_MAGIC, UPDATE_HEADER_SIZE,
           h => |h| == UPDATE_HEADER_SIZE && h[..4] == UPDATE_MAGIC && FromLe16(h, 6) <= UPDATE_MAX_PAYLOAD,
           h => if |h| == UPDATE_HEADER_SIZE then FromLe16(h, 6) else 0,
           4, data => Checksum(CRC32, data))
  }

  function EncodePacket(p: Packet): seq<Byte>
    requires PackablePacket(p)
  {
    var body := PacketBody(p);
    body + Checksum(CRC32, body)
  }

  lemma ParsePacketBody(p: Packet)
    requires PackablePacket(p)
    ensures |PacketBody(p)| == UPDATE_HEADER_SIZE + |p.payload|
    ensures ParsePacket(PacketBody(p)) == p
    ensures Wellformed(UpdateLayout(), PacketBody(p))
  {
    var body := PacketBody(p);
    assert body[UPDATE_HEADER_SIZE..] == p.payload;
    assert body[6] == |p.payload| % 256 && body[7] == |p.payload| / 256;
    var low, high := p.sequence % 0x1_0000, p.sequence / 0x1_0000;
    assert body[8] == low % 256 && body[9] == low / 256;
    assert body[10] == high % 256 && body[11] == high / 256;
    assert FromLe16(body, 8) == low && FromLe16(body, 10) == high;
    var h := body[..UPDATE_HEADER_SIZE];
    assert h[..4] == UPDATE_MAGIC && UPDATE_MAGIC <= body;
    assert FromLe16(h, 6) == |p.payload|;
  }

  /** The bytes of a packet: the layout "<IBBHI" of the header, then the payload. */
  lemma PacketBytes(p: Packet)
    requires PackablePacket(p)
    ensures var b, n := PacketBody(p), |p.payload|;
            && |b| == 12 + n && b[..4] == [0x44, 0x54, 0x50, 0x55]
            && b[4] == p.packetType && b[5] == p.destination && (b[6] as int) + 0x100 * (b[7] as int) == n
            && (b[8] as int) + 0x100 * (b[9] as int) + 0x1_0000 * (b[10] as int) + 0x100_0000 * (b[11] as int)
               == p.sequence
            && b[12..] == p.payload
  {
    ParsePacketBody(p);
    Number32(PacketBody(p), 8, p.sequence);
  }

  function PacketBodies(ps: seq<Packet>): (bodies: seq<seq<Byte>>)
    requires forall i :: 0 <= i < |ps| ==> PackablePacket(ps[i])
    ensures |bodies| == |ps|
  {
    seq(|ps|, i requires 0 <= i < |ps| => PacketBody(ps[i]))
  }

  function EncodedPackets(ps: seq<Packet>): (units: seq<seq<Byte>>)
    requires forall i :: 0 <= i < |ps| ==> PackablePacket(ps[i])
  {
    seq(|ps|, i requires 0 <= i < |ps| => EncodePacket(ps[i]))
  }

  /** Update packets sent back to back and received in any cut come out as sent. */
  lemma {:induction false} PacketsRoundTrip(ps: seq<Packet>, chunks: seq<seq<Byte>>)
    requires forall i :: 0 <= i < |ps| ==> PackablePacket(ps[i])
    requires Concat(chunks) == Concat(EncodedPackets(ps))
    ensures Consuming(DecoderOf(UpdateLayout()))
    ensures ReceiveAll(DecoderOf(UpdateLayout()), Drained([], []), chunks) == Drained(PacketBodies(ps), [])
    ensures forall i :: 0 <= i < |ps| ==>
        |PacketBodies(ps)[i]| >= UPDATE_HEADER_SIZE && ParsePacket(PacketBodies(ps)[i]) == ps[i]
  {
    PacketBodiesParse(ps);
    assert SealAll(UpdateLayout(), PacketBodies(ps)) == EncodedPackets(ps);
    SealedFramesReceived(UpdateLayout(), PacketBodies(ps), chunks);
  }

  lemma PacketBodiesParse(ps: seq<Packet>)
    requires forall i :: 0 <= i < |ps| ==> PackablePacket(ps[i])
    ensures forall i :: 0 <= i < |ps| ==>
        && Wellformed(UpdateLayout(), PacketBodies(ps)[i])
        && |PacketBodies(ps)[i]| >= UPDATE_HEADER_SIZE && ParsePacket(PacketBodies(ps)[i]) == ps[i]
  {
    forall i | 0 <= i < |ps|
      ensures Wellformed(UpdateLayout(), PacketBodies(ps)[i])
      ensures |PacketBodies(ps)[i]| >= UPDATE_HEADER_SIZE && ParsePacket(PacketBodies(ps)[i]) == ps[i]
    {
      ParsePacketBody(ps[i]);
    }
  }

  /** Frames behind noise that holds no 0x55 arrive as if it had not been there. */
  lemma FramesBehindNoise(noise: seq<Byte>, fs: seq<Frame>, chunks: seq<seq<Byte>>)
    requires fs != [] && 0x55 !in noise
    requires forall i :: 0 <= i < |fs| ==> PackableFrame(fs[i]) && |fs[i].payload| <= FRAME_MAX_PAYLOAD
    requires Concat(chunks) == noise + Concat(EncodedFrames(fs))
    ensures Consuming(DecoderOf(FrameLayout()))
    ensures ReceiveAll(DecoderOf(FrameLayout()), Drained([], []), chunks) == Drained(FrameBodies(fs), [])
  {
    FrameBodiesParse(fs);
    FramesSealed(fs);
    FramesBehindGarbage(FrameLayout(), noise, FrameBodies(fs), chunks);
  }

  // ----- damage -----

  lemma SameHeader(prefix: seq<Byte>, w: seq<Byte>, w': seq<Byte>, suffix: seq<Byte>, n: nat)
    requires n <= |prefix|
    ensures (prefix + w + suffix)[..n] == (prefix + w' + suffix)[..n]
  {
    assert (prefix + w + suffix)[..n] == prefix[..n] == (prefix + w' + suffix)[..n];
  }

  lemma DamageRejected(
    l: Layout<Byte>, k: Kind, prefix: seq<Byte>, w: seq<Byte>, w': seq<Byte>, suffix: seq<Byte>, more: seq<Byte>)
    requires ValidLayout(l) && Wellformed(l, prefix + w + suffix) && l.headerSize <= |prefix|
    requires Proper(k) && |w| == |w'| && 8 * |w| <= k.width && w != w'
    requires forall data :: l.checksum(data) == Checksum(k, data) && |Checksum(k, data)| == l.trailerSize
    ensures Head(l, prefix + w' + suffix + Checksum(k, prefix + w + suffix) + more)
         == Take(|prefix + w + suffix| + l.trailerSize, [])
  {
    ChecksumDetectsWindow(k, prefix, w, w', suffix);
    SameHeader(prefix, w, w', suffix, l.headerSize);
    DamagedBodyRejected(l, prefix + w + suffix, prefix + w' + suffix, more);
  }

  /** A frame altered on the wire behind its header, within two adjacent bytes,
      is consumed whole and not delivered. */
  lemma DamagedFrameRejected(prefix: seq<Byte>, w: seq<Byte>, w': seq<Byte>, suffix: seq<Byte>, more: seq<Byte>)
    requires Wellformed(FrameLayout(), prefix + w + suffix)
    requires |prefix| >= FRAME_HEADER_SIZE
    requires |w| == |w'| <= 2 && w != w'
    ensures Head(FrameLayout(), prefix + w' + suffix + Checksum(CRC16, prefix + w + suffix) + more)
         == Take(|prefix + w + suffix| + 2, [])
  {
    DamageRejected(FrameLayout(), CRC16, prefix, w, w', suffix, more);
  }

  /** The same for update packets, whose checksum covers four adjacent bytes. */
  lemma DamagedPacketRejected(prefix: seq<Byte>, w: seq<Byte>, w': seq<Byte>, suffix: seq<Byte>, more: seq<Byte>)
    requires Wellformed(UpdateLayout(), prefix + w + suffix)
    requires |prefix| >= UPDATE_HEADER_SIZE
    requires |w| == |w'| <= 4 && w != w'
    ensures Head(UpdateLayout(), prefix + w' + suffix + Checksum(CRC32, prefix + w + suffix) + more)
         == Take(|prefix + w + suffix| + 4, [])
  {
    DamageRejected(UpdateLayout(), CRC32, prefix, w, w', suffix, more);
  }
}
