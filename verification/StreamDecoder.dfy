/** The resynchronising decoder shared by the RS485 frames and the firmware
    update packets. The two formats differ only in their layout: magic bytes,
    header size, which headers are acceptable, the payload length a header
    announces, and the checksum. */
module StreamDecoder {
  import opened Resync

  datatype Layout<!T> = Layout(
    magic: seq<T>,
    headerSize: nat,
    accepts: seq<T> -> bool,
    payloadLength: seq<T> -> nat,
    trailerSize: nat,
    checksum: seq<T> -> seq<T>)

  predicate ValidLayout<T>(l: Layout<T>) {
    0 < |l.magic| <= l.headerSize
  }

  ghost predicate SizedChecksum<T(!new)>(l: Layout<T>) {
    forall data :: |l.checksum(data)| == l.trailerSize
  }

  predicate Misaligned<T(==)>(l: Layout<T>, buf: seq<T>) {
    |buf| >= |l.magic| && buf[..|l.magic|] != l.magic
  }

  /** What the head of the buffer calls for: drop an element, wait, or take a
      whole frame, delivered (header and payload) if its checksum is right. */
  function Head<T(==)>(l: Layout<T>, buf: seq<T>): (a: Action<T, seq<T>>)
    requires ValidLayout(l)
    ensures a.Take? ==> 0 < a.size <= |buf| && |a.frames| <= 1
  {
    if Misaligned(l, buf) then Take(1, [])
    else if |buf| < l.headerSize then Wait
    else if !l.accepts(buf[..l.headerSize]) then Take(1, [])
    else
      var n := l.headerSize + l.payloadLength(buf[..l.headerSize]);
      if |buf| < n + l.trailerSize then Wait
      else Take(n + l.trailerSize, if buf[n..n + l.trailerSize] == l.checksum(buf[..n]) then [buf[..n]] else [])
  }

  predicate Looked<T>(buf: seq<T>) { true }

  /** `head` is this layout's decoder. It is looked into buffer by buffer, so
      that a proof does so exactly where it says so. */
  ghost predicate Implements<T(!new)>(head: Decoder<T, seq<T>>, l: Layout<T>)
    requires ValidLayout(l)
  {
    && Consuming(head)
    && forall buf {:trigger Looked(buf)} :: Looked(buf) ==> head(buf) == Head(l, buf)
  }

  lemma Look<T(!new)>(head: Decoder<T, seq<T>>, l: Layout<T>, buf: seq<T>)
    requires ValidLayout(l) && Implements(head, l)
    ensures head(buf) == Head(l, buf)
  {
    assert Looked(buf);
  }

  /** The layout's decoder as a value. */
  function DecoderOf<T(==)>(l: Layout<T>): Decoder<T, seq<T>>
    requires ValidLayout(l)
  {
    buf => Head(l, buf)
  }

  lemma DecoderImplements<T(!new)>(l: Layout<T>)
    requires ValidLayout(l)
    ensures Implements(DecoderOf(l), l)
  {}

  lemma HeadStable<T>(l: Layout<T>, buf: seq<T>, more: seq<T>)
    requires ValidLayout(l)
    requires Head(l, buf).Take?
    ensures Head(l, buf + more) == Head(l, buf)
  {
    assert (buf + more)[..|l.magic|] == buf[..|l.magic|];
    if !Misaligned(l, buf) {
      assert (buf + more)[..l.headerSize] == buf[..l.headerSize];
      var n := l.headerSize + l.payloadLength(buf[..l.headerSize]);
      if l.accepts(buf[..l.headerSize]) {
        assert (buf + more)[..n] == buf[..n];
        assert (buf + more)[n..n + l.trailerSize] == buf[n..n + l.trailerSize];
      }
    }
  }

  /** Every layout's decoder has what makes the cutting of a stream irrelevant. */
  lemma ImplementationIsSteady<T(!new)>(head: Decoder<T, seq<T>>, l: Layout<T>)
    requires ValidLayout(l) && Implements(head, l)
    ensures Steady(head) && head([]).Wait?
  {
    Look(head, l, []);
    forall buf, more | head(buf).Take?
      ensures head(buf + more) == head(buf)
    {
      Look(head, l, buf);
      Look(head, l, buf + more);
      HeadStable(l, buf, more);
    }
  }

  // ----- the imperative decoder -----

  class Receiver<T(==, !new)> {
    const layout: Layout<T>
    var rxBuffer: seq<T>

    constructor (l: Layout<T>)
      requires ValidLayout(l)
      ensures layout == l && rxBuffer == []
    {
      layout := l;
      rxBuffer := [];
    }

    /** Drop elements until the buffer starts with the magic or is too short. */
    method Resynchronise(ghost head: Decoder<T, seq<T>>, ghost done: seq<seq<T>>)
      requires ValidLayout(layout) && Implements(head, layout)
      modifies this
      ensures !Misaligned(layout, rxBuffer)
      ensures Drain(head, done, old(rxBuffer)) == Drain(head, done, rxBuffer)
      ensures |rxBuffer| <= |old(rxBuffer)|
      ensures |rxBuffer| == |old(rxBuffer)| ==> rxBuffer == old(rxBuffer)
    {
      while Misaligned(layout, rxBuffer)
        invariant |rxBuffer| <= |old(rxBuffer)|
        invariant |rxBuffer| == |old(rxBuffer)| ==> rxBuffer == old(rxBuffer)
        invariant Drain(head, done, old(rxBuffer)) == Drain(head, done, rxBuffer)
        decreases |rxBuffer|
      {
        Look(head, layout, rxBuffer);
        assert done + head(rxBuffer).frames == done;
        rxBuffer := rxBuffer[1..];
      }
    }

    /** One decoding attempt: draining before it comes to the same as draining
        after it, with the frame returned counted as delivered. */
    method TryDecode(ghost head: Decoder<T, seq<T>>, ghost done: seq<seq<T>>) returns (frame: seq<seq<T>>)
      requires ValidLayout(layout) && Implements(head, layout)
      modifies this
      ensures |frame| <= 1
      ensures Drain(head, done, old(rxBuffer)) == Drain(head, done + frame, rxBuffer)
      ensures |rxBuffer| <= |old(rxBuffer)|
      ensures |rxBuffer| == |old(rxBuffer)| ==> rxBuffer == old(rxBuffer) && frame == [] && head(rxBuffer).Wait?
    {
      frame := [];
      assert done + frame == done;
      Resynchronise(head, done);
      Look(head, layout, rxBuffer);
      if |rxBuffer| < layout.headerSize {
        return;
      }
      var header := rxBuffer[..layout.headerSize];
      if !layout.accepts(header) {
        DrainStep(head, done, rxBuffer, 1, frame);
        rxBuffer := rxBuffer[1..];
        return;
      }
      var n := layout.headerSize + layout.payloadLength(header);
      var total := n + layout.trailerSize;
      if |rxBuffer| < total {
        return;
      }
      var body, received := rxBuffer[..n], rxBuffer[n..total];
      if received == layout.checksum(body) {
        frame := [body];
      }
      DrainStep(head, done, rxBuffer, total, frame);
      rxBuffer := rxBuffer[total..];
    }

    /** One read: the chunk is appended and the buffer drained. */
    method Receive(chunk: seq<T>, ghost head: Decoder<T, seq<T>>) returns (frames: seq<seq<T>>)
      requires ValidLayout(layout) && Implements(head, layout)
      modifies this
      ensures Drained(frames, rxBuffer) == Drain(head, [], old(rxBuffer) + chunk)
    {
      rxBuffer := rxBuffer + chunk;
      ghost var whole := Drain(head, [], rxBuffer);
      frames := [];
      while true
        invariant whole == Drain(head, frames, rxBuffer)
        decreases |rxBuffer|
      {
        var before := |rxBuffer|;
        var frame := TryDecode(head, frames);
        if |frame| == 0 && |rxBuffer| == before {
          return;
        }
        frames := frames + frame;
      }
    }

    /** A whole life of reads delivers what draining the stream would. */
    method ReceiveEach(chunks: seq<seq<T>>, ghost head: Decoder<T, seq<T>>) returns (frames: seq<seq<T>>)
      requires ValidLayout(layout) && Implements(head, layout)
      modifies this
      ensures Drained(frames, rxBuffer) == ReceiveAll(head, Drained([], old(rxBuffer)), chunks)
    {
      frames := [];
      for i := 0 to |chunks|
        invariant Drained(frames, rxBuffer) == ReceiveAll(head, Drained([], old(rxBuffer)), chunks[..i])
      {
        assert chunks[..i + 1] == chunks[..i] + [chunks[i]];
        ReceiveSnoc(head, Drained([], old(rxBuffer)), chunks[..i], chunks[i]);
        var own := Receive(chunks[i], head);
        frames := frames + own;
      }
      assert chunks[..|chunks|] == chunks;
    }
  }

  // ----- sealed frames come back, damaged ones do not -----

  /** A body the decoder accepts once its checksum is appended. */
  predicate Wellformed<T(==)>(l: Layout<T>, body: seq<T>)
    requires ValidLayout(l)
  {
    && |body| >= l.headerSize
    && l.magic <= body
    && l.accepts(body[..l.headerSize])
    && |body| == l.headerSize + l.payloadLength(body[..l.headerSize])
  }

  function Seal<T>(l: Layout<T>, body: seq<T>): seq<T> {
    body + l.checksum(body)
  }

  function SealAll<T>(l: Layout<T>, bodies: seq<seq<T>>): seq<seq<T>> {
    seq(|bodies|, i requires 0 <= i < |bodies| => Seal(l, bodies[i]))
  }

  /** A body followed by as many elements as a checksum has: it is delivered if
      they are its checksum, and taken without delivery if they are not. */
  lemma HeadOfWellformed<T>(l: Layout<T>, body: seq<T>, trailer: seq<T>, more: seq<T>)
    requires ValidLayout(l) && Wellformed(l, body)
    requires |trailer| == l.trailerSize
    ensures Head(l, body + trailer + more)
         == Take(|body| + l.trailerSize, if trailer == l.checksum(body) then [body] else [])
  {
    var buf := body + trailer + more;
    assert buf[..|l.magic|] == body[..|l.magic|];
    assert buf[..l.headerSize] == body[..l.headerSize];
    assert buf[..|body|] == body;
    assert buf[|body|..|body| + l.trailerSize] == trailer;
  }

  lemma SealedIsRecognised<T(!new)>(l: Layout<T>, head: Decoder<T, seq<T>>, body: seq<T>)
    requires ValidLayout(l) && SizedChecksum(l) && Implements(head, l) && Wellformed(l, body)
    ensures Recognises(head, Seal(l, body), body)
  {
    forall more
      ensures head(Seal(l, body) + more) == Take(|Seal(l, body)|, [body])
    {
      HeadOfWellformed(l, body, l.checksum(body), more);
      Look(head, l, Seal(l, body) + more);
    }
  }

  /** Sealed frames sent back to back drain to exactly themselves, whatever
      follows them. */
  lemma SealedFramesDrain<T(!new)>(l: Layout<T>, head: Decoder<T, seq<T>>, bodies: seq<seq<T>>, more: seq<T>)
    requires ValidLayout(l) && SizedChecksum(l) && Implements(head, l)
    requires forall i :: 0 <= i < |bodies| ==> Wellformed(l, bodies[i])
    ensures Drain(head, [], Concat(SealAll(l, bodies)) + more) == Drain(head, bodies, more)
  {
    var units := SealAll(l, bodies);
    forall i | 0 <= i < |units|
      ensures Recognises(head, units[i], bodies[i])
    {
      SealedIsRecognised(l, head, bodies[i]);
    }
    RecognisedDrain(head, [], units, bodies, more);
    assert [] + bodies == bodies;
  }

  /** Sealed frames, received in reads of any sizes, come out as sent, in order,
      and nothing is left over. */
  lemma SealedFramesReceived<T(!new)>(l: Layout<T>, bodies: seq<seq<T>>, chunks: seq<seq<T>>)
    requires ValidLayout(l) && SizedChecksum(l)
    requires forall i :: 0 <= i < |bodies| ==> Wellformed(l, bodies[i])
    requires Concat(chunks) == Concat(SealAll(l, bodies))
    ensures Consuming(DecoderOf(l))
    ensures ReceiveAll(DecoderOf(l), Drained([], []), chunks) == Drained(bodies, [])
  {
    var head := DecoderOf(l);
    DecoderImplements(l);
    ImplementationIsSteady(head, l);
    ChunkingIrrelevant(head, Drained([], []), chunks);
    SealedFramesDrain(l, head, bodies, []);
    assert [] + Concat(chunks) == Concat(SealAll(l, bodies)) + [];
  }

  /** The magic stands at position p. */
  predicate MagicAt<T(==)>(l: Layout<T>, buf: seq<T>, p: nat) {
    p + |l.magic| <= |buf| && buf[p..p + |l.magic|] == l.magic
  }

  /** The magic stands at position p, and the header behind it is incomplete or acceptable. */
  predicate HeaderAt<T(==)>(l: Layout<T>, buf: seq<T>, p: nat) {
    MagicAt(l, buf, p) && (p + l.headerSize > |buf| || l.accepts(buf[p..p + l.headerSize]))
  }

  lemma HeaderMoves<T>(l: Layout<T>, buf: seq<T>, q: nat)
    requires ValidLayout(l) && buf != []
    ensures HeaderAt(l, buf[1..], q) <==> HeaderAt(l, buf, q + 1)
  {
    assert q + 1 + |l.magic| <= |buf| ==> buf[1..][q..q + |l.magic|] == buf[q + 1..q + 1 + |l.magic|];
    assert q + 1 + l.headerSize <= |buf| ==> buf[1..][q..q + l.headerSize] == buf[q + 1..q + 1 + l.headerSize];
  }

  /** Where no header can stand, one element is dropped. */
  lemma DropsOne<T(!new)>(l: Layout<T>, head: Decoder<T, seq<T>>, done: seq<seq<T>>, buf: seq<T>)
    requires ValidLayout(l) && Implements(head, l) && |buf| >= |l.magic| && !HeaderAt(l, buf, 0)
    ensures Drain(head, done, buf) == Drain(head, done, buf[1..])
  {
    Look(head, l, buf);
    assert buf[0..|l.magic|] == buf[..|l.magic|];
    assert |buf| >= l.headerSize ==> buf[0..l.headerSize] == buf[..l.headerSize];
    DrainStep(head, done, buf, 1, []);
    assert done + [] == done;
  }

  /** Whatever stands before the first magic in a buffer is skipped, and nothing
      behind it is touched; a magic with a refused header counts for nothing. */
  lemma {:induction false} SkipsToMagic<T(!new)>(
    l: Layout<T>, head: Decoder<T, seq<T>>, done: seq<seq<T>>, buf: seq<T>, p: nat)
    requires ValidLayout(l) && Implements(head, l)
    requires p + |l.magic| <= |buf| && forall q: nat :: q < p ==> !HeaderAt(l, buf, q)
    ensures Drain(head, done, buf) == Drain(head, done, buf[p..])
    decreases p
  {
    if p == 0 {
      assert buf[0..] == buf;
    } else {
      DropsOne(l, head, done, buf);
      forall q: nat | q < p - 1
        ensures !HeaderAt(l, buf[1..], q)
      {
        HeaderMoves(l, buf, q);
      }
      SkipsToMagic(l, head, done, buf[1..], p - 1);
      assert buf[1..][p - 1..] == buf[p..];
    }
  }

  /** Where no magic is, all is skipped but the last elements, too few for one. */
  lemma {:induction false} SkipsAll<T(!new)>(l: Layout<T>, head: Decoder<T, seq<T>>, done: seq<seq<T>>, buf: seq<T>)
    requires ValidLayout(l) && Implements(head, l)
    requires forall q: nat :: !HeaderAt(l, buf, q)
    ensures var kept := if |buf| < |l.magic| then |buf| else |l.magic| - 1;
            Drain(head, done, buf) == Drained(done, buf[|buf| - kept..])
    decreases |buf|
  {
    if |buf| < |l.magic| {
      Look(head, l, buf);
      assert buf[0..] == buf;
    } else {
      DropsOne(l, head, done, buf);
      forall q: nat
        ensures !HeaderAt(l, buf[1..], q)
      {
        HeaderMoves(l, buf, q);
      }
      SkipsAll(l, head, done, buf[1..]);
    }
  }

  lemma FirstMagic<T>(l: Layout<T>, garbage: seq<T>, bodies: seq<seq<T>>, more: seq<T>)
    requires ValidLayout(l) && l.magic[0] !in garbage
    requires bodies != [] && Wellformed(l, bodies[0])
    ensures var buf := garbage + Concat(SealAll(l, bodies)) + more;
            MagicAt(l, buf, |garbage|) && forall q: nat :: q < |garbage| ==> !MagicAt(l, buf, q)
  {
    var buf := garbage + Concat(SealAll(l, bodies)) + more;
    var unit := Seal(l, bodies[0]);
    assert Concat(SealAll(l, bodies)) == unit + Concat(SealAll(l, bodies)[1..]);
    assert buf[|garbage|..|garbage| + |l.magic|] == unit[..|l.magic|] == bodies[0][..|l.magic|];
    forall q: nat | q < |garbage|
      ensures !MagicAt(l, buf, q)
    {
      assert buf[q] == garbage[q] && garbage[q] != l.magic[0];
      assert q + |l.magic| <= |buf| ==> buf[q..q + |l.magic|][0] == buf[q];
    }
  }

  lemma {:induction false} GarbageSkipped<T(!new)>(
    l: Layout<T>, head: Decoder<T, seq<T>>, garbage: seq<T>, bodies: seq<seq<T>>, more: seq<T>)
    requires ValidLayout(l) && Implements(head, l) && l.magic[0] !in garbage
    requires bodies != [] && Wellformed(l, bodies[0])
    ensures var frames := Concat(SealAll(l, bodies)) + more;
            Drain(head, [], garbage + frames) == Drain(head, [], frames)
  {
    var frames := Concat(SealAll(l, bodies)) + more;
    var buf := garbage + Concat(SealAll(l, bodies)) + more;
    FirstMagic(l, garbage, bodies, more);
    assert buf == garbage + frames && buf[|garbage|..] == frames;
    SkipsToMagic(l, head, [], buf, |garbage|);
  }

  /** Behind garbage that holds no first element of the magic, all frames arrive, in
      any cut, as if the garbage had not been there. */
  lemma {:induction false} FramesBehindGarbage<T(!new)>(
    l: Layout<T>, garbage: seq<T>, bodies: seq<seq<T>>, chunks: seq<seq<T>>)
    requires ValidLayout(l) && SizedChecksum(l) && l.magic[0] !in garbage
    requires bodies != [] && forall i :: 0 <= i < |bodies| ==> Wellformed(l, bodies[i])
    requires Concat(chunks) == garbage + Concat(SealAll(l, bodies))
    ensures Consuming(DecoderOf(l))
    ensures ReceiveAll(DecoderOf(l), Drained([], []), chunks) == Drained(bodies, [])
  {
    var head, frames := DecoderOf(l), Concat(SealAll(l, bodies));
    DecoderImplements(l);
    ImplementationIsSteady(head, l);
    ChunkingIrrelevant(head, Drained([], []), chunks);
    assert [] + Concat(chunks) == garbage + (frames + []);
    GarbageSkipped(l, head, garbage, bodies, []);
    SealedFramesDrain(l, head, bodies, []);
  }

  /** A body altered behind its header, followed by the checksum of the original:
      taken whole, and delivered only if the checksums collide. */
  lemma DamagedBodyRejected<T>(l: Layout<T>, body: seq<T>, hurt: seq<T>, more: seq<T>)
    requires ValidLayout(l) && Wellformed(l, body)
    requires |hurt| == |body| && hurt[..l.headerSize] == body[..l.headerSize]
    requires |l.checksum(body)| == l.trailerSize && l.checksum(hurt) != l.checksum(body)
    ensures Head(l, hurt + l.checksum(body) + more) == Take(|body| + l.trailerSize, [])
  {
    var m := |l.magic|;
    assert hurt[..m] == hurt[..l.headerSize][..m] == body[..l.headerSize][..m] == body[..m];
    HeadOfWellformed(l, hurt, l.checksum(body), more);
  }

  /** A frame that has not fully arrived is left alone. */
  lemma PartialFrameWaits<T>(l: Layout<T>, body: seq<T>, n: nat)
    requires ValidLayout(l) && Wellformed(l, body)
    requires n <= |Seal(l, body)| && n < |body| + l.trailerSize
    ensures Head(l, Seal(l, body)[..n]).Wait?
  {
    var part := Seal(l, body)[..n];
    if n >= |l.magic| {
      assert part[..|l.magic|] == body[..|l.magic|];
    }
    if n >= l.headerSize {
      assert part[..l.headerSize] == body[..l.headerSize];
    }
  }

  /** The frame stands sealed at position p of the stream. */
  predicate SealedAt<T(==)>(l: Layout<T>, stream: seq<T>, body: seq<T>, p: int)
    requires ValidLayout(l)
  {
    Wellformed(l, body) && 0 <= p <= |stream| && Seal(l, body) <= stream[p..]
  }

  lemma DeliveredIsSealed<T>(l: Layout<T>, buf: seq<T>)
    requires ValidLayout(l) && Head(l, buf).Take?
    ensures forall body :: body in Head(l, buf).frames ==> SealedAt(l, buf, body, 0)
  {
    var a := Head(l, buf);
    if a.frames != [] {
      var body := a.frames[0];
      assert body[..l.headerSize] == buf[..l.headerSize] && body[..|l.magic|] == buf[..|l.magic|];
      assert buf[..a.size] == body + buf[|body|..a.size] == Seal(l, body);
      assert buf[0..] == buf;
    }
  }

  /** Every frame drained from a stream, garbage or not, stands sealed in it. */
  lemma {:induction false} DrainedIsSealed<T(!new)>(
    l: Layout<T>, head: Decoder<T, seq<T>>, done: seq<seq<T>>, buf: seq<T>, i: nat)
    requires ValidLayout(l) && Implements(head, l)
    ensures done <= Drain(head, done, buf).frames
    ensures |done| <= i < |Drain(head, done, buf).frames| ==>
              exists p :: SealedAt(l, buf, Drain(head, done, buf).frames[i], p)
    decreases |buf|
  {
    Look(head, l, buf);
    var a := head(buf);
    if a.Take? {
      var done' := done + a.frames;
      var later := buf[a.size..];
      DrainedIsSealed(l, head, done', later, i);
      DeliveredIsSealed(l, buf);
      var frames := Drain(head, done', later).frames;
      if |done| <= i < |done'| {
        assert frames[i] == done'[i] == a.frames[i - |done|];
        assert SealedAt(l, buf, frames[i], 0);
      } else if |done'| <= i < |frames| {
        var p :| SealedAt(l, later, frames[i], p);
        assert later[p..] == buf[a.size + p..];
        assert SealedAt(l, buf, frames[i], a.size + p);
      }
    }
  }
}
