/** Sending a firmware image in page-padded chunks. */
module Upload {
  const PAGE: nat := 256
  const FILL: int := 0xFF
  const MAX_CHUNK: nat := 1024
  const MAX_PAYLOAD: nat := 1024 + 32

  datatype Chunk = Chunk(flashOffset: nat, validLength: nat, data: seq<int>)

  /** Offset and two lengths come before the data. */
  function PayloadSize(c: Chunk): nat { 8 + |c.data| }

  function RoundUp(value: nat): (r: nat)
    ensures r % PAGE == 0 && value <= r < value + PAGE
  {
    (value + PAGE - 1) / PAGE * PAGE
  }

  function Padding(n: nat): (s: seq<int>)
    ensures |s| == n && forall i :: 0 <= i < n ==> s[i] == FILL
  {
    seq(n, i => FILL)
  }

  function Padded(piece: seq<int>): (s: seq<int>)
    ensures piece <= s && |s| == RoundUp(|piece|)
    ensures forall i :: |piece| <= i < |s| ==> s[i] == FILL
  {
    piece + Padding(RoundUp(|piece|) - |piece|)
  }

  // ----- the chunks of an image -----

  function Piece(rest: seq<int>, size: nat): (p: seq<int>)
    ensures p <= rest && |p| <= size && (size > 0 && rest != [] ==> p != [])
  {
    if size <= |rest| then rest[..size] else rest
  }

  /** The chunk for the bytes still to be sent. */
  function NextChunk(rest: seq<int>, size: nat, at: nat): (c: Chunk)
    requires size > 0 && rest != []
    ensures 0 < c.validLength <= |rest| && c.validLength <= size && c.flashOffset == at
            && |c.data| == RoundUp(c.validLength)
    ensures c.data[..c.validLength] == rest[..c.validLength]
    ensures forall i :: c.validLength <= i < |c.data| ==> c.data[i] == FILL
    ensures c.validLength == size || c.validLength == |rest|
  {
    var piece := Piece(rest, size);
    Chunk(at, |piece|, Padded(piece))
  }

  function Plan(rest: seq<int>, size: nat, at: nat): seq<Chunk>
    requires size > 0
  {
    if rest == [] then []
    else
      var c := NextChunk(rest, size, at);
      [c] + Plan(rest[c.validLength..], size, at + |c.data|)
  }

  lemma PlanContinues(sent: seq<Chunk>, image: seq<int>, done: nat, size: nat, at: nat)
    requires size > 0 && done < |image|
    ensures var c := NextChunk(image[done..], size, at);
            done + c.validLength <= |image|
            && sent + Plan(image[done..], size, at)
              == (sent + [c]) + Plan(image[done + c.validLength..], size, at + |c.data|)
  {
    var c := NextChunk(image[done..], size, at);
    assert image[done..][c.validLength..] == image[done + c.validLength..];
  }

  method UploadImage(image: seq<int>, size: nat) returns (chunks: seq<Chunk>)
    requires 0 < size <= MAX_CHUNK
    ensures chunks == Plan(image, size, 0)
  {
    chunks := [];
    var imageOffset: nat, flashOffset: nat := 0, 0;
    PlanEnds(chunks, image, size, 0);
    while imageOffset < |image|
      invariant imageOffset <= |image|
      invariant chunks + Plan(image[imageOffset..], size, flashOffset) == Plan(image, size, 0)
      decreases |image| - imageOffset
    {
      var chunk := NextChunk(image[imageOffset..], size, flashOffset);
      PlanContinues(chunks, image, imageOffset, size, flashOffset);
      chunks := chunks + [chunk];
      imageOffset := imageOffset + chunk.validLength;
      flashOffset := flashOffset + |chunk.data|;
    }
    PlanEnds(chunks, image, size, flashOffset);
  }

  lemma PlanEnds(chunks: seq<Chunk>, image: seq<int>, size: nat, at: nat)
    requires size > 0
    ensures [] + Plan(image[0..], size, at) == Plan(image, size, at)
    ensures chunks + Plan(image[|image|..], size, at) == chunks
  {
    assert image[0..] == image;
  }

  /** On a page boundary, of whole pages, and small enough for a packet. */
  ghost predicate Fits(c: Chunk, at: nat) {
    c.flashOffset == at && at % PAGE == 0 && |c.data| % PAGE == 0 && 0 < c.validLength <= |c.data|
      && PayloadSize(c) <= MAX_PAYLOAD
  }

  /** Chunks follow each other without gap or overlap. */
  ghost predicate Contiguous(chunks: seq<Chunk>, at: nat) {
    chunks != [] ==> Fits(chunks[0], at) && Contiguous(chunks[1..], at + |chunks[0].data|)
  }

  /** The bytes of the image that the chunks carry. */
  ghost function Carried(chunks: seq<Chunk>): seq<int> {
    if chunks == [] then []
    else
      var c := chunks[0];
      (if c.validLength <= |c.data| then c.data[..c.validLength] else c.data) + Carried(chunks[1..])
  }

  /** The first chunk of a plan and the rest, without regard to its padding. */
  lemma {:induction false} PlanSplit(rest: seq<int>, size: nat, at: nat) returns (c: Chunk)
    requires size > 0 && rest != []
    ensures Plan(rest, size, at) != [] && Plan(rest, size, at)[0] == c
    ensures 0 < c.validLength <= |rest| && c.validLength <= |c.data| && c.flashOffset == at
    ensures c.data[..c.validLength] == rest[..c.validLength]
    ensures Plan(rest, size, at)[1..] == Plan(rest[c.validLength..], size, at + |c.data|)
  {
    c := NextChunk(rest, size, at);
    PlanHead(rest, size, at);
  }

  lemma {:induction false} PlanHead(rest: seq<int>, size: nat, at: nat)
    requires size > 0 && rest != []
    ensures var c := NextChunk(rest, size, at);
            Plan(rest, size, at) != [] && Plan(rest, size, at)[0] == c
              && Plan(rest, size, at)[1..] == Plan(rest[c.validLength..], size, at + |c.data|)
  {
    var c := NextChunk(rest, size, at);
    var tail := Plan(rest[c.validLength..], size, at + |c.data|);
    assert Plan(rest, size, at) == [c] + tail && ([c] + tail)[1..] == tail;
  }

  lemma ChunkFits(rest: seq<int>, size: nat, at: nat)
    requires 0 < size <= MAX_CHUNK && at % PAGE == 0 && rest != []
    ensures Fits(NextChunk(rest, size, at), at) && (at + |NextChunk(rest, size, at).data|) % PAGE == 0
  {
    var n := NextChunk(rest, size, at).validLength;
    assert RoundUp(n) <= MAX_CHUNK;
  }

  /** The chunks are laid out as the node expects them. */
  lemma {:induction false} PlanIsContiguous(rest: seq<int>, size: nat, at: nat)
    requires 0 < size <= MAX_CHUNK && at % PAGE == 0
    ensures Contiguous(Plan(rest, size, at), at)
    decreases |rest|
  {
    if rest != [] {
      var c := NextChunk(rest, size, at);
      PlanHead(rest, size, at);
      ChunkFits(rest, size, at);
      PlanIsContiguous(rest[c.validLength..], size, at + |c.data|);
    }
  }

  lemma Halves(s: seq<int>, n: nat)
    requires n <= |s|
    ensures s[..n] + s[n..] == s
  {
  }

  lemma CarriedSplit(rest: seq<int>, size: nat, at: nat) returns (n: nat, next: nat)
    requires size > 0 && rest != []
    ensures 0 < n <= |rest| && Carried(Plan(rest, size, at)) == rest[..n] + Carried(Plan(rest[n..], size, next))
  {
    var c := PlanSplit(rest, size, at);
    n, next := c.validLength, at + |c.data|;
  }

  /** They carry every byte of the image once, in order. */
  lemma {:induction false} PlanCarriesImage(rest: seq<int>, size: nat, at: nat)
    requires size > 0
    ensures Carried(Plan(rest, size, at)) == rest
    decreases |rest|
  {
    if rest != [] {
      var n, next := CarriedSplit(rest, size, at);
      PlanCarriesImage(rest[n..], size, next);
      Halves(rest, n);
    }
  }

  // ----- what arrives -----

  type Flash = int -> int

  function Program(flash: Flash, c: Chunk): Flash {
    (a: int) => if c.flashOffset <= a < c.flashOffset + |c.data| then c.data[a - c.flashOffset] else flash(a)
  }

  function Programmed(flash: Flash, chunks: seq<Chunk>): Flash {
    if chunks == [] then flash else Programmed(Program(flash, chunks[0]), chunks[1..])
  }

  function Erased(): Flash { (a: int) => FILL }

  /** The image in place, the rest of its last page filled, all else as it was. */
  ghost function Placed(flash: Flash, image: seq<int>, at: nat, a: int): int {
    if at <= a < at + |image| then image[a - at]
    else if at + |image| <= a < at + RoundUp(|image|) then FILL
    else flash(a)
  }

  lemma RoundUpPages(p: nat, n: nat)
    requires p % PAGE == 0
    ensures RoundUp(p + n) == p + RoundUp(n) && RoundUp(p) == p
  {
    var q := p / PAGE;
    assert p == q * PAGE;
    assert (p + n + PAGE - 1) / PAGE == q + (n + PAGE - 1) / PAGE;
    assert (p + PAGE - 1) / PAGE == q;
  }

  /** A chunk that is whole pages or the last one extends what is placed. */
  lemma PlacedGrows(flash: Flash, rest: seq<int>, c: Chunk, a: int)
    requires 0 < c.validLength <= |rest| && |c.data| == RoundUp(c.validLength)
    requires c.data[..c.validLength] == rest[..c.validLength]
    requires forall i :: c.validLength <= i < |c.data| ==> c.data[i] == FILL
    requires c.validLength % PAGE == 0 || c.validLength == |rest|
    ensures Placed(Program(flash, c), rest[c.validLength..], c.flashOffset + |c.data|, a)
            == Placed(flash, rest, c.flashOffset, a)
  {
    var n := c.validLength;
    assert forall i :: 0 <= i < n ==> c.data[i] == c.data[..n][i] == rest[..n][i] == rest[i];
    if n < |rest| {
      RoundUpPages(n, |rest| - n);
    } else {
      assert RoundUp(0) == 0;
    }
  }

  lemma {:induction false} WholePagesArrive(flash: Flash, rest: seq<int>, size: nat, at: nat, a: int)
    requires size > 0 && size % PAGE == 0
    ensures Programmed(flash, Plan(rest, size, at))(a) == Placed(flash, rest, at, a)
    decreases |rest|
  {
    if rest != [] {
      var c := NextChunk(rest, size, at);
      PlanHead(rest, size, at);
      WholePagesArrive(Program(flash, c), rest[c.validLength..], size, at + |c.data|, a);
      PlacedGrows(flash, rest, c, a);
    }
  }

  /** An image one byte longer than a chunk, of zeros. */
  function Probe(size: nat): (s: seq<int>)
    ensures |s| == size + 1 && forall i :: 0 <= i <= size ==> s[i] == 0
  {
    seq(size + 1, i => 0)
  }

  lemma ProbeMisplaced(size: nat)
    requires size > 0 && size % PAGE != 0
    ensures Programmed(Erased(), Plan(Probe(size), size, 0))(size) == FILL
  {
    var image := Probe(size);
    var first := NextChunk(image, size, 0);
    PlanHead(image, size, 0);
    assert |first.data| > size;
    NotReached(Program(Erased(), first), image[size..], size, |first.data|, size);
  }

  /** Later chunks leave earlier places alone. */
  lemma {:induction false} NotReached(flash: Flash, rest: seq<int>, size: nat, at: nat, a: int)
    requires size > 0 && a < at
    ensures Programmed(flash, Plan(rest, size, at))(a) == flash(a)
    decreases |rest|
  {
    if rest != [] {
      var c := PlanSplit(rest, size, at);
      NotReached(Program(flash, c), rest[c.validLength..], size, at + |c.data|, a);
    }
  }

  /** Every image arrives intact if and only if a chunk is whole pages. */
  lemma ArrivesIff(size: nat)
    requires size > 0
    ensures (forall image, a :: Programmed(Erased(), Plan(image, size, 0))(a) == Placed(Erased(), image, 0, a))
            <==> size % PAGE == 0
  {
    if size % PAGE == 0 {
      forall image: seq<int>, a: int
        ensures Programmed(Erased(), Plan(image, size, 0))(a) == Placed(Erased(), image, 0, a)
      {
        WholePagesArrive(Erased(), image, size, 0, a);
      }
    } else {
      ProbeMisplaced(size);
      assert Placed(Erased(), Probe(size), 0, size) == 0;
    }
  }
}
