/** Draining a growing buffer with a decoder that looks only at its head. The
    decoder either waits for more, or takes some elements off the front and
    delivers zero or more frames for them. */
module Resync {

  datatype Action<T, F> = Wait | Take(size: nat, frames: seq<F>)

  type Decoder<!T, !F> = seq<T> -> Action<T, F>

  /** The decoder takes something, and no more than there is. */
  ghost predicate Consuming<T(!new), F(!new)>(head: Decoder<T, F>) {
    forall buf :: head(buf).Take? ==> 0 < head(buf).size <= |buf|
  }

  /** Only waiting can be changed by elements that arrive later. */
  ghost predicate Steady<T(!new), F(!new)>(head: Decoder<T, F>) {
    forall buf, more :: head(buf).Take? ==> head(buf + more) == head(buf)
  }

  datatype Drained<T, F> = Drained(frames: seq<F>, rest: seq<T>)

  /** Act on the head of the buffer until it waits; `done` are the frames
      delivered before. */
  ghost function Drain<T(!new), F(!new)>(head: Decoder<T, F>, done: seq<F>, buf: seq<T>): Drained<T, F>
    requires Consuming(head)
    decreases |buf|
  {
    match head(buf)
    case Wait => Drained(done, buf)
    case Take(n, frames) => Drain(head, done + frames, buf[n..])
  }

  /** A receiver's whole life: one read after another. */
  ghost function ReceiveAll<T(!new), F(!new)>(
    head: Decoder<T, F>, state: Drained<T, F>, chunks: seq<seq<T>>): Drained<T, F>
    requires Consuming(head)
    decreases |chunks|
  {
    if chunks == [] then state
    else ReceiveAll(head, Drain(head, state.frames, state.rest + chunks[0]), chunks[1..])
  }

  ghost function Concat<T>(chunks: seq<seq<T>>): seq<T> {
    if chunks == [] then [] else chunks[0] + Concat(chunks[1..])
  }

  lemma DrainStep<T(!new), F(!new)>(head: Decoder<T, F>, done: seq<F>, buf: seq<T>, n: nat, frames: seq<F>)
    requires Consuming(head) && head(buf) == Take(n, frames)
    ensures n <= |buf| && Drain(head, done, buf) == Drain(head, done + frames, buf[n..])
  {}

  /** Frames delivered before only stand in front. */
  lemma {:induction false} DrainPrepends<T(!new), F(!new)>(head: Decoder<T, F>, done: seq<F>, buf: seq<T>)
    requires Consuming(head)
    ensures Drain(head, done, buf) == Drained(done + Drain(head, [], buf).frames, Drain(head, [], buf).rest)
    decreases |buf|
  {
    if head(buf).Take? {
      var n, frames := head(buf).size, head(buf).frames;
      DrainPrepends(head, done + frames, buf[n..]);
      DrainPrepends(head, [] + frames, buf[n..]);
      DrainStep(head, done, buf, n, frames);
      DrainStep(head, [], buf, n, frames);
      InFront(done, frames, Drain(head, [], buf[n..]).frames);
    } else {
      assert done + [] == done;
    }
  }

  lemma InFront<F>(done: seq<F>, frames: seq<F>, later: seq<F>)
    ensures (done + frames) + later == done + (([] + frames) + later)
  {}

  lemma {:induction false} DrainSplit<T(!new), F(!new)>(head: Decoder<T, F>, done: seq<F>, buf: seq<T>, more: seq<T>)
    requires Consuming(head) && Steady(head)
    ensures var first := Drain(head, done, buf);
            head(first.rest).Wait? && Drain(head, done, buf + more) == Drain(head, first.frames, first.rest + more)
    decreases |buf|
  {
    if head(buf).Take? {
      var n := head(buf).size;
      assert (buf + more)[n..] == buf[n..] + more;
      DrainSplit(head, done + head(buf).frames, buf[n..], more);
    }
  }

  /** Any stream, cut into reads in any way, yields the frames and leaves the
      elements that draining the whole stream at once would. */
  lemma {:induction false} ChunkingIrrelevant<T(!new), F(!new)>(
    head: Decoder<T, F>, state: Drained<T, F>, chunks: seq<seq<T>>)
    requires Consuming(head) && Steady(head) && head(state.rest).Wait?
    ensures ReceiveAll(head, state, chunks) == Drain(head, state.frames, state.rest + Concat(chunks))
    decreases |chunks|
  {
    if chunks == [] {
      assert state.rest + Concat(chunks) == state.rest;
    } else {
      var buf, later := state.rest + chunks[0], Concat(chunks[1..]);
      assert buf + later == state.rest + Concat(chunks);
      DrainSplit(head, state.frames, buf, later);
      ChunkingIrrelevant(head, Drain(head, state.frames, buf), chunks[1..]);
    }
  }

  /** One more read: what was delivered so far, and what it delivers itself. */
  lemma {:induction false} ReceiveSnoc<T(!new), F(!new)>(
    head: Decoder<T, F>, state: Drained<T, F>, chunks: seq<seq<T>>, chunk: seq<T>)
    requires Consuming(head)
    ensures var before := ReceiveAll(head, state, chunks);
            var own := Drain(head, [], before.rest + chunk);
            ReceiveAll(head, state, chunks + [chunk]) == Drained(before.frames + own.frames, own.rest)
    decreases |chunks|
  {
    if chunks == [] {
      assert (chunks + [chunk])[1..] == [];
      DrainPrepends(head, state.frames, state.rest + chunk);
    } else {
      assert (chunks + [chunk])[1..] == chunks[1..] + [chunk];
      ReceiveSnoc(head, Drain(head, state.frames, state.rest + chunks[0]), chunks[1..], chunk);
    }
  }

  /** The two ways of cutting compared directly. */
  lemma SameStreamSameFrames<T(!new), F(!new)>(head: Decoder<T, F>, chunks: seq<seq<T>>, chunks': seq<seq<T>>)
    requires Consuming(head) && Steady(head) && head([]).Wait?
    requires Concat(chunks) == Concat(chunks')
    ensures ReceiveAll(head, Drained([], []), chunks) == ReceiveAll(head, Drained([], []), chunks')
  {
    ChunkingIrrelevant(head, Drained([], []), chunks);
    ChunkingIrrelevant(head, Drained([], []), chunks');
  }

  /** The decoder recognises `unit`, whatever follows it, as exactly `frame`. */
  ghost predicate Recognises<T(!new), F(!new)>(head: Decoder<T, F>, unit: seq<T>, frame: F) {
    forall more :: head(unit + more) == Take(|unit|, [frame])
  }

  lemma UnitDrained<T(!new), F(!new)>(head: Decoder<T, F>, done: seq<F>, unit: seq<T>, frame: F, later: seq<T>)
    requires Consuming(head) && Recognises(head, unit, frame)
    ensures Drain(head, done, unit + later) == Drain(head, done + [frame], later)
  {
    DrainStep(head, done, unit + later, |unit|, [frame]);
    assert (unit + later)[|unit|..] == later;
  }

  lemma ConcatHead<T>(units: seq<seq<T>>, more: seq<T>)
    requires units != []
    ensures Concat(units) + more == units[0] + (Concat(units[1..]) + more)
  {}

  ghost predicate AllRecognised<T(!new), F(!new)>(head: Decoder<T, F>, units: seq<seq<T>>, frames: seq<F>) {
    |units| == |frames| && forall i :: 0 <= i < |units| ==> Recognises(head, units[i], frames[i])
  }

  lemma RecognisedTail<T(!new), F(!new)>(head: Decoder<T, F>, units: seq<seq<T>>, frames: seq<F>)
    requires AllRecognised(head, units, frames) && units != []
    ensures Recognises(head, units[0], frames[0]) && AllRecognised(head, units[1..], frames[1..])
  {
    forall i | 0 <= i < |units| - 1
      ensures Recognises(head, units[1..][i], frames[1..][i])
    {
      assert Recognises(head, units[i + 1], frames[i + 1]);
    }
  }

  lemma HeadFirst<F>(done: seq<F>, frames: seq<F>)
    requires frames != []
    ensures (done + [frames[0]]) + frames[1..] == done + frames
  {}

  /** Recognised units sent back to back drain to exactly their frames, whatever
      follows them. */
  lemma {:induction false} RecognisedDrain<T(!new), F(!new)>(head: Decoder<T, F>, done: seq<F>, units: seq<seq<T>>,
                                                            frames: seq<F>, more: seq<T>)
    requires Consuming(head) && AllRecognised(head, units, frames)
    ensures Drain(head, done, Concat(units) + more) == Drain(head, done + frames, more)
    decreases |units|
  {
    if units == [] {
      assert Concat(units) + more == more && done + frames == done;
    } else {
      RecognisedTail(head, units, frames);
      ConcatHead(units, more);
      UnitDrained(head, done, units[0], frames[0], Concat(units[1..]) + more);
      RecognisedDrain(head, done + [frames[0]], units[1..], frames[1..], more);
      HeadFirst(done, frames);
    }
  }
}
