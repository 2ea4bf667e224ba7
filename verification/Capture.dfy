/** A Capture file: raw samples and the block rows that describe them, written
    in two flushed phases, recovered after a crash. */
module Capture {
  import opened Options

  datatype RoutingFlag = UtcValid | BoundaryUncertain | InitiallyUnsynced | LateArrival | RecoveredAfterRestart

  datatype Xyz = Xyz(x: int, y: int, z: int)

  /** The identity of a sample. */
  datatype Key = Key(boot: int, sampleSeq: int)

  datatype Sample = Sample(
    nodeId: int, bootEpoch: int, sampleSeq: int, raw: Xyz, rangeG: int,
    packetSeq: int, timingSegment: int, timingFlags: int, routing: set<RoutingFlag>,
    deviceTimeUs: Option<int>, utcNs: Option<int>, uncertaintyNs: Option<int>)

  datatype Block = Block(
    sampleOffset: int, sampleCount: int, bootEpoch: int, firstSeq: int,
    timingSegment: int, packetSeq: int, firstDeviceUs: int, lastDeviceUs: int,
    firstUtcNs: int, lastUtcNs: int, uncertaintyNs: int, timingFlags: int, routing: set<RoutingFlag>)

  const SIGNED24_MIN: int := -0x80_0000
  const SIGNED24_MAX: int := 0x7F_FFFF

  predicate Signed24(v: Xyz) {
    && SIGNED24_MIN <= v.x <= SIGNED24_MAX
    && SIGNED24_MIN <= v.y <= SIGNED24_MAX
    && SIGNED24_MIN <= v.z <= SIGNED24_MAX
  }

  function KeyOf(s: Sample): Key { Key(s.bootEpoch, s.sampleSeq) }

  function KeysOf(s: seq<Sample>): (keys: seq<Key>)
    ensures |keys| == |s|
  {
    seq(|s|, i requires 0 <= i < |s| => KeyOf(s[i]))
  }

  function KeySet(s: seq<Sample>): set<Key> {
    set x | x in s :: KeyOf(x)
  }

  function RawOf(s: seq<Sample>): (raws: seq<Xyz>)
    ensures |raws| == |s|
  {
    seq(|s|, i requires 0 <= i < |s| => s[i].raw)
  }

  function Max(a: int, b: int): int { if a >= b then a else b }

  // ----- batches: what is new, and how it is cut into fragments -----

  function Fresh(samples: seq<Sample>, seen: set<Key>): seq<Sample> {
    if samples == [] then []
    else
      var last := samples[|samples| - 1];
      Fresh(samples[..|samples| - 1], seen) + (if KeyOf(last) in seen then [] else [last])
  }

  predicate SameBlock(previous: Sample, current: Sample) {
    && current.bootEpoch == previous.bootEpoch
    && current.sampleSeq == previous.sampleSeq + 1
    && current.packetSeq == previous.packetSeq
    && current.timingSegment == previous.timingSegment
    && current.timingFlags == previous.timingFlags
    && current.routing == previous.routing
  }

  /** Every sample continues the one before it. */
  ghost predicate Uniform(f: seq<Sample>) {
    f != [] && forall i :: 0 < i < |f| ==> SameBlock(f[i - 1], f[i])
  }

  ghost predicate AllUniform(fragments: seq<seq<Sample>>) {
    forall k :: 0 <= k < |fragments| ==> Uniform(fragments[k])
  }

  function AddToFragments(fragments: seq<seq<Sample>>, s: Sample): seq<seq<Sample>> {
    var n := |fragments| - 1;
    if n < 0 || fragments[n] == [] || !SameBlock(fragments[n][|fragments[n]| - 1], s) then fragments + [[s]]
    else fragments[..n] + [fragments[n] + [s]]
  }

  function FragmentsOf(samples: seq<Sample>): seq<seq<Sample>> {
    if samples == [] then []
    else AddToFragments(FragmentsOf(samples[..|samples| - 1]), samples[|samples| - 1])
  }

  function Flatten(fragments: seq<seq<Sample>>): seq<Sample> {
    if fragments == [] then [] else Flatten(fragments[..|fragments| - 1]) + fragments[|fragments| - 1]
  }

  // ----- the block rows of a list of fragments -----

  function MaxUncertainty(f: seq<Sample>): int {
    if f == [] then 0 else Max(MaxUncertainty(f[..|f| - 1]), GetOr(f[|f| - 1].uncertaintyNs, 0))
  }

  function BlockOf(f: seq<Sample>, offset: int): Block
    requires f != []
  {
    var first, last := f[0], f[|f| - 1];
    Block(offset, |f|, first.bootEpoch, first.sampleSeq, first.timingSegment, first.packetSeq,
          GetOr(first.deviceTimeUs, 0), GetOr(last.deviceTimeUs, 0),
          GetOr(first.utcNs, -1), GetOr(last.utcNs, -1), MaxUncertainty(f), first.timingFlags, first.routing)
  }

  function BlocksOf(fragments: seq<seq<Sample>>, offset: int): (blocks: seq<Block>)
    requires forall k :: 0 <= k < |fragments| ==> fragments[k] != []
    ensures |blocks| == |fragments|
  {
    if fragments == [] then []
    else
      var n := |fragments| - 1;
      BlocksOf(fragments[..n], offset) + [BlockOf(fragments[n], offset + |Flatten(fragments[..n])|)]
  }

  function BlockKeys(b: Block): (keys: seq<Key>)
    requires b.sampleCount >= 0
    ensures |keys| == b.sampleCount
  {
    seq(b.sampleCount, i => Key(b.bootEpoch, b.firstSeq + i))
  }

  ghost predicate CountsValid(blocks: seq<Block>) {
    forall k :: 0 <= k < |blocks| ==> blocks[k].sampleCount >= 0
  }

  /** The identities that the block rows stand for, in row order. */
  function AllKeys(blocks: seq<Block>): seq<Key>
    requires forall k :: 0 <= k < |blocks| ==> blocks[k].sampleCount >= 0
  {
    if blocks == [] then [] else AllKeys(blocks[..|blocks| - 1]) + BlockKeys(blocks[|blocks| - 1])
  }

  function CommittedKeys(blocks: seq<Block>): set<Key>
    requires forall k :: 0 <= k < |blocks| ==> blocks[k].sampleCount >= 0
  {
    set key | key in AllKeys(blocks)
  }

  /** The largest sample end any block row announces. */
  function Committed(blocks: seq<Block>): int {
    if blocks == [] then 0
    else
      var b := blocks[|blocks| - 1];
      Max(Committed(blocks[..|blocks| - 1]), b.sampleOffset + b.sampleCount)
  }

  // ----- lemmas about fragments -----

  lemma FlattenSnoc(fragments: seq<seq<Sample>>, f: seq<Sample>)
    ensures Flatten(fragments + [f]) == Flatten(fragments) + f
  {
    assert (fragments + [f])[..|fragments|] == fragments;
  }

  lemma {:induction false} FlattenConcat(a: seq<seq<Sample>>, b: seq<seq<Sample>>)
    ensures Flatten(a + b) == Flatten(a) + Flatten(b)
  {
    if b == [] {
      assert a + b == a;
    } else {
      var n := |b| - 1;
      assert a + b == (a + b[..n]) + [b[n]];
      FlattenSnoc(a + b[..n], b[n]);
      FlattenConcat(a, b[..n]);
    }
  }

  lemma {:induction false} AddToFragmentsFlat(fragments: seq<seq<Sample>>, s: Sample)
    requires AllUniform(fragments)
    ensures Flatten(AddToFragments(fragments, s)) == Flatten(fragments) + [s]
  {
    var n := |fragments| - 1;
    if n < 0 || !SameBlock(fragments[n][|fragments[n]| - 1], s) {
      FlattenSnoc(fragments, [s]);
    } else {
      FlattenSnoc(fragments[..n], fragments[n] + [s]);
    }
  }

  lemma UniformSnoc(f: seq<Sample>, s: Sample)
    requires Uniform(f) && SameBlock(f[|f| - 1], s)
    ensures Uniform(f + [s])
  {
    forall i | 0 < i < |f + [s]|
      ensures SameBlock((f + [s])[i - 1], (f + [s])[i])
    {
      if i < |f| {
        assert SameBlock(f[i - 1], f[i]);
      }
    }
  }

  lemma LastUniform(init: seq<seq<Sample>>, f: seq<Sample>)
    requires AllUniform(init) && Uniform(f)
    ensures AllUniform(init + [f])
  {
  }

  lemma {:induction false} AddToFragmentsKeeps(fragments: seq<seq<Sample>>, s: Sample)
    requires AllUniform(fragments)
    ensures AllUniform(AddToFragments(fragments, s))
    ensures Flatten(AddToFragments(fragments, s)) == Flatten(fragments) + [s]
  {
    AddToFragmentsFlat(fragments, s);
    var n := |fragments| - 1;
    if n >= 0 && SameBlock(fragments[n][|fragments[n]| - 1], s) {
      UniformSnoc(fragments[n], s);
      LastUniform(fragments[..n], fragments[n] + [s]);
    } else {
      LastUniform(fragments, [s]);
    }
  }

  lemma {:induction false} FragmentsUniform(samples: seq<Sample>)
    ensures AllUniform(FragmentsOf(samples))
  {
    if samples != [] {
      var n := |samples| - 1;
      FragmentsUniform(samples[..n]);
      AddToFragmentsKeeps(FragmentsOf(samples[..n]), samples[n]);
    }
  }

  /** Cutting a batch into fragments loses and reorders nothing. */
  lemma {:induction false} FragmentsRestore(samples: seq<Sample>)
    ensures Flatten(FragmentsOf(samples)) == samples
  {
    if samples != [] {
      var n := |samples| - 1;
      FragmentsRestore(samples[..n]);
      FragmentsUniform(samples[..n]);
      AddToFragmentsKeeps(FragmentsOf(samples[..n]), samples[n]);
      assert samples == samples[..n] + [samples[n]];
    }
  }

  lemma {:induction false} UniformSeq(f: seq<Sample>, i: nat)
    requires Uniform(f) && i < |f|
    ensures f[i].bootEpoch == f[0].bootEpoch && f[i].sampleSeq == f[0].sampleSeq + i
    ensures f[i].routing == f[0].routing && f[i].packetSeq == f[0].packetSeq
    ensures f[i].timingSegment == f[0].timingSegment && f[i].timingFlags == f[0].timingFlags
  {
    if i > 0 {
      UniformSeq(f, i - 1);
      assert SameBlock(f[i - 1], f[i]);
    }
  }

  /** A block row restores the identities of the samples it was made from. */
  lemma BlockRestoresKeys(f: seq<Sample>, offset: int)
    requires Uniform(f)
    ensures BlockKeys(BlockOf(f, offset)) == KeysOf(f)
  {
    forall i | 0 <= i < |f|
      ensures BlockKeys(BlockOf(f, offset))[i] == KeysOf(f)[i]
    {
      UniformSeq(f, i);
    }
  }

  lemma {:induction false} BlocksRestoreKeys(fragments: seq<seq<Sample>>, offset: int)
    requires AllUniform(fragments)
    ensures CountsValid(BlocksOf(fragments, offset))
    ensures AllKeys(BlocksOf(fragments, offset)) == KeysOf(Flatten(fragments))
  {
    if fragments != [] {
      var n := |fragments| - 1;
      var init := fragments[..n];
      BlocksRestoreKeys(init, offset);
      BlockRestoresKeys(fragments[n], offset + |Flatten(init)|);
      assert BlocksOf(fragments, offset)[..n] == BlocksOf(init, offset);
      assert KeysOf(Flatten(init) + fragments[n]) == KeysOf(Flatten(init)) + KeysOf(fragments[n]);
    }
  }

  lemma {:induction false} BlocksConcat(a: seq<seq<Sample>>, b: seq<seq<Sample>>, offset: int)
    requires AllUniform(a) && AllUniform(b)
    ensures AllUniform(a + b)
    ensures BlocksOf(a + b, offset) == BlocksOf(a, offset) + BlocksOf(b, offset + |Flatten(a)|)
  {
    if b == [] {
      assert a + b == a;
    } else {
      var n := |b| - 1;
      assert (a + b)[..|a + b| - 1] == a + b[..n];
      BlocksConcat(a, b[..n], offset);
      FlattenConcat(a, b[..n]);
    }
  }

  lemma {:induction false} AllKeysConcat(a: seq<Block>, b: seq<Block>)
    requires CountsValid(a) && CountsValid(b)
    ensures CountsValid(a + b)
    ensures AllKeys(a + b) == AllKeys(a) + AllKeys(b)
  {
    if b == [] {
      assert a + b == a;
    } else {
      var n := |b| - 1;
      assert (a + b)[..|a + b| - 1] == a + b[..n];
      AllKeysConcat(a, b[..n]);
    }
  }

  lemma {:induction false} CommittedIsTotal(fragments: seq<seq<Sample>>)
    requires AllUniform(fragments)
    ensures Committed(BlocksOf(fragments, 0)) == |Flatten(fragments)|
  {
    if fragments != [] {
      var n := |fragments| - 1;
      CommittedIsTotal(fragments[..n]);
      assert BlocksOf(fragments, 0)[..n] == BlocksOf(fragments[..n], 0);
    }
  }

  lemma {:induction false} FreshKeys(samples: seq<Sample>, seen: set<Key>)
    ensures KeySet(Fresh(samples, seen)) == KeySet(samples) - seen
  {
    if samples != [] {
      var n := |samples| - 1;
      FreshKeys(samples[..n], seen);
      assert samples == samples[..n] + [samples[n]];
      KeySetConcat(samples[..n], [samples[n]]);
      KeySetConcat(Fresh(samples[..n], seen), if KeyOf(samples[n]) in seen then [] else [samples[n]]);
    }
  }

  lemma KeySetConcat(a: seq<Sample>, b: seq<Sample>)
    ensures KeySet(a + b) == KeySet(a) + KeySet(b)
  {
    forall k | k in KeySet(a) + KeySet(b)
      ensures k in KeySet(a + b)
    {
      if k in KeySet(a) {
        var x :| x in a && KeyOf(x) == k;
        assert x in a + b;
      } else {
        var x :| x in b && KeyOf(x) == k;
        assert x in a + b;
      }
    }
  }

  lemma KeySetOfKeys(s: seq<Sample>)
    ensures (set key | key in KeysOf(s)) == KeySet(s)
  {
    forall k | k in KeySet(s)
      ensures k in KeysOf(s)
    {
      var x :| x in s && KeyOf(x) == k;
      var i :| 0 <= i < |s| && s[i] == x;
      assert KeysOf(s)[i] == k;
    }
  }

  // ----- the file, its durable image, and what each operation does to it -----

  datatype File = File(raw: seq<Xyz>, blocks: seq<Block>)

  const EMPTY: File := File([], [])

  /** Rows committed by a block row survive, later raw rows do not. */
  function Recover(d: File): File {
    var committed := Committed(d.blocks);
    if |d.raw| > committed >= 0 then File(d.raw[..committed], d.blocks) else d
  }

  function NewSamples(d: File, samples: seq<Sample>): seq<Sample>
    requires forall k :: 0 <= k < |d.blocks| ==> d.blocks[k].sampleCount >= 0
  {
    Fresh(samples, CommittedKeys(d.blocks))
  }

  /** After the first flush: raw rows without block rows. */
  function RawPhase(d: File, novel: seq<Sample>): File {
    File(d.raw + RawOf(novel), d.blocks)
  }

  /** After the second flush. */
  function BlockPhase(d: File, novel: seq<Sample>): File {
    FragmentsUniform(novel);
    FragmentsRestore(novel);
    File(d.raw + RawOf(novel), d.blocks + BlocksOf(FragmentsOf(novel), |d.raw|))
  }

  // ----- the writer -----

  predicate Acceptable(node: int, samples: seq<Sample>) {
    forall i :: 0 <= i < |samples| ==>
      samples[i].nodeId == node && samples[i].rangeG in {2, 4, 8} && Signed24(samples[i].raw)
  }

  /** One of the ranges of the sensor, and axes of 24 bits. */
  ghost predicate WellMeasured(s: Sample) {
    && (s.rangeG == 2 || s.rangeG == 4 || s.rangeG == 8)
    && -8_388_608 <= s.raw.x <= 8_388_607
    && -8_388_608 <= s.raw.y <= 8_388_607
    && -8_388_608 <= s.raw.z <= 8_388_607
  }

  lemma AcceptableIff(node: int, samples: seq<Sample>)
    ensures Acceptable(node, samples) <==> forall s :: s in samples ==> s.nodeId == node && WellMeasured(s)
  {
    if forall s :: s in samples ==> s.nodeId == node && WellMeasured(s) {
      forall i | 0 <= i < |samples|
        ensures samples[i].nodeId == node && samples[i].rangeG in {2, 4, 8} && Signed24(samples[i].raw)
      {
        assert samples[i] in samples;
      }
    }
  }

  /** Where the process may die: before the raw rows are flushed, or between
      the two flushes. */
  datatype CrashPoint = NoCrash | BeforeRawFlush | BeforeBlockFlush

  datatype Outcome = Done | Refused | Crashed

  lemma AnyNew(samples: seq<Sample>, seen: set<Key>)
    ensures Fresh(samples, seen) == [] <==> forall s :: s in samples ==> Key(s.bootEpoch, s.sampleSeq) in seen
  {
    FreshKeys(samples, seen);
    var novel := Fresh(samples, seen);
    if novel != [] {
      assert KeyOf(novel[0]) in KeySet(novel);
    }
    forall s | s in samples && KeyOf(s) !in seen
      ensures novel != []
    {
      assert KeyOf(s) in KeySet(novel);
    }
  }

  /** How a call ends: an empty batch is nothing to do, even for a stranger. */
  function WriteOutcome(d: File, nodeId: Option<int>, node: int, samples: seq<Sample>, crash: CrashPoint): Outcome
    requires forall k :: 0 <= k < |d.blocks| ==> d.blocks[k].sampleCount >= 0
  {
    if samples == [] then Done
    else if nodeId != Some(node) || !Acceptable(node, samples) then Refused
    else if crash == NoCrash || NewSamples(d, samples) == [] then Done
    else Crashed
  }

  /** The key set kept in memory stays the key set of the block rows. */
  lemma KeysAfterAppend(blocks: seq<Block>, novel: seq<Sample>, offset: int)
    requires CountsValid(blocks)
    ensures AllUniform(FragmentsOf(novel))
    ensures var blocks' := blocks + BlocksOf(FragmentsOf(novel), offset);
            CountsValid(blocks') && CommittedKeys(blocks') == CommittedKeys(blocks) + KeySet(novel)
  {
    FragmentsUniform(novel);
    FragmentsRestore(novel);
    var rows := BlocksOf(FragmentsOf(novel), offset);
    BlocksRestoreKeys(FragmentsOf(novel), offset);
    AllKeysConcat(blocks, rows);
    KeySetOfKeys(novel);
    assert forall key :: key in AllKeys(blocks + rows) <==> key in AllKeys(blocks) || key in AllKeys(rows);
  }

  method BuildFragments(samples: seq<Sample>) returns (fragments: seq<seq<Sample>>)
    ensures fragments == FragmentsOf(samples)
  {
    fragments := [];
    for i := 0 to |samples|
      invariant fragments == FragmentsOf(samples[..i])
      invariant AllUniform(fragments)
    {
      assert samples[..i + 1][..i] == samples[..i];
      AddToFragmentsKeeps(fragments, samples[i]);
      var n := |fragments| - 1;
      if n < 0 || !SameBlock(fragments[n][|fragments[n]| - 1], samples[i]) {
        fragments := fragments + [[samples[i]]];
      } else {
        fragments := fragments[..n] + [fragments[n] + [samples[i]]];
      }
    }
    assert samples[..|samples|] == samples;
  }

  method BuildRows(fragments: seq<seq<Sample>>, sampleOffset: int) returns (rows: seq<Block>)
    requires AllUniform(fragments)
    ensures rows == BlocksOf(fragments, sampleOffset)
  {
    rows := [];
    var fragmentOffset := sampleOffset;
    for k := 0 to |fragments|
      invariant rows == BlocksOf(fragments[..k], sampleOffset)
      invariant fragmentOffset == sampleOffset + |Flatten(fragments[..k])|
    {
      assert fragments[..k + 1][..k] == fragments[..k];
      FlattenSnoc(fragments[..k], fragments[k]);
      rows := rows + [BlockOf(fragments[k], fragmentOffset)];
      fragmentOffset := fragmentOffset + |fragments[k]|;
    }
    assert fragments[..|fragments|] == fragments;
  }

  class Writer {
    var nodeId: Option<int>
    var rawXyz: seq<Xyz>
    var blocks: seq<Block>
    var seenKeys: set<Key>
    var disk: File  // what a crash leaves behind

    ghost predicate Valid()
      reads this
    {
      && CountsValid(blocks)
      && seenKeys == CommittedKeys(blocks)
      && disk == File(rawXyz, blocks)
    }

    /** Opening an existing partial file recovers it first. */
    constructor (existing: File)
      requires CountsValid(existing.blocks)
      ensures Valid()
      ensures disk == Recover(existing)
      ensures File(rawXyz, blocks) == Recover(existing) && nodeId == None
    {
      nodeId := None;
      blocks := existing.blocks;
      var committed := 0;
      for k := 0 to |existing.blocks|
        invariant committed == Committed(existing.blocks[..k]) >= 0
      {
        assert existing.blocks[..k + 1][..k] == existing.blocks[..k];
        var b := existing.blocks[k];
        committed := Max(committed, b.sampleOffset + b.sampleCount);
      }
      assert existing.blocks[..|existing.blocks|] == existing.blocks;
      var raw := existing.raw;
      if |raw| > committed {
        raw := raw[..committed];
      }
      rawXyz := raw;
      disk := File(raw, existing.blocks);
      seenKeys := CommittedKeys(existing.blocks);
    }

    method AddNode(node: int) returns (outcome: Outcome)
      requires Valid()
      modifies this
      ensures Valid() && rawXyz == old(rawXyz) && blocks == old(blocks)
      ensures outcome == (if old(nodeId).Some? && old(nodeId).value != node then Refused else Done)
      ensures nodeId == if outcome == Done then Some(node) else old(nodeId)
    {
      if nodeId.Some? && nodeId.value != node {
        return Refused;
      }
      nodeId := Some(node);
      outcome := Done;
    }

    /** The two-phase append of samples that are not yet in the file. */
    method Append(novel: seq<Sample>, crash: CrashPoint) returns (outcome: Outcome)
      requires Valid()
      modifies this`rawXyz, this`blocks, this`seenKeys, this`disk
      ensures outcome == if crash == NoCrash then Done else Crashed
      ensures crash == BeforeRawFlush ==> disk == old(disk)
      ensures crash == BeforeBlockFlush ==> disk == RawPhase(old(disk), novel)
      ensures crash == NoCrash ==> Valid() && disk == BlockPhase(old(disk), novel)
    {
      var fragments := BuildFragments(novel);
      FragmentsUniform(novel);
      FragmentsRestore(novel);
      var sampleOffset := |rawXyz|;
      rawXyz := rawXyz + RawOf(novel);
      if crash == BeforeRawFlush {
        return Crashed;
      }
      disk := File(rawXyz, blocks);
      if crash == BeforeBlockFlush {
        return Crashed;
      }
      var rows := BuildRows(fragments, sampleOffset);
      KeysAfterAppend(blocks, novel, sampleOffset);
      blocks := blocks + rows;
      seenKeys := seenKeys + KeySet(novel);
      disk := File(rawXyz, blocks);
      outcome := Done;
    }

    method WriteSamples(node: int, samples: seq<Sample>, crash: CrashPoint) returns (outcome: Outcome)
      requires Valid()
      modifies this`rawXyz, this`blocks, this`seenKeys, this`disk
      ensures outcome == WriteOutcome(old(disk), nodeId, node, samples, crash)
      ensures outcome == Refused <==>
          samples != [] && (nodeId != Some(node) || exists s :: s in samples && (s.nodeId != node || !WellMeasured(s)))
      ensures outcome == Crashed <==>
          && outcome != Refused && crash != NoCrash
          && exists s :: s in samples && Key(s.bootEpoch, s.sampleSeq) !in CommittedKeys(old(disk).blocks)
      ensures outcome == Refused ==> Valid() && disk == old(disk)
      ensures outcome == Done ==> Valid() && disk == BlockPhase(old(disk), NewSamples(old(disk), samples))
      ensures outcome == Crashed && crash == BeforeRawFlush ==> disk == old(disk)
      ensures outcome == Crashed && crash == BeforeBlockFlush ==>
          disk == RawPhase(old(disk), NewSamples(old(disk), samples))
    {
      AcceptableIff(node, samples);
      AnyNew(samples, seenKeys);
      if samples == [] {
        return Done;
      }
      if nodeId != Some(node) || !Acceptable(node, samples) {
        return Refused;
      }
      var novel := Fresh(samples, seenKeys);
      if novel == [] {
        return Done;
      }
      outcome := Append(novel, crash);
    }
  }
}
