/** The block rows of all sources of an Archive, said of the samples that their
    Capture files hold. */
module SourceRows {
  import opened Options
  import opened Capture
  import opened CaptureReader
  import opened CaptureRuns
  import opened BlockRows
  import opened Archive
  import opened Compaction

  type History = seq<CaptureRuns.Event>

  /** Each source is the file that a history has left. */
  ghost predicate WrittenBy(sources: seq<Source>, histories: seq<History>) {
    |sources| == |histories| && forall i :: 0 <= i < |sources| ==> sources[i].file == Run(histories[i])
  }

  /** The stored samples of all sources, one source after the other. */
  ghost function AllStored(histories: seq<History>): seq<Sample> {
    if histories == [] then [] else AllStored(histories[..|histories| - 1]) + Stored(histories[|histories| - 1])
  }

  lemma TellsBefore(b: Block, samples: seq<Sample>, more: seq<Sample>)
    requires Tells(b, samples)
    ensures Tells(b, samples + more)
  {
    var all := samples + more;
    assert forall i :: 0 <= i < |samples| ==> all[i] == samples[i];
    if b.uncertaintyNs > 0 {
      var i :| b.sampleOffset <= i < b.sampleOffset + b.sampleCount
        && samples[i].uncertaintyNs == Some(b.uncertaintyNs);
      assert all[i].uncertaintyNs == Some(b.uncertaintyNs);
    }
  }

  lemma TellsBehind(b: Block, before: seq<Sample>, samples: seq<Sample>)
    requires Tells(b, samples)
    ensures Tells(Shift(b, |before|), before + samples)
  {
    var all, c := before + samples, Shift(b, |before|);
    forall i | c.sampleOffset <= i < c.sampleOffset + c.sampleCount
      ensures all[i] == samples[i - |before|]
    {
    }
    if b.uncertaintyNs > 0 {
      var i :| b.sampleOffset <= i < b.sampleOffset + b.sampleCount
        && samples[i].uncertaintyNs == Some(b.uncertaintyNs);
      assert all[|before| + i].uncertaintyNs == Some(c.uncertaintyNs);
    }
  }

  lemma TellJoined(a: seq<Block>, x: seq<Sample>, b: seq<Block>, y: seq<Sample>)
    requires AllTell(a, x) && AllTell(b, y)
    ensures AllTell(a + ShiftAll(b, |x|), x + y)
  {
    TileConcat(a, |x|, b, |y|);
    var c := a + ShiftAll(b, |x|);
    forall k | 0 <= k < |c|
      ensures Tells(c[k], x + y)
    {
      if k < |a| {
        TellsBefore(a[k], x, y);
      } else {
        TellsBehind(b[k - |a|], x, y);
      }
    }
  }

  /** The rows of all sources, at their offsets in the archive, tell of all stored
      samples, and the raw values are theirs. */
  lemma {:induction false} JoinedTell(sources: seq<Source>, histories: seq<History>)
    requires WrittenBy(sources, histories)
    ensures JoinedRaw(sources) == RawOf(AllStored(histories))
    ensures AllTell(Joined(sources), AllStored(histories))
  {
    if sources != [] {
      var n := |sources| - 1;
      JoinedTell(sources[..n], histories[..n]);
      RowsTell(histories[n]);
      RunHoldsCompletedBatches(histories[n]);
      RawConcat(AllStored(histories[..n]), Stored(histories[n]));
      TellJoined(Joined(sources[..n]), AllStored(histories[..n]), Run(histories[n]).blocks, Stored(histories[n]));
    }
  }

  lemma {:induction false} JoinedStored(sources: seq<Source>, histories: seq<History>)
    requires WrittenBy(sources, histories)
    ensures JoinedRaw(sources) == RawOf(AllStored(histories))
  {
    JoinedTell(sources, histories);
  }

  lemma {:induction false} SourceStored(sources: seq<Source>, histories: seq<History>, j: nat)
    requires WrittenBy(sources, histories) && j < |sources|
    ensures |JoinedRaw(sources[..j])| == |AllStored(histories[..j])|
    ensures AllTell(sources[j].file.blocks, Stored(histories[j]))
  {
    JoinedTell(sources[..j], histories[..j]);
    RowsTell(histories[j]);
  }

  /** Some row covers each sample. */
  lemma {:induction false} RowOver(blocks: seq<Block>, n: int, i: int) returns (k: nat)
    requires BlocksTile(blocks, n) && 0 <= i < n
    ensures k < |blocks| && blocks[k].sampleOffset <= i < blocks[k].sampleOffset + blocks[k].sampleCount
  {
    k := |blocks| - 1;
    if i < blocks[k].sampleOffset {
      InitTile(blocks, n);
      k := RowOver(blocks[..k], blocks[k].sampleOffset, i);
    }
  }

  lemma InitTell(blocks: seq<Block>, samples: seq<Sample>)
    requires AllTell(blocks, samples) && blocks != []
    ensures var m := |blocks| - 1; var at := blocks[m].sampleOffset;
            0 <= at < |samples| && AllTell(blocks[..m], samples[..at]) && at + blocks[m].sampleCount == |samples|
  {
    var m := |blocks| - 1;
    var at := blocks[m].sampleOffset;
    assert Tells(blocks[m], samples);
    InitTile(blocks, |samples|);
    forall k | 0 <= k < m
      ensures Tells(blocks[..m][k], samples[..at])
    {
      RowBefore(blocks, |samples|, k);
      TellsPrefix(blocks[k], samples, at);
    }
  }

  lemma RowBefore(blocks: seq<Block>, n: int, k: nat)
    requires BlocksTile(blocks, n) && k < |blocks| - 1
    ensures blocks[k].sampleOffset + blocks[k].sampleCount <= blocks[|blocks| - 1].sampleOffset
  {
    InitTile(blocks, n);
    var m := |blocks| - 1;
    KeyAt(blocks[..m], blocks[m].sampleOffset, k, blocks[k].sampleCount - 1);
  }

  lemma TellsPrefix(b: Block, samples: seq<Sample>, n: nat)
    requires Tells(b, samples) && b.sampleOffset + b.sampleCount <= n <= |samples|
    ensures Tells(b, samples[..n])
  {
    assert forall i :: 0 <= i < n ==> samples[..n][i] == samples[i];
    if b.uncertaintyNs > 0 {
      var i :| b.sampleOffset <= i < b.sampleOffset + b.sampleCount
        && samples[i].uncertaintyNs == Some(b.uncertaintyNs);
      assert samples[..n][i].uncertaintyNs == Some(b.uncertaintyNs);
    }
  }

  // ----- sample numbers -----

  ghost predicate NoneOf(samples: seq<Sample>, number: int) {
    forall q :: 0 <= q < |samples| ==> samples[q].sampleSeq != number
  }

  /** The last sample of a number, or the start of the source if it has none. */
  ghost predicate LastOf(samples: seq<Sample>, sourceStart: int, number: int, at: int) {
    || (exists r :: 0 <= r < |samples| && samples[r].sampleSeq == number && at == sourceStart + r
          && forall q :: r < q < |samples| ==> samples[q].sampleSeq != number)
    || (at == sourceStart && NoneOf(samples, number))
  }

  lemma {:induction false} AnchorIsLast(blocks: seq<Block>, samples: seq<Sample>, sourceStart: int, number: int)
    requires AllTell(blocks, samples)
    ensures LastOf(samples, sourceStart, number, AnchorOffset(blocks, sourceStart, number))
  {
    if blocks != [] {
      var m := |blocks| - 1;
      var b, at := blocks[m], blocks[m].sampleOffset;
      InitTell(blocks, samples);
      assert Tells(b, samples);
      AnchorIsLast(blocks[..m], samples[..at], sourceStart, number);
      if b.firstSeq <= number < b.firstSeq + b.sampleCount {
        assert samples[at + number - b.firstSeq].sampleSeq == number;
      } else {
        LastOfMore(samples, at, sourceStart, number, AnchorOffset(blocks[..m], sourceStart, number));
      }
    }
  }

  lemma LastOfMore(samples: seq<Sample>, n: nat, sourceStart: int, number: int, at: int)
    requires n <= |samples| && LastOf(samples[..n], sourceStart, number, at)
    requires forall q :: n <= q < |samples| ==> samples[q].sampleSeq != number
    ensures LastOf(samples, sourceStart, number, at)
  {
    forall q | 0 <= q < |samples|
      ensures q < n ==> samples[q] == samples[..n][q]
      ensures q >= n ==> samples[q].sampleSeq != number
    {
    }
    if !(at == sourceStart && NoneOf(samples[..n], number)) {
      var r :| 0 <= r < n && samples[..n][r].sampleSeq == number && at == sourceStart + r
        && forall q :: r < q < n ==> samples[..n][q].sampleSeq != number;
      assert samples[r].sampleSeq == number;
    }
  }

  /** The first sample of a number, if there is one. */
  ghost predicate FirstOf(samples: seq<Sample>, number: int, r: int) {
    && 0 <= r < |samples| && samples[r].sampleSeq == number
    && forall q :: 0 <= q < r ==> samples[q].sampleSeq != number
  }

  lemma {:induction false} RowsAscend(blocks: seq<Block>, n: int, j: nat, k: nat)
    requires BlocksTile(blocks, n) && j < k < |blocks|
    ensures blocks[j].sampleOffset + blocks[j].sampleCount <= blocks[k].sampleOffset
    decreases |blocks|
  {
    if k == |blocks| - 1 {
      RowBefore(blocks, n, j);
    } else {
      InitTile(blocks, n);
      RowsAscend(blocks[..|blocks| - 1], blocks[|blocks| - 1].sampleOffset, j, k);
    }
  }

  /** Every row says the number of sample i, if it covers it. */
  lemma NumberAt(blocks: seq<Block>, samples: seq<Sample>, i: int) returns (k: nat)
    requires AllTell(blocks, samples) && 0 <= i < |samples|
    ensures k < |blocks| && blocks[k].sampleOffset <= i < blocks[k].sampleOffset + blocks[k].sampleCount
    ensures samples[i].sampleSeq == blocks[k].firstSeq + i - blocks[k].sampleOffset
  {
    k := RowOver(blocks, |samples|, i);
    assert Tells(blocks[k], samples);
  }

  lemma NumbersOf(b: Block, samples: seq<Sample>, number: int)
    requires Tells(b, samples) && b.firstSeq <= number < b.firstSeq + b.sampleCount
    ensures var r := b.sampleOffset + number - b.firstSeq;
            0 <= r < |samples| && samples[r].sampleSeq == number && samples[r].bootEpoch == b.bootEpoch
    ensures forall q :: b.sampleOffset <= q < b.sampleOffset + b.sampleCount && samples[q].sampleSeq == number ==>
              q == b.sampleOffset + number - b.firstSeq
  {
  }

  /** The row of source j that covers its sample r. */
  lemma {:induction false} OwnRow(sources: seq<Source>, histories: seq<History>, j: nat, r: nat) returns (k: nat)
    requires WrittenBy(sources, histories) && j < |sources| && r < |Stored(histories[j])|
    ensures |JoinedRaw(sources[..j])| == |AllStored(histories[..j])|
    ensures k < |sources[j].file.blocks| && Tells(sources[j].file.blocks[k], Stored(histories[j]))
    ensures var b := sources[j].file.blocks[k]; b.sampleOffset <= r < b.sampleOffset + b.sampleCount
  {
    SourceStored(sources, histories, j);
    k := RowOver(sources[j].file.blocks, |Stored(histories[j])|, r);
  }
}
