/** Reading a Capture file back: the identities of its samples, and the
    structural validator that every later stage relies on. */
module CaptureReader {
  import opened Options
  import opened Capture

  /** Unsigned columns of the block table. */
  ghost predicate WellTyped(blocks: seq<Block>) {
    forall k :: 0 <= k < |blocks| ==> blocks[k].sampleCount >= 0 && blocks[k].firstSeq >= 0
  }

  function EndOf(b: Block): int { b.sampleOffset + b.sampleCount }

  function LastSeq(b: Block): int { b.firstSeq + b.sampleCount - 1 }

  ghost predicate BlocksTile(blocks: seq<Block>, n: int) {
    && (forall k :: 0 <= k < |blocks| ==> blocks[k].sampleCount > 0)
    && (forall k :: 0 < k < |blocks| ==> blocks[k].sampleOffset == EndOf(blocks[k - 1]))
    && (if blocks == [] then n == 0 else blocks[0].sampleOffset == 0 && EndOf(blocks[|blocks| - 1]) == n)
  }

  /** Within each boot, later blocks hold later samples. */
  ghost predicate StreamOrdered(blocks: seq<Block>) {
    forall j, k :: 0 <= j < k < |blocks| && blocks[j].bootEpoch == blocks[k].bootEpoch ==>
      LastSeq(blocks[j]) < blocks[k].firstSeq
  }

  predicate DeviceTimeOk(b: Block) {
    b.sampleCount > 1 && b.firstDeviceUs > 0 ==> b.firstDeviceUs < b.lastDeviceUs
  }

  predicate UtcComplete(b: Block) {
    b.firstUtcNs < 0 <==> b.lastUtcNs < 0
  }

  predicate UtcOk(b: Block) {
    UtcComplete(b) && (b.sampleCount > 1 && b.firstUtcNs >= 0 ==> b.firstUtcNs < b.lastUtcNs)
  }

  ghost predicate ValidCapture(f: File, configurations: nat) {
    && BlocksTile(f.blocks, |f.raw|)
    && StreamOrdered(f.blocks)
    && (forall k :: 0 <= k < |f.blocks| ==> DeviceTimeOk(f.blocks[k]) && UtcOk(f.blocks[k]))
    && (forall i :: 0 <= i < |f.raw| ==> Signed24(f.raw[i]))
    && configurations > 0
  }

  // ----- the one-pass validator -----

  datatype Error = ZeroSamples(block: nat) | WrongOffset(block: nat) | NotStreamOrdered(block: nat)
                 | DeviceTime(block: nat) | IncompleteUtc(block: nat) | Utc(block: nat)
                 | Coverage(covered: int) | OutsideSigned24 | NoConfiguration

  function OffsetBefore(blocks: seq<Block>, k: nat): int
    requires k <= |blocks|
  {
    if k == 0 then 0 else EndOf(blocks[k - 1])
  }

  ghost predicate LaterThanEarlier(blocks: seq<Block>, k: nat)
    requires k < |blocks|
  {
    forall j :: 0 <= j < k && blocks[j].bootEpoch == blocks[k].bootEpoch ==> LastSeq(blocks[j]) < blocks[k].firstSeq
  }

  /** Everything the pass checks at block k. */
  ghost predicate BlockOk(blocks: seq<Block>, k: nat)
    requires k < |blocks|
  {
    && blocks[k].sampleCount > 0
    && blocks[k].sampleOffset == OffsetBefore(blocks, k)
    && LaterThanEarlier(blocks, k)
    && DeviceTimeOk(blocks[k]) && UtcOk(blocks[k])
  }

  ghost predicate AllOk(blocks: seq<Block>, n: nat)
    requires n <= |blocks|
  {
    n == 0 || (AllOk(blocks, n - 1) && BlockOk(blocks, n - 1))
  }

  lemma {:induction false} AllOkEach(blocks: seq<Block>, n: nat)
    requires n <= |blocks|
    ensures AllOk(blocks, n) <==> forall k :: 0 <= k < n ==> BlockOk(blocks, k)
  {
    if n > 0 {
      AllOkEach(blocks, n - 1);
    }
  }

  /** The map holds, per boot, the largest last sequence seen so far. */
  ghost predicate Tracks(last: map<int, int>, blocks: seq<Block>, n: nat)
    requires n <= |blocks|
  {
    && (forall k :: 0 <= k < n ==> blocks[k].bootEpoch in last && LastSeq(blocks[k]) <= last[blocks[k].bootEpoch])
    && (forall boot :: boot in last ==>
         exists k :: 0 <= k < n && blocks[k].bootEpoch == boot && LastSeq(blocks[k]) == last[boot])
  }

  method CheckBlock(blocks: seq<Block>, k: nat, expectedOffset: int, last: map<int, int>)
    returns (errors: seq<Error>, last': map<int, int>)
    requires k < |blocks| && WellTyped(blocks)
    requires expectedOffset == OffsetBefore(blocks, k)
    requires Tracks(last, blocks, k)
    ensures errors == [] <==> BlockOk(blocks, k)
    ensures Tracks(last', blocks, k + 1)
  {
    errors := [];
    var b := blocks[k];
    if b.sampleCount <= 0 {
      errors := errors + [ZeroSamples(k)];
    }
    if b.sampleOffset != expectedOffset {
      errors := errors + [WrongOffset(k)];
    }
    if b.bootEpoch in last && b.firstSeq <= last[b.bootEpoch] {
      errors := errors + [NotStreamOrdered(k)];
    }
    var previous := if b.bootEpoch in last then last[b.bootEpoch] else -1;
    last' := last[b.bootEpoch := Max(previous, b.firstSeq + Max(0, b.sampleCount) - 1)];
    if b.sampleCount > 1 && b.firstDeviceUs > 0 && b.lastDeviceUs <= b.firstDeviceUs {
      errors := errors + [DeviceTime(k)];
    }
    if (b.firstUtcNs < 0) != (b.lastUtcNs < 0) {
      errors := errors + [IncompleteUtc(k)];
    }
    if b.sampleCount > 1 && b.firstUtcNs >= 0 && b.lastUtcNs <= b.firstUtcNs {
      errors := errors + [Utc(k)];
    }
    TrackStep(last, blocks, k, last');
    TrackedOrder(last, blocks, k);
  }

  /** Looking at the map is as good as looking at every earlier block. */
  lemma TrackedOrder(last: map<int, int>, blocks: seq<Block>, k: nat)
    requires k < |blocks| && Tracks(last, blocks, k)
    ensures LaterThanEarlier(blocks, k) <==>
            !(blocks[k].bootEpoch in last && blocks[k].firstSeq <= last[blocks[k].bootEpoch])
  {
    if blocks[k].bootEpoch in last {
      var j :| 0 <= j < k && blocks[j].bootEpoch == blocks[k].bootEpoch
        && LastSeq(blocks[j]) == last[blocks[k].bootEpoch];
    }
  }

  lemma TrackStep(last: map<int, int>, blocks: seq<Block>, k: nat, last': map<int, int>)
    requires k < |blocks| && WellTyped(blocks)
    requires Tracks(last, blocks, k)
    requires var b := blocks[k];
             last' == last[b.bootEpoch := Max(if b.bootEpoch in last then last[b.bootEpoch] else -1, LastSeq(b))]
    ensures Tracks(last', blocks, k + 1)
  {
    forall boot | boot in last'
      ensures exists j :: 0 <= j < k + 1 && blocks[j].bootEpoch == boot && LastSeq(blocks[j]) == last'[boot]
    {
      if boot == blocks[k].bootEpoch && last'[boot] == LastSeq(blocks[k]) {
      } else {
        assert boot in last && last'[boot] == last[boot];
        var j :| 0 <= j < k && blocks[j].bootEpoch == boot && LastSeq(blocks[j]) == last[boot];
        assert j < k + 1;
      }
    }
  }

  method CheckBlocks(f: File) returns (errors: seq<Error>)
    requires WellTyped(f.blocks)
    ensures errors == [] <==> AllOk(f.blocks, |f.blocks|) && OffsetBefore(f.blocks, |f.blocks|) == |f.raw|
  {
    errors := [];
    var expectedOffset := 0;
    var last: map<int, int> := map[];
    for k := 0 to |f.blocks|
      invariant expectedOffset == OffsetBefore(f.blocks, k)
      invariant Tracks(last, f.blocks, k)
      invariant errors == [] <==> AllOk(f.blocks, k)
    {
      var found, last' := CheckBlock(f.blocks, k, expectedOffset, last);
      errors := errors + found;
      last := last';
      expectedOffset := f.blocks[k].sampleOffset + f.blocks[k].sampleCount;
    }
    if expectedOffset != |f.raw| {
      errors := errors + [Coverage(expectedOffset)];
    }
  }

  /** No error is reported exactly for the valid files. */
  method Validate(f: File, configurations: nat) returns (errors: seq<Error>)
    requires WellTyped(f.blocks)
    ensures errors == [] <==> ValidCapture(f, configurations)
  {
    errors := CheckBlocks(f);
    ChecksAreValidity(f.blocks, |f.raw|);
    var inRange := true;
    for i := 0 to |f.raw|
      invariant inRange <==> forall j :: 0 <= j < i ==> Signed24(f.raw[j])
    {
      if !Signed24(f.raw[i]) {
        inRange := false;
      }
    }
    if !inRange {
      errors := errors + [OutsideSigned24];
    }
    if configurations == 0 {
      errors := errors + [NoConfiguration];
    }
  }

  lemma ChecksAreValidity(blocks: seq<Block>, n: int)
    ensures AllOk(blocks, |blocks|) && OffsetBefore(blocks, |blocks|) == n
            <==> (&& BlocksTile(blocks, n) && StreamOrdered(blocks)
                  && forall k :: 0 <= k < |blocks| ==> DeviceTimeOk(blocks[k]) && UtcOk(blocks[k]))
  {
    AllOkEach(blocks, |blocks|);
    if AllOk(blocks, |blocks|) {
      forall k | 0 < k < |blocks|
        ensures blocks[k].sampleOffset == EndOf(blocks[k - 1])
      {
        assert BlockOk(blocks, k);
      }
      forall j, k | 0 <= j < k < |blocks| && blocks[j].bootEpoch == blocks[k].bootEpoch
        ensures LastSeq(blocks[j]) < blocks[k].firstSeq
      {
        assert BlockOk(blocks, k);
      }
      forall k | 0 <= k < |blocks|
        ensures blocks[k].sampleCount > 0 && DeviceTimeOk(blocks[k]) && UtcOk(blocks[k])
        ensures blocks[0].sampleOffset == 0
      {
        assert BlockOk(blocks, k) && BlockOk(blocks, 0);
      }
    }
  }

  // ----- what a valid file guarantees -----

  ghost predicate Distinct<T>(s: seq<T>) {
    forall i, j :: 0 <= i < j < |s| ==> s[i] != s[j]
  }

  lemma InitTile(blocks: seq<Block>, n: int)
    requires BlocksTile(blocks, n) && blocks != []
    ensures BlocksTile(blocks[..|blocks| - 1], blocks[|blocks| - 1].sampleOffset)
  {
    var init := blocks[..|blocks| - 1];
    forall k | 0 < k < |init|
      ensures init[k].sampleOffset == EndOf(init[k - 1])
    {
      assert init[k] == blocks[k] && init[k - 1] == blocks[k - 1];
    }
  }

  lemma {:induction false} TilingCounts(blocks: seq<Block>, n: int)
    requires BlocksTile(blocks, n)
    ensures |AllKeys(blocks)| == n
  {
    if blocks != [] {
      InitTile(blocks, n);
      TilingCounts(blocks[..|blocks| - 1], blocks[|blocks| - 1].sampleOffset);
    }
  }

  lemma {:induction false} KeyHasBlock(blocks: seq<Block>, key: Key) returns (k: nat)
    requires CountsValid(blocks) && key in AllKeys(blocks)
    ensures k < |blocks| && key.boot == blocks[k].bootEpoch && blocks[k].firstSeq <= key.sampleSeq <= LastSeq(blocks[k])
  {
    var n := |blocks| - 1;
    if key in BlockKeys(blocks[n]) {
      k := n;
    } else {
      k := KeyHasBlock(blocks[..n], key);
    }
  }

  /** Within each boot, later samples have later sequence numbers. */
  ghost predicate Ascending(keys: seq<Key>) {
    forall i, j :: 0 <= i < j < |keys| && keys[i].boot == keys[j].boot ==> keys[i].sampleSeq < keys[j].sampleSeq
  }

  lemma {:induction false} OrderedBlocksAscend(blocks: seq<Block>)
    requires CountsValid(blocks) && StreamOrdered(blocks)
    ensures Ascending(AllKeys(blocks))
  {
    if blocks != [] {
      var n := |blocks| - 1;
      var init, own := AllKeys(blocks[..n]), BlockKeys(blocks[n]);
      OrderedBlocksAscend(blocks[..n]);
      forall i, j | 0 <= i < |init| && 0 <= j < |own| && init[i].boot == own[j].boot
        ensures init[i].sampleSeq < own[j].sampleSeq
      {
        var k := KeyHasBlock(blocks[..n], init[i]);
        assert blocks[..n][k] == blocks[k];
      }
    }
  }

  /** What the validator checks block by block is the order of the samples. */
  lemma StreamOrderIsSampleOrder(blocks: seq<Block>, n: int)
    requires BlocksTile(blocks, n)
    ensures StreamOrdered(blocks) <==> Ascending(AllKeys(blocks))
  {
    if StreamOrdered(blocks) {
      OrderedBlocksAscend(blocks);
    }
    if Ascending(AllKeys(blocks)) {
      forall j, k | 0 <= j < k < |blocks| && blocks[j].bootEpoch == blocks[k].bootEpoch
        ensures LastSeq(blocks[j]) < blocks[k].firstSeq
      {
        KeyAt(blocks, n, j, blocks[j].sampleCount - 1);
        KeyAt(blocks, n, k, 0);
        OffsetsAscend(blocks, n, j, k);
      }
    }
  }

  lemma {:induction false} OffsetsAscend(blocks: seq<Block>, n: int, j: nat, k: nat)
    requires BlocksTile(blocks, n) && j < k < |blocks|
    ensures EndOf(blocks[j]) <= blocks[k].sampleOffset
    decreases k
  {
    if j < k - 1 {
      OffsetsAscend(blocks, n, j, k - 1);
    }
  }

  /** In a valid file the blocks partition the raw rows, the samples of each
      boot are in order, and no sample identity occurs twice. */
  lemma ValidCaptureIdentities(f: File, configurations: nat)
    requires ValidCapture(f, configurations)
    ensures CountsValid(f.blocks)
    ensures |AllKeys(f.blocks)| == |f.raw|
    ensures Ascending(AllKeys(f.blocks)) && Distinct(AllKeys(f.blocks))
  {
    TilingCounts(f.blocks, |f.raw|);
    OrderedBlocksAscend(f.blocks);
  }

  // ----- reading identities -----

  lemma {:induction false} KeyAt(blocks: seq<Block>, n: int, k: nat, i: nat)
    requires BlocksTile(blocks, n) && k < |blocks| && i < blocks[k].sampleCount
    ensures |AllKeys(blocks)| == n
    ensures 0 <= blocks[k].sampleOffset && blocks[k].sampleOffset + i < n
    ensures AllKeys(blocks)[blocks[k].sampleOffset + i] == Key(blocks[k].bootEpoch, blocks[k].firstSeq + i)
    decreases |blocks|
  {
    TilingCounts(blocks, n);
    InitTile(blocks, n);
    var m := |blocks| - 1;
    TilingCounts(blocks[..m], blocks[m].sampleOffset);
    if k < m {
      KeyAt(blocks[..m], blocks[m].sampleOffset, k, i);
    }
  }

  predicate Covers(b: Block, i: int) { b.sampleOffset <= i < b.sampleOffset + b.sampleCount }

  /** The identity of row i: that of the last block that covers it, if any. */
  function ReadBack(blocks: seq<Block>, i: int): Option<Key> {
    if blocks == [] then None
    else
      var b := blocks[|blocks| - 1];
      if Covers(b, i) then Some(Key(b.bootEpoch, b.firstSeq + (i - b.sampleOffset)))
      else ReadBack(blocks[..|blocks| - 1], i)
  }

  /** Assigning a range of several numbers fails if the rows end before it does. */
  predicate Fits(b: Block, n: int) { b.sampleCount <= 1 || EndOf(b) <= n }

  /** In a tiled file every row is read back as what the blocks say of it. */
  lemma {:induction false} ReadBackTiled(blocks: seq<Block>, n: int, i: nat)
    requires BlocksTile(blocks, n) && i < n
    ensures |AllKeys(blocks)| == n && ReadBack(blocks, i) == Some(AllKeys(blocks)[i])
    ensures forall k :: 0 <= k < |blocks| ==> Fits(blocks[k], n)
  {
    TilingCounts(blocks, n);
    var m := |blocks| - 1;
    InitTile(blocks, n);
    TilingCounts(blocks[..m], blocks[m].sampleOffset);
    if Covers(blocks[m], i) {
      KeyAt(blocks, n, m, i - blocks[m].sampleOffset);
    } else {
      ReadBackTiled(blocks[..m], blocks[m].sampleOffset, i);
    }
    forall k | 0 <= k < |blocks|
      ensures Fits(blocks[k], n)
    {
      KeyAt(blocks, n, k, blocks[k].sampleCount - 1);
    }
  }

  /** Every covered row is filled with the identity read back for it; what an
      uncovered row holds is left open. */
  method SampleIdentity(f: File) returns (ok: bool, boots: array<int>, sequences: array<int>)
    requires forall k :: 0 <= k < |f.blocks| ==> f.blocks[k].sampleOffset >= 0 && f.blocks[k].sampleCount >= 0
    ensures ok <==> forall k :: 0 <= k < |f.blocks| ==> Fits(f.blocks[k], |f.raw|)
    ensures boots.Length == sequences.Length == |f.raw|
    ensures ok ==> forall i :: 0 <= i < |f.raw| && ReadBack(f.blocks, i).Some? ==>
                     Some(Key(boots[i], sequences[i])) == ReadBack(f.blocks, i)
  {
    var n := |f.raw|;
    boots, sequences := new int[n], new int[n];
    for k := 0 to |f.blocks|
      invariant forall j :: 0 <= j < k ==> Fits(f.blocks[j], n)
      invariant forall i :: 0 <= i < n && ReadBack(f.blocks[..k], i).Some? ==>
                  Some(Key(boots[i], sequences[i])) == ReadBack(f.blocks[..k], i)
    {
      var b := f.blocks[k];
      assert f.blocks[..k + 1][..k] == f.blocks[..k];
      if !Fits(b, n) {
        return false, boots, sequences;
      }
      for i := 0 to b.sampleCount
        invariant forall j :: 0 <= j < n && b.sampleOffset <= j < b.sampleOffset + i ==>
                    Key(boots[j], sequences[j]) == Key(b.bootEpoch, b.firstSeq + (j - b.sampleOffset))
        invariant forall j | 0 <= j < n && !(b.sampleOffset <= j < b.sampleOffset + i) ::
                    ReadBack(f.blocks[..k], j).Some? ==> Some(Key(boots[j], sequences[j])) == ReadBack(f.blocks[..k], j)
      {
        if b.sampleOffset + i < n {
          boots[b.sampleOffset + i] := b.bootEpoch;
          sequences[b.sampleOffset + i] := b.firstSeq + i;
        }
      }
    }
    assert f.blocks[..|f.blocks|] == f.blocks;
    ok := true;
  }
}
