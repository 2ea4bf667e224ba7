/** The burst and commit protocol of the recorder: packets may be lost, doubled
    or reordered, commit requests and replies may be lost, storage may fail, and
    the node may resend what it has not committed. */
module BurstProtocol {
  import opened Selections
  import opened Capture
  import opened CaptureReader
  import opened CaptureRuns

  datatype Packet = Packet(boot: int, firstSeq: int, count: nat, packetSeq: int)

  datatype Gap = Gap(boot: int, expected: int, received: int, packetSeq: int)

  /** What the recorder does towards storage and node, in order. */
  datatype Action = Wrote(samples: nat) | Flushed | CommitSent(upTo: int)

  /** How the commit of a burst ends. The node answers with the cursor it now
      has; the request or the reply may be lost. */
  datatype Commit = RequestLost | ReplyLost(cursor: int) | Replied(cursor: int)

  /** How a burst ends: nothing arrives, storage fails after keeping some of the
      new samples, those at the positions `kept`, or the batch is written, flushed
      and committed. */
  datatype Burst =
    | Silent
    | StorageFailure(packets: seq<Packet>, kept: set<nat>)
    | Delivery(packets: seq<Packet>, commit: Commit)

  datatype State = State(
    start: int,          // the first sequence number this recording is to cover
    expected: int,
    committed: int,      // the recorder's view of the node's cursor
    nodeCursor: int,     // the node's own cursor
    store: seq<Key>,     // identities in the order they were stored
    gaps: seq<Gap>,
    trace: seq<Action>)

  function PacketKeys(p: Packet): (keys: seq<Key>)
    ensures |keys| == p.count
  {
    seq(p.count, i => Key(p.boot, p.firstSeq + i))
  }

  /** The pass over the packets of one burst. */
  datatype Scan = Scan(gaps: seq<Gap>, batch: seq<Key>, expected: int)

  function ScanPacket(sc: Scan, p: Packet): Scan {
    Scan(
      if p.firstSeq != sc.expected then sc.gaps + [Gap(p.boot, sc.expected, p.firstSeq, p.packetSeq)] else sc.gaps,
      sc.batch + PacketKeys(p),
      p.firstSeq + p.count)
  }

  function ScanPackets(st: State, packets: seq<Packet>): Scan {
    if packets == [] then Scan(st.gaps, [], st.expected)
    else ScanPacket(ScanPackets(st, packets[..|packets| - 1]), packets[|packets| - 1])
  }

  /** What the writer stores of a batch: the identities it has not stored in an
      earlier call. */
  function NewKeys(batch: seq<Key>, stored: set<Key>): seq<Key> {
    if batch == [] then []
    else NewKeys(batch[..|batch| - 1], stored) + (if batch[|batch| - 1] in stored then [] else [batch[|batch| - 1]])
  }

  /** The keys at some positions, in order. */
  function Kept(keys: seq<Key>, positions: set<nat>): seq<Key> {
    if keys == [] then []
    else Kept(keys[..|keys| - 1], positions) + (if |keys| - 1 in positions then [keys[|keys| - 1]] else [])
  }

  function StoredSet(st: State): set<Key> { set key | key in st.store }

  function Step(st: State, b: Burst): State {
    match b
    case Silent => st
    case StorageFailure(packets, kept) =>
      if packets == [] then st
      else
        var sc := ScanPackets(st, packets);
        var novel := NewKeys(sc.batch, StoredSet(st));
        st.(gaps := sc.gaps, store := st.store + Kept(novel, kept))
    case Delivery(packets, commit) =>
      if packets == [] then st
      else
        var filed := Filed(st, packets);
        match commit
        case RequestLost => filed
        case ReplyLost(cursor) => filed.(nodeCursor := cursor)
        case Replied(cursor) => filed.(nodeCursor := cursor, committed := cursor, expected := cursor + 1)
  }

  /** The packets scanned, written and flushed, and the commit request sent. */
  function Filed(st: State, packets: seq<Packet>): State {
    var sc := ScanPackets(st, packets);
    st.(gaps := sc.gaps,
        store := st.store + NewKeys(sc.batch, StoredSet(st)),
        trace := st.trace + [Wrote(|sc.batch|), Flushed] + [CommitSent(sc.expected - 1)])
  }

  /** What the commit request at the end of a trace asks for. */
  function Requested(trace: seq<Action>): int
    requires trace != [] && trace[|trace| - 1].CommitSent?
  {
    trace[|trace| - 1].upTo
  }

  /** The node never confirms more than the larger of what it had committed and
      what the request it has received asked for. */
  ghost predicate NodeHonest(st: State, b: Burst) {
    b.Delivery? && b.packets != [] && !b.commit.RequestLost? ==>
      b.commit.cursor <= Max(st.nodeCursor, Requested(Filed(st, b.packets).trace))
  }

  // ----- what a burst is and what it does, packet by packet -----

  /** The number that packet i should begin with. */
  function Due(st: State, packets: seq<Packet>, i: nat): int
    requires i < |packets|
  {
    if i == 0 then st.expected else packets[i - 1].firstSeq + packets[i - 1].count
  }

  /** The gaps noted are, in order, those before the packets at these positions. */
  ghost predicate GapsBefore(st: State, packets: seq<Packet>, noted: seq<Gap>, at: seq<nat>) {
    && |at| == |noted| && Positions(at, |packets|)
    && forall j :: 0 <= j < |at| ==>
        && noted[j].boot == packets[at[j]].boot && noted[j].packetSeq == packets[at[j]].packetSeq
        && noted[j].expected == Due(st, packets, at[j]) && noted[j].received == packets[at[j]].firstSeq
  }

  function GapAt(st: State, packets: seq<Packet>, i: nat): Gap
    requires i < |packets|
  {
    Gap(packets[i].boot, Due(st, packets, i), packets[i].firstSeq, packets[i].packetSeq)
  }

  lemma GapsBeforeMore(st: State, packets: seq<Packet>, noted: seq<Gap>, at: seq<nat>)
    requires packets != [] && GapsBefore(st, packets[..|packets| - 1], noted, at)
    ensures GapsBefore(st, packets, noted, at)
    ensures GapsBefore(st, packets, noted + [GapAt(st, packets, |packets| - 1)], at + [|packets| - 1])
  {
    var n := |packets| - 1;
    assert forall i: nat :: i < n ==> Due(st, packets[..n], i) == Due(st, packets, i);
  }

  lemma {:induction false} ScanExpects(st: State, packets: seq<Packet>)
    ensures ScanPackets(st, packets).expected == if packets == [] then st.expected else LastNumber(packets) + 1
  {
  }

  lemma LastScanned(st: State, packets: seq<Packet>)
    requires packets != []
    ensures var n := |packets| - 1;
            ScanPackets(st, packets).gaps
            == ScanPackets(st, packets[..n]).gaps
               + if packets[n].firstSeq != Due(st, packets, n) then [GapAt(st, packets, n)] else []
  {
    ScanExpects(st, packets[..|packets| - 1]);
  }

  /** These are all packets that do not begin where they should. */
  ghost predicate OutOfSequence(st: State, packets: seq<Packet>, at: seq<nat>) {
    forall i: nat :: i in at <==> i < |packets| && packets[i].firstSeq != Due(st, packets, i)
  }

  lemma OutOfSequenceMore(st: State, packets: seq<Packet>, at: seq<nat>)
    requires packets != [] && OutOfSequence(st, packets[..|packets| - 1], at)
    ensures var n := |packets| - 1;
            OutOfSequence(st, packets, at + if packets[n].firstSeq != Due(st, packets, n) then [n] else [])
  {
    var n := |packets| - 1;
    var own := if packets[n].firstSeq != Due(st, packets, n) then [n] else [];
    forall i: nat
      ensures i in at + own <==> i < |packets| && packets[i].firstSeq != Due(st, packets, i)
    {
      assert i in at <==> i < n && packets[i].firstSeq != Due(st, packets[..n], i);
    }
  }

  /** The scan notes a gap before each packet that does not begin where it should,
      in order. */
  lemma {:induction false} ScanNotes(st: State, packets: seq<Packet>) returns (noted: seq<Gap>, at: seq<nat>)
    ensures ScanPackets(st, packets).gaps == st.gaps + noted
    ensures GapsBefore(st, packets, noted, at) && OutOfSequence(st, packets, at)
  {
    if packets == [] {
      noted, at := [], [];
    } else {
      var n := |packets| - 1;
      noted, at := ScanNotes(st, packets[..n]);
      GapsBeforeMore(st, packets, noted, at);
      LastScanned(st, packets);
      OutOfSequenceMore(st, packets, at);
      assert at + [] == at;
      if packets[n].firstSeq != Due(st, packets, n) {
        noted, at := noted + [GapAt(st, packets, n)], at + [n];
      }
    }
  }

  function LastNumber(packets: seq<Packet>): int
    requires packets != []
  {
    packets[|packets| - 1].firstSeq + packets[|packets| - 1].count - 1
  }

  /** How many samples some packets carry. */
  function CountOf(packets: seq<Packet>): nat {
    if packets == [] then 0 else CountOf(packets[..|packets| - 1]) + packets[|packets| - 1].count
  }

  /** The batch holds the samples of the packets one after the other. */
  lemma {:induction false} BatchInOrder(st: State, packets: seq<Packet>, i: nat, j: nat)
    requires i < |packets| && j < packets[i].count
    ensures |ScanPackets(st, packets).batch| == CountOf(packets)
    ensures CountOf(packets[..i]) + j < CountOf(packets)
    ensures ScanPackets(st, packets).batch[CountOf(packets[..i]) + j] == Key(packets[i].boot, packets[i].firstSeq + j)
  {
    var n := |packets| - 1;
    BatchSize(st, packets);
    BatchSize(st, packets[..n]);
    if i < n {
      BatchInOrder(st, packets[..n], i, j);
      assert packets[..n][..i] == packets[..i];
    }
  }

  lemma {:induction false} BatchSize(st: State, packets: seq<Packet>)
    ensures |ScanPackets(st, packets).batch| == CountOf(packets)
  {
    if packets != [] {
      BatchSize(st, packets[..|packets| - 1]);
    }
  }

  /** A delivered burst is written, flushed, and then committed up to the last
      number received. */
  lemma DeliveryTrace(st: State, packets: seq<Packet>, commit: Commit)
    requires packets != []
    ensures Step(st, Delivery(packets, commit)).trace
            == st.trace + [Wrote(CountOf(packets)), Flushed, CommitSent(LastNumber(packets))]
  {
    BatchSize(st, packets);
    ScanExpects(st, packets);
    assert [Wrote(CountOf(packets)), Flushed] + [CommitSent(LastNumber(packets))]
      == [Wrote(CountOf(packets)), Flushed, CommitSent(LastNumber(packets))];
  }

  /** The cursor of the last reply that arrived, or the first one. */
  function LastReplied(first: int, bursts: seq<Burst>): int {
    if bursts == [] then first
    else
      match bursts[|bursts| - 1]
      case Delivery(packets, Replied(cursor)) =>
        if packets != [] then cursor else LastReplied(first, bursts[..|bursts| - 1])
      case _ => LastReplied(first, bursts[..|bursts| - 1])
  }

  /** The cursor the node last had. */
  function LastConfirmed(first: int, bursts: seq<Burst>): int {
    if bursts == [] then first
    else
      var b := bursts[|bursts| - 1];
      if b.Delivery? && b.packets != [] && !b.commit.RequestLost? then b.commit.cursor
      else LastConfirmed(first, bursts[..|bursts| - 1])
  }

  ghost predicate SomeReply(bursts: seq<Burst>) {
    exists n :: 0 <= n < |bursts| && Replies(bursts[n])
  }

  predicate Replies(b: Burst) { b.Delivery? && b.packets != [] && b.commit.Replied? }

  /** Through a run the recorder's cursor is that of the last reply, the node's that
      of the last request it has got, and the recorder expects the number after its
      cursor once it has had a reply. */
  lemma {:induction false} RunCursors(st: State, bursts: seq<Burst>)
    ensures var st' := Run(st, bursts);
            && st'.committed == LastReplied(st.committed, bursts)
            && st'.nodeCursor == LastConfirmed(st.nodeCursor, bursts)
            && st'.expected == if SomeReply(bursts) then st'.committed + 1 else st.expected
  {
    if bursts != [] {
      var n := |bursts| - 1;
      RunCursors(st, bursts[..n]);
      assert SomeReply(bursts) <==> SomeReply(bursts[..n]) || Replies(bursts[n]) by {
        assert forall m :: 0 <= m < n ==> bursts[..n][m] == bursts[m];
      }
    }
  }

  // ----- safety -----

  /** Which boots are looked at: all of them, or one. */
  type Boots = int -> bool

  function AnyBoot(): Boots { (boot: int) => true }

  function Only(boot: int): Boots { (other: int) => other == boot }

  /** A sample of that number and such a boot is stored, or a gap noted for such a
      boot covers it. */
  ghost predicate Accounted(boots: Boots, store: seq<Key>, gaps: seq<Gap>, q: int) {
    || (exists boot :: boots(boot) && Key(boot, q) in store)
    || (exists g :: g in gaps && boots(g.boot) && g.expected <= q < g.received)
  }

  ghost predicate AccountedTo(boots: Boots, from: int, store: seq<Key>, gaps: seq<Gap>, limit: int) {
    forall q :: from <= q < limit ==> Accounted(boots, store, gaps, q)
  }

  /** Everything from a number up to either cursor is stored or in a gap. */
  ghost predicate Safe(boots: Boots, from: int, st: State) {
    && AccountedTo(boots, from, st.store, st.gaps, st.expected)
    && AccountedTo(boots, from, st.store, st.gaps, st.committed + 1)
    && AccountedTo(boots, from, st.store, st.gaps, st.nodeCursor + 1)
  }

  ghost predicate FromBoots(boots: Boots, packets: seq<Packet>) {
    forall p :: p in packets ==> boots(p.boot)
  }

  /** A commit request directly follows the flush of the write it is for. */
  ghost predicate CommitsFollowFlush(trace: seq<Action>) {
    forall i :: 0 <= i < |trace| && trace[i].CommitSent? ==> i >= 2 && trace[i - 1] == Flushed && trace[i - 2].Wrote?
  }

  /** Every commit request asked for no more than what is accounted for. */
  ghost predicate CommitsAccounted(boots: Boots, from: int, st: State) {
    forall i :: 0 <= i < |st.trace| && st.trace[i].CommitSent? ==>
      AccountedTo(boots, from, st.store, st.gaps, st.trace[i].upTo + 1)
  }

  lemma AccountedMore(boots: Boots, store: seq<Key>, gaps: seq<Gap>, store': seq<Key>, gaps': seq<Gap>, q: int)
    requires Accounted(boots, store, gaps, q)
    requires forall key :: key in store ==> key in store'
    requires gaps <= gaps'
    ensures Accounted(boots, store', gaps', q)
  {
    if exists boot :: boots(boot) && Key(boot, q) in store {
      var boot :| boots(boot) && Key(boot, q) in store;
      assert Key(boot, q) in store';
    } else {
      var g :| g in gaps && boots(g.boot) && g.expected <= q < g.received;
      assert g in gaps';
    }
  }

  /** After the packets scanned so far, everything before the next expected
      sequence number is in the store, in the batch or in a gap; a packet that
      steps back only lowers that limit. */
  lemma {:induction false} ScanAccounts(boots: Boots, from: int, st: State, packets: seq<Packet>)
    requires AccountedTo(boots, from, st.store, st.gaps, st.expected) && FromBoots(boots, packets)
    ensures var sc := ScanPackets(st, packets);
            st.gaps <= sc.gaps && AccountedTo(boots, from, st.store + sc.batch, sc.gaps, sc.expected)
  {
    if packets == [] {
      assert st.store + [] == st.store;
    } else {
      var n := |packets| - 1;
      ScanAccounts(boots, from, st, packets[..n]);
      assert packets[n] in packets;
      PacketAccounts(boots, from, st.store, ScanPackets(st, packets[..n]), packets[n]);
    }
  }

  lemma PacketAccounts(boots: Boots, from: int, store: seq<Key>, sc: Scan, p: Packet)
    requires boots(p.boot) && AccountedTo(boots, from, store + sc.batch, sc.gaps, sc.expected)
    ensures var sc' := ScanPacket(sc, p);
            sc.gaps <= sc'.gaps && AccountedTo(boots, from, store + sc'.batch, sc'.gaps, sc'.expected)
  {
    var sc' := ScanPacket(sc, p);
    forall q | from <= q < sc'.expected
      ensures Accounted(boots, store + sc'.batch, sc'.gaps, q)
    {
      if q >= p.firstSeq {
        assert PacketKeys(p)[q - p.firstSeq] == Key(p.boot, q);
        assert Key(p.boot, q) in store + sc'.batch;
      } else if q < sc.expected {
        AccountedMore(boots, store + sc.batch, sc.gaps, store + sc'.batch, sc'.gaps, q);
      } else {
        var g := Gap(p.boot, sc.expected, p.firstSeq, p.packetSeq);
        assert g in sc'.gaps;
      }
    }
  }

  lemma {:induction false} NewKeysMembers(batch: seq<Key>, stored: set<Key>, key: Key)
    ensures key in NewKeys(batch, stored) <==> key in batch && key !in stored
  {
    if batch != [] {
      NewKeysMembers(batch[..|batch| - 1], stored, key);
      assert batch == batch[..|batch| - 1] + [batch[|batch| - 1]];
    }
  }

  lemma AccountedToMore(
    boots: Boots, from: int, store: seq<Key>, gaps: seq<Gap>, store': seq<Key>, gaps': seq<Gap>, limit: int)
    requires AccountedTo(boots, from, store, gaps, limit)
    requires forall key :: key in store ==> key in store'
    requires gaps <= gaps'
    ensures AccountedTo(boots, from, store', gaps', limit)
  {
    forall q | from <= q < limit
      ensures Accounted(boots, store', gaps', q)
    {
      AccountedMore(boots, store, gaps, store', gaps', q);
    }
  }

  lemma StepSafe(boots: Boots, from: int, st: State, b: Burst)
    requires Safe(boots, from, st) && NodeHonest(st, b) && (b.Silent? || FromBoots(boots, b.packets))
    ensures Safe(boots, from, Step(st, b))
  {
    if !b.Silent? && b.packets != [] {
      var sc := ScanPackets(st, b.packets);
      var store' := Step(st, b).store;
      ScanAccounts(boots, from, st, b.packets);
      AccountedToMore(boots, from, st.store, st.gaps, store', sc.gaps, st.expected);
      AccountedToMore(boots, from, st.store, st.gaps, store', sc.gaps, st.committed + 1);
      AccountedToMore(boots, from, st.store, st.gaps, store', sc.gaps, st.nodeCursor + 1);
      if b.Delivery? {
        forall key | key in st.store + sc.batch
          ensures key in store'
        {
          NewKeysMembers(sc.batch, StoredSet(st), key);
        }
        AccountedToMore(boots, from, st.store + sc.batch, sc.gaps, store', sc.gaps, sc.expected);
      }
    }
  }

  lemma CommitStaysAccounted(boots: Boots, from: int, st: State, b: Burst, i: nat)
    requires Safe(boots, from, st) && CommitsAccounted(boots, from, st) && (b.Silent? || FromBoots(boots, b.packets))
    requires i < |Step(st, b).trace| && Step(st, b).trace[i].CommitSent?
    ensures AccountedTo(boots, from, Step(st, b).store, Step(st, b).gaps, Step(st, b).trace[i].upTo + 1)
  {
    if !b.Silent? && b.packets != [] {
      var sc, st' := ScanPackets(st, b.packets), Step(st, b);
      ScanAccounts(boots, from, st, b.packets);
      if i < |st.trace| {
        AccountedToMore(boots, from, st.store, st.gaps, st'.store, st'.gaps, st.trace[i].upTo + 1);
      } else {
        forall key | key in st.store + sc.batch
          ensures key in st'.store
        {
          NewKeysMembers(sc.batch, StoredSet(st), key);
        }
        AccountedToMore(boots, from, st.store + sc.batch, sc.gaps, st'.store, st'.gaps, sc.expected);
      }
    }
  }

  function Run(st: State, bursts: seq<Burst>): State {
    if bursts == [] then st else Step(Run(st, bursts[..|bursts| - 1]), bursts[|bursts| - 1])
  }

  ghost predicate HonestRun(st: State, bursts: seq<Burst>) {
    forall n :: 0 <= n < |bursts| ==> NodeHonest(Run(st, bursts[..n]), bursts[n])
  }

  /** A recording starts at the node's cursor or beyond it, with whatever the
      writer has stored before. */
  ghost predicate Started(st: State) {
    st.expected == st.start && st.committed < st.start && st.nodeCursor < st.start && st.trace == []
  }

  lemma HonestInit(st: State, bursts: seq<Burst>)
    requires HonestRun(st, bursts) && bursts != []
    ensures HonestRun(st, bursts[..|bursts| - 1])
  {
    var n := |bursts| - 1;
    forall m | 0 <= m < n
      ensures NodeHonest(Run(st, bursts[..n][..m]), bursts[..n][m])
    {
      assert bursts[..n][..m] == bursts[..m];
    }
  }

  ghost predicate RunFromBoots(boots: Boots, bursts: seq<Burst>) {
    forall n :: 0 <= n < |bursts| && !bursts[n].Silent? ==> FromBoots(boots, bursts[n].packets)
  }

  lemma {:induction false} RunAccounts(boots: Boots, from: int, st: State, bursts: seq<Burst>)
    requires Safe(boots, from, st) && CommitsAccounted(boots, from, st)
    requires HonestRun(st, bursts) && RunFromBoots(boots, bursts)
    ensures Safe(boots, from, Run(st, bursts)) && CommitsAccounted(boots, from, Run(st, bursts))
  {
    if bursts != [] {
      var n := |bursts| - 1;
      var before := Run(st, bursts[..n]);
      HonestInit(st, bursts);
      RunAccounts(boots, from, st, bursts[..n]);
      StepSafe(boots, from, before, bursts[n]);
      forall i | 0 <= i < |Run(st, bursts).trace| && Run(st, bursts).trace[i].CommitSent?
        ensures AccountedTo(boots, from, Run(st, bursts).store, Run(st, bursts).gaps, Run(st, bursts).trace[i].upTo + 1)
      {
        CommitStaysAccounted(boots, from, before, bursts[n], i);
      }
    }
  }

  lemma {:induction false} RunCommits(st: State, bursts: seq<Burst>)
    requires CommitsFollowFlush(st.trace)
    ensures CommitsFollowFlush(Run(st, bursts).trace) && Run(st, bursts).start == st.start
  {
    if bursts != [] {
      var n := |bursts| - 1;
      RunCommits(st, bursts[..n]);
      TraceStep(Run(st, bursts[..n]), bursts[n]);
    }
  }

  /** In every run, whatever is lost, doubled or reordered: every sequence number
      since the start, up to the recorder's and the node's commit cursor, is
      stored or lies in a recorded gap, so does every number up to what any commit
      request has asked for, and no commit is sent before the batch it covers is
      written and flushed. */
  lemma RunSafe(st: State, bursts: seq<Burst>)
    requires Started(st) && HonestRun(st, bursts)
    ensures Safe(AnyBoot(), st.start, Run(st, bursts)) && CommitsAccounted(AnyBoot(), st.start, Run(st, bursts))
    ensures CommitsFollowFlush(Run(st, bursts).trace)
  {
    RunAccounts(AnyBoot(), st.start, st, bursts);
    RunCommits(st, bursts);
  }

  /** While the node does not reboot, the same holds of its present boot: stored
      under that boot, or in a gap noted for it. */
  lemma RunSafeInBoot(st: State, bursts: seq<Burst>, boot: int)
    requires Started(st) && HonestRun(st, bursts) && RunFromBoots(Only(boot), bursts)
    ensures Safe(Only(boot), st.start, Run(st, bursts)) && CommitsAccounted(Only(boot), st.start, Run(st, bursts))
  {
    RunAccounts(Only(boot), st.start, st, bursts);
  }

  // ----- a reboot -----

  ghost predicate NothingOf(boot: int, store: seq<Key>, gaps: seq<Gap>) {
    && (forall key :: key in store ==> key.boot != boot)
    && (forall g :: g in gaps ==> g.boot != boot)
  }

  /** What is accounted for of a new boot after its first packet: the packet, and
      what lies between the number expected of the old boot and the packet. */
  lemma RebootAccounts(store: seq<Key>, sc: Scan, p: Packet, q: int)
    requires NothingOf(p.boot, store + sc.batch, sc.gaps)
    ensures var sc' := ScanPacket(sc, p);
            Accounted(Only(p.boot), store + sc'.batch, sc'.gaps, q)
            <==> sc.expected <= q < p.firstSeq || p.firstSeq <= q < p.firstSeq + p.count
  {
    var sc', g := ScanPacket(sc, p), Gap(p.boot, sc.expected, p.firstSeq, p.packetSeq);
    assert store + sc'.batch == (store + sc.batch) + PacketKeys(p);
    if p.firstSeq <= q < p.firstSeq + p.count {
      assert PacketKeys(p)[q - p.firstSeq] == Key(p.boot, q);
      assert Key(p.boot, q) in store + sc'.batch;
    }
    if sc.expected <= q < p.firstSeq {
      assert g in sc'.gaps;
    }
  }

  /** So a reboot keeps the account exactly if the numbers to be accounted for do
      not begin before both the expected number and the packet. */
  lemma RebootAccountsFromIff(store: seq<Key>, sc: Scan, p: Packet, first: int)
    requires NothingOf(p.boot, store + sc.batch, sc.gaps)
    ensures var sc' := ScanPacket(sc, p);
            AccountedTo(Only(p.boot), first, store + sc'.batch, sc'.gaps, sc'.expected)
            <==> first >= sc.expected || first >= p.firstSeq || first >= sc'.expected
  {
    var sc' := ScanPacket(sc, p);
    forall q
      ensures Accounted(Only(p.boot), store + sc'.batch, sc'.gaps, q)
              <==> sc.expected <= q < p.firstSeq || p.firstSeq <= q < p.firstSeq + p.count
    {
      RebootAccounts(store, sc, p, q);
    }
    if first < sc.expected && first < p.firstSeq && first < sc'.expected {
      assert !Accounted(Only(p.boot), store + sc'.batch, sc'.gaps, first);
    }
  }

  /** A reboot that breaks the account: the number after 99 is expected, the first
      packet of the new boot starts at 5, and nothing is noted of the numbers from
      1 to 4. */
  lemma RebootLosesNumbers(oldBoot: int, boot: int, packetSeq: int)
    requires oldBoot != boot
    ensures var p, sc := Packet(boot, 5, 1, packetSeq), Scan([], [Key(oldBoot, 99)], 100);
            var sc' := ScanPacket(sc, p);
            && NothingOf(boot, sc.batch, sc.gaps)
            && !AccountedTo(Only(boot), 1, sc'.batch, sc'.gaps, sc'.expected)
            && forall q :: 1 <= q < 5 ==> !Accounted(Only(boot), sc'.batch, sc'.gaps, q)
  {
    var p, sc := Packet(boot, 5, 1, packetSeq), Scan([], [Key(oldBoot, 99)], 100);
    var sc' := ScanPacket(sc, p);
    assert [] + sc.batch == sc.batch && [] + sc'.batch == sc'.batch;
    RebootAccountsFromIff([], sc, p, 1);
    forall q | 1 <= q < 5
      ensures !Accounted(Only(boot), sc'.batch, sc'.gaps, q)
    {
      RebootAccounts([], sc, p, q);
    }
  }

  lemma CommitAppended(trace: seq<Action>, written: nat, upTo: int)
    requires CommitsFollowFlush(trace)
    ensures CommitsFollowFlush(trace + [Wrote(written), Flushed] + [CommitSent(upTo)])
  {
  }

  lemma TraceStep(st: State, b: Burst)
    requires CommitsFollowFlush(st.trace)
    ensures CommitsFollowFlush(Step(st, b).trace)
  {
    if b.Delivery? && b.packets != [] {
      var sc := ScanPackets(st, b.packets);
      CommitAppended(st.trace, |sc.batch|, sc.expected - 1);
    }
  }

  // ----- stored once -----

  predicate Carries(p: Packet, key: Key) {
    key.boot == p.boot && p.firstSeq <= key.sampleSeq < p.firstSeq + p.count
  }

  /** Two packets of one burst carry the same identity, and it is not stored. */
  ghost predicate FreshOverlap(packets: seq<Packet>, stored: set<Key>) {
    exists i, j, key :: 0 <= i < j < |packets| && Carries(packets[i], key) && Carries(packets[j], key) && key !in stored
  }

  lemma PacketKeysCarried(p: Packet, key: Key)
    ensures key in PacketKeys(p) <==> Carries(p, key)
  {
    if Carries(p, key) {
      assert PacketKeys(p)[key.sampleSeq - p.firstSeq] == key;
    }
  }

  lemma {:induction false} BatchCarries(st: State, packets: seq<Packet>, key: Key)
    ensures key in ScanPackets(st, packets).batch <==> exists i :: 0 <= i < |packets| && Carries(packets[i], key)
  {
    if packets != [] {
      var n := |packets| - 1;
      BatchCarries(st, packets[..n], key);
      PacketKeysCarried(packets[n], key);
      if i :| 0 <= i < |packets| && Carries(packets[i], key) {
        assert i < n ==> Carries(packets[..n][i], key);
      }
    }
  }

  lemma {:induction false} NewKeysConcat(a: seq<Key>, b: seq<Key>, stored: set<Key>)
    ensures NewKeys(a + b, stored) == NewKeys(a, stored) + NewKeys(b, stored)
  {
    if b == [] {
      assert a + b == a;
    } else {
      assert (a + b)[..|a + b| - 1] == a + b[..|b| - 1];
      NewKeysConcat(a, b[..|b| - 1], stored);
    }
  }

  lemma {:induction false} NewKeysDistinct(batch: seq<Key>, stored: set<Key>)
    requires Distinct(batch)
    ensures Distinct(NewKeys(batch, stored))
  {
    if batch != [] {
      var n := |batch| - 1;
      assert batch == batch[..n] + [batch[n]];
      DistinctConcat(batch[..n], [batch[n]]);
      NewKeysDistinct(batch[..n], stored);
      NewKeysMembers(batch[..n], stored, batch[n]);
      DistinctConcat(NewKeys(batch[..n], stored), [batch[n]]);
    }
  }

  lemma {:induction false} KeptMembers(keys: seq<Key>, positions: set<nat>, key: Key)
    ensures key in Kept(keys, positions) <==> exists i :: 0 <= i < |keys| && i in positions && keys[i] == key
  {
    if keys != [] {
      var n := |keys| - 1;
      KeptMembers(keys[..n], positions, key);
      assert forall i :: 0 <= i < n ==> keys[..n][i] == keys[i];
    }
  }

  /** The same key at two of the positions. */
  ghost predicate KeptTwice(keys: seq<Key>, positions: set<nat>) {
    exists i, j :: 0 <= i < j < |keys| && i in positions && j in positions && keys[i] == keys[j]
  }

  lemma KeptTwiceSnoc(keys: seq<Key>, positions: set<nat>)
    requires keys != []
    ensures var n := |keys| - 1;
            KeptTwice(keys, positions)
            <==> KeptTwice(keys[..n], positions) || (n in positions && keys[n] in Kept(keys[..n], positions))
  {
    var n := |keys| - 1;
    KeptMembers(keys[..n], positions, keys[n]);
    assert forall i :: 0 <= i < n ==> keys[..n][i] == keys[i];
    if KeptTwice(keys, positions) {
      var i, j :| 0 <= i < j < |keys| && i in positions && j in positions && keys[i] == keys[j];
      if j < n {
        assert keys[..n][i] == keys[..n][j];
      }
    }
  }

  lemma {:induction false} KeptDistinctIff(keys: seq<Key>, positions: set<nat>)
    ensures Distinct(Kept(keys, positions)) <==> !KeptTwice(keys, positions)
  {
    if keys != [] {
      var n := |keys| - 1;
      KeptDistinctIff(keys[..n], positions);
      KeptTwiceSnoc(keys, positions);
      var before := Kept(keys[..n], positions);
      DistinctConcat(before, [keys[n]]);
      assert keys[n] in [keys[n]];
      assert n !in positions ==> before + [] == before;
    }
  }

  /** Whether a packet shares a fresh identity with an earlier one. */
  lemma OverlapSplit(packets: seq<Packet>, stored: set<Key>)
    requires packets != []
    ensures var n := |packets| - 1;
            FreshOverlap(packets, stored) <==>
              FreshOverlap(packets[..n], stored)
              || exists i, key :: 0 <= i < n && Carries(packets[i], key) && Carries(packets[n], key) && key !in stored
  {
    var n := |packets| - 1;
    if FreshOverlap(packets[..n], stored) {
      var i, j, key :| 0 <= i < j < n && Carries(packets[..n][i], key) && Carries(packets[..n][j], key)
        && key !in stored;
      assert Carries(packets[i], key) && Carries(packets[j], key);
    }
    if FreshOverlap(packets, stored) {
      var i, j, key :| 0 <= i < j < |packets| && Carries(packets[i], key) && Carries(packets[j], key) && key !in stored;
      if j < n {
        assert Carries(packets[..n][i], key) && Carries(packets[..n][j], key);
      }
    }
  }

  /** The new identities of a burst are distinct if and only if no two of its
      packets share an identity that is not stored. */
  lemma {:induction false} NewKeysDistinctIff(st: State, packets: seq<Packet>, stored: set<Key>)
    ensures Distinct(NewKeys(ScanPackets(st, packets).batch, stored)) <==> !FreshOverlap(packets, stored)
  {
    if packets != [] {
      var n := |packets| - 1;
      var p, before := packets[n], ScanPackets(st, packets[..n]).batch;
      NewKeysDistinctIff(st, packets[..n], stored);
      OverlapSplit(packets, stored);
      NewKeysConcat(before, PacketKeys(p), stored);
      NewKeysDistinct(PacketKeys(p), stored);
      DistinctConcat(NewKeys(before, stored), NewKeys(PacketKeys(p), stored));
      SharedNew(st, packets, stored);
    }
  }

  lemma SharedNew(st: State, packets: seq<Packet>, stored: set<Key>)
    requires packets != []
    ensures var n := |packets| - 1;
            (exists key :: key in NewKeys(ScanPackets(st, packets[..n]).batch, stored)
              && key in NewKeys(PacketKeys(packets[n]), stored))
            <==> exists i, key :: 0 <= i < n && Carries(packets[i], key) && Carries(packets[n], key) && key !in stored
  {
    var n := |packets| - 1;
    var before, p := ScanPackets(st, packets[..n]).batch, packets[n];
    if key :| key in NewKeys(before, stored) && key in NewKeys(PacketKeys(p), stored) {
      NewKeysMembers(before, stored, key);
      NewKeysMembers(PacketKeys(p), stored, key);
      PacketKeysCarried(p, key);
      BatchCarries(st, packets[..n], key);
      var i :| 0 <= i < n && Carries(packets[..n][i], key);
      assert Carries(packets[i], key);
    }
    if i, key :| 0 <= i < n && Carries(packets[i], key) && Carries(p, key) && key !in stored {
      assert Carries(packets[..n][i], key);
      BatchCarries(st, packets[..n], key);
      PacketKeysCarried(p, key);
      NewKeysMembers(before, stored, key);
      NewKeysMembers(PacketKeys(p), stored, key);
    }
  }

  /** What a burst stores, it stores once: no two packets of a delivered burst
      share an identity that is not stored, and a failing store keeps none twice. */
  ghost predicate CleanBurst(st: State, b: Burst) {
    match b
    case Silent => true
    case Delivery(packets, _) => !FreshOverlap(packets, StoredSet(st))
    case StorageFailure(packets, kept) => !KeptTwice(NewKeys(ScanPackets(st, packets).batch, StoredSet(st)), kept)
  }

  lemma AddedOnce(store: seq<Key>, added: seq<Key>, novel: seq<Key>)
    requires (forall key :: key in added ==> key in novel) && forall key :: key in store ==> key !in novel
    ensures Distinct(store + added) <==> Distinct(store) && Distinct(added)
  {
    DistinctConcat(store, added);
  }

  /** Redelivery never stores twice; a burst does so exactly if it is not clean. */
  lemma StoredOnceStep(st: State, b: Burst)
    ensures Distinct(Step(st, b).store) <==> Distinct(st.store) && CleanBurst(st, b)
  {
    if !b.Silent? {
      var batch := ScanPackets(st, b.packets).batch;
      var novel := NewKeys(batch, StoredSet(st));
      forall key | key in st.store
        ensures key !in novel
      {
        NewKeysMembers(batch, StoredSet(st), key);
      }
      if b.Delivery? {
        NewKeysDistinctIff(st, b.packets, StoredSet(st));
        AddedOnce(st.store, novel, novel);
      } else {
        forall key | key in Kept(novel, b.kept)
          ensures key in novel
        {
          KeptMembers(novel, b.kept, key);
        }
        KeptDistinctIff(novel, b.kept);
        AddedOnce(st.store, Kept(novel, b.kept), novel);
      }
    }
  }

  ghost predicate CleanRun(st: State, bursts: seq<Burst>) {
    forall n :: 0 <= n < |bursts| ==> CleanBurst(Run(st, bursts[..n]), bursts[n])
  }

  lemma CleanRunSplit(st: State, bursts: seq<Burst>)
    requires bursts != []
    ensures var n := |bursts| - 1;
            CleanRun(st, bursts) <==> CleanRun(st, bursts[..n]) && CleanBurst(Run(st, bursts[..n]), bursts[n])
  {
    var n := |bursts| - 1;
    assert forall m :: 0 <= m < n ==> bursts[..n][..m] == bursts[..m] && bursts[..n][m] == bursts[m];
  }

  /** In every run, storage failures and redeliveries included, each identity is
      stored once if and only if every burst is clean. */
  lemma {:induction false} RunStoredOnceIff(st: State, bursts: seq<Burst>)
    requires Distinct(st.store)
    ensures Distinct(Run(st, bursts).store) <==> CleanRun(st, bursts)
  {
    if bursts != [] {
      var n := |bursts| - 1;
      RunStoredOnceIff(st, bursts[..n]);
      CleanRunSplit(st, bursts);
      StoredOnceStep(Run(st, bursts[..n]), bursts[n]);
    }
  }

  /** What the protocol takes a writer to store of a batch is what the Capture
      writer stores of it. */
  lemma {:induction false} WriterStoresNewKeys(samples: seq<Sample>, seen: set<Key>)
    ensures KeysOf(Fresh(samples, seen)) == NewKeys(KeysOf(samples), seen)
  {
    if samples != [] {
      var n := |samples| - 1;
      WriterStoresNewKeys(samples[..n], seen);
      assert KeysOf(samples)[..n] == KeysOf(samples[..n]);
    }
  }

  /** Whatever was delivered stays stored. */
  lemma DeliveredIsStored(st: State, packets: seq<Packet>, commit: Commit, p: Packet, i: nat)
    requires p in packets && i < p.count
    ensures Key(p.boot, p.firstSeq + i) in Step(st, Delivery(packets, commit)).store
  {
    var key := Key(p.boot, p.firstSeq + i);
    BatchHolds(st, packets, p, i);
    NewKeysMembers(ScanPackets(st, packets).batch, StoredSet(st), key);
  }

  lemma {:induction false} BatchHolds(st: State, packets: seq<Packet>, p: Packet, i: nat)
    requires p in packets && i < p.count
    ensures Key(p.boot, p.firstSeq + i) in ScanPackets(st, packets).batch
  {
    var n := |packets| - 1;
    assert packets == packets[..n] + [packets[n]];
    if p == packets[n] {
      assert PacketKeys(p)[i] == Key(p.boot, p.firstSeq + i);
      assert PacketKeys(p)[i] in PacketKeys(p);
    } else {
      BatchHolds(st, packets[..n], p, i);
    }
  }

  // ----- the recorder -----

  class RecorderNode {
    var expectedSampleSeq: int
    var committedSampleSeq: int
    var gapsDetected: nat
    var samplesWritten: nat
    var lastWrittenSeq: int
    var burstsOk: nat
    var store: seq<Key>
    var gaps: seq<Gap>
    ghost var start: int
    ghost var nodeCursor: int
    ghost var trace: seq<Action>

    ghost function St(): State
      reads this
    {
      State(start, expectedSampleSeq, committedSampleSeq, nodeCursor, store, gaps, trace)
    }

    constructor (committed: int, oldest: int, stored: seq<Key>)
      ensures Started(St()) && store == stored && gaps == []
      ensures expectedSampleSeq == (if oldest > 0 then Max(committed + 1, oldest) else committed + 1)
    {
      var first := if oldest > 0 then Max(committed + 1, oldest) else committed + 1;
      expectedSampleSeq, committedSampleSeq := first, committed;
      gapsDetected, samplesWritten, lastWrittenSeq, burstsOk := 0, 0, 0, 0;
      store, gaps := stored, [];
      start, nodeCursor, trace := first, committed, [];
    }

    /** The pass over the collected packets: each one out of sequence is noted as a
        gap, and all their samples make up the batch. */
    method ScanBurst(packets: seq<Packet>) returns (batch: seq<Key>, lastContiguousSeq: int)
      requires packets != []
      modifies this`gaps, this`gapsDetected
      ensures Scan(gaps, batch, lastContiguousSeq + 1) == ScanPackets(old(St()), packets)
      ensures gapsDetected - old(gapsDetected) == |gaps| - |old(gaps)|
    {
      ghost var before := St();
      batch := [];
      var expectedSeq := expectedSampleSeq;
      lastContiguousSeq := committedSampleSeq;
      for i := 0 to |packets|
        invariant Scan(gaps, batch, expectedSeq) == ScanPackets(before, packets[..i])
        invariant i > 0 ==> lastContiguousSeq == expectedSeq - 1
        invariant gapsDetected - old(gapsDetected) == |gaps| - |old(gaps)|
      {
        var p := packets[i];
        assert packets[..i + 1][..i] == packets[..i];
        if p.firstSeq != expectedSeq {
          gapsDetected := gapsDetected + 1;
          gaps := gaps + [Gap(p.boot, expectedSeq, p.firstSeq, p.packetSeq)];
        }
        batch := batch + PacketKeys(p);
        lastContiguousSeq := p.firstSeq + p.count - 1;
        expectedSeq := lastContiguousSeq + 1;
      }
      assert packets[..|packets|] == packets;
    }

    /** The writer keeps what it has not stored before, and flushes. */
    method WriteAndFlush(batch: seq<Key>)
      modifies this`store, this`trace
      ensures store == old(store) + NewKeys(batch, StoredSet(old(St())))
      ensures trace == old(trace) + [Wrote(|batch|), Flushed]
    {
      store := store + NewKeys(batch, set key | key in store);
      trace := trace + [Wrote(|batch|), Flushed];
    }

    method File(packets: seq<Packet>) returns (lastContiguousSeq: int, written: nat)
      requires packets != []
      modifies this`gaps, this`gapsDetected, this`store, this`trace
      ensures St() == Filed(old(St()), packets)
      ensures gapsDetected - old(gapsDetected) == |gaps| - |old(gaps)|
      ensures var sc := ScanPackets(old(St()), packets);
              lastContiguousSeq == sc.expected - 1 && written == |sc.batch|
    {
      var batch;
      batch, lastContiguousSeq := ScanBurst(packets);
      WriteAndFlush(batch);
      trace := trace + [CommitSent(lastContiguousSeq)];
      written := |batch|;
    }

    /** One granted burst whose packets have been collected. */
    method RecordOneBurst(packets: seq<Packet>, commit: Commit) returns (ok: bool)
      modifies this
      ensures St() == Step(old(St()), Delivery(packets, commit))
      ensures ok <==> packets != [] && commit.Replied?
      ensures gapsDetected - old(gapsDetected) == |gaps| - |old(gaps)|
      ensures ok ==> burstsOk == old(burstsOk) + 1 && lastWrittenSeq == LastNumber(packets)
      ensures !ok ==> burstsOk == old(burstsOk) && lastWrittenSeq == old(lastWrittenSeq)
      ensures samplesWritten == old(samplesWritten) + if ok then CountOf(packets) else 0
    {
      if packets == [] {
        return false;
      }
      ScanExpects(old(St()), packets);
      BatchSize(old(St()), packets);
      var lastContiguousSeq, written := File(packets);
      if commit.RequestLost? {
        return false;
      }
      nodeCursor := commit.cursor;
      if commit.ReplyLost? {
        return false;
      }
      committedSampleSeq := commit.cursor;
      expectedSampleSeq := committedSampleSeq + 1;
      lastWrittenSeq := lastContiguousSeq;
      samplesWritten := samplesWritten + written;
      burstsOk := burstsOk + 1;
      ok := true;
    }
  }
}
