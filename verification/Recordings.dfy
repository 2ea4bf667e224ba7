/** Whole recordings: the burst protocol over the windowed writer, with the gap
    rows and with restarts of the recorder. */
module Recordings {
  import opened Options
  import opened Capture
  import opened CaptureReader
  import opened CaptureRuns
  import opened Router
  import opened RouterRuns
  import RouterLives
  import opened BurstProtocol
  import opened BurstStorage

  // ----- one session -----

  /** A collected burst: its packets, the samples decoded from them, and how the
      commit ends if it comes to that. */
  datatype Collected = Collected(packets: seq<Packet>, samples: seq<Sample>, commit: Commit)

  /** The protocol, the disk, and where the gaps are that were noted: in rows of a
      file, or waiting in memory for a file to be opened. */
  datatype Recording = Recording(
    protocol: BurstProtocol.State, disk: Router.State, unresolvedOpen: bool, rows: seq<Gap>, waiting: seq<Gap>)

  ghost predicate FileOpen(r: Recording) { r.disk.active != map[] || r.unresolvedOpen }

  /** The burst as the protocol sees it: a delivery, unless the writer fails. */
  ghost function AsBurst(w: int, node: int, r: Recording, c: Collected): Burst
    requires w > 0
  {
    var call := WriteSamples(w, r.disk, node, c.samples);
    var novel := NewKeys(ScanPackets(r.protocol, c.packets).batch, StoredSet(r.protocol));
    if call.outcome == Written then Delivery(c.packets, c.commit)
    else StorageFailure(c.packets, KeptPositions(novel, call.state))
  }

  /** The gaps among the packets of a burst. */
  function NotedGaps(st: BurstProtocol.State, packets: seq<Packet>): seq<Gap> {
    ScanPackets(st.(gaps := []), packets).gaps
  }

  /** Gaps are noted before the samples are written: in a file if one is open,
      otherwise in memory; a file that is opened takes what waits there. */
  ghost function RecordBurst(w: int, node: int, r: Recording, c: Collected): Recording
    requires w > 0
  {
    if c.packets == [] then r
    else
      var noted := NotedGaps(r.protocol, c.packets);
      var disk := WriteSamples(w, r.disk, node, c.samples).state;
      var unresolvedOpen := r.unresolvedOpen || OpensUnresolved(w, r.disk, node, c.samples);
      var open := disk.active != map[] || unresolvedOpen;
      Recording(
        BurstProtocol.Step(r.protocol, AsBurst(w, node, r, c)), disk, unresolvedOpen,
        if open then r.rows + r.waiting + noted else r.rows,
        if open then [] else r.waiting + noted)
  }

  /** Decoding yields the samples the packets announce, and the node is honest. */
  ghost predicate Genuine(w: int, node: int, r: Recording, c: Collected)
    requires w > 0
  {
    KeysOf(c.samples) == ScanPackets(r.protocol, c.packets).batch && NodeHonest(r.protocol, AsBurst(w, node, r, c))
  }

  /** The disk and the protocol agree, nothing up to a cursor is unaccounted for,
      and the noted gaps are in a file or wait for one. */
  ghost predicate Sound(start: int, r: Recording) {
    && Inv(r.disk) && Agrees(r.protocol.store, r.disk) && Safe(AnyBoot(), start, r.protocol)
    && Ledger(r)
  }

  ghost predicate Ledger(r: Recording) {
    r.protocol.gaps == r.rows + r.waiting && (FileOpen(r) ==> r.waiting == [])
  }

  lemma {:induction false} NotedGapsFollow(st: BurstProtocol.State, packets: seq<Packet>)
    ensures ScanPackets(st, packets).gaps == st.gaps + NotedGaps(st, packets)
    ensures ScanPackets(st, packets).expected == ScanPackets(st.(gaps := []), packets).expected
  {
    if packets == [] {
      assert st.gaps + [] == st.gaps;
    } else {
      NotedGapsFollow(st, packets[..|packets| - 1]);
    }
  }

  lemma StepGaps(st: BurstProtocol.State, b: Burst)
    requires !b.Silent? && b.packets != []
    ensures BurstProtocol.Step(st, b).gaps == st.gaps + NotedGaps(st, b.packets)
  {
    NotedGapsFollow(st, b.packets);
  }

  lemma LedgerKept(w: int, node: int, r: Recording, c: Collected)
    requires w > 0 && Ledger(r)
    ensures Ledger(RecordBurst(w, node, r, c))
  {
    if c.packets != [] {
      var b := AsBurst(w, node, r, c);
      assert !b.Silent? && b.packets == c.packets;
      StepGaps(r.protocol, b);
      LedgerGrows(r, RecordBurst(w, node, r, c), NotedGaps(r.protocol, c.packets));
    }
  }

  lemma LedgerGrows(r: Recording, r': Recording, noted: seq<Gap>)
    requires Ledger(r) && r'.protocol.gaps == r.protocol.gaps + noted
    requires r'.rows == if FileOpen(r') then r.rows + r.waiting + noted else r.rows
    requires r'.waiting == if FileOpen(r') then [] else r.waiting + noted
    ensures Ledger(r')
  {
  }

  lemma RecordBurstSound(w: int, node: int, r: Recording, c: Collected, start: int)
    requires w > 0 && Sound(start, r) && Genuine(w, node, r, c)
    ensures Sound(start, RecordBurst(w, node, r, c))
  {
    LedgerKept(w, node, r, c);
    if c.packets != [] {
      CallAgrees(w, r.disk, node, c.samples, r.protocol.store, StoredSet(r.protocol));
      CallKeepsInvariant(w, r.disk, node, c.samples);
      StepSafe(AnyBoot(), start, r.protocol, AsBurst(w, node, r, c));
    }
  }

  ghost function Record(w: int, node: int, r: Recording, bursts: seq<Collected>): Recording
    requires w > 0
  {
    if bursts == [] then r
    else RecordBurst(w, node, Record(w, node, r, bursts[..|bursts| - 1]), bursts[|bursts| - 1])
  }

  ghost predicate AllGenuine(w: int, node: int, r: Recording, bursts: seq<Collected>)
    requires w > 0
  {
    bursts == [] || (AllGenuine(w, node, r, bursts[..|bursts| - 1])
      && Genuine(w, node, Record(w, node, r, bursts[..|bursts| - 1]), bursts[|bursts| - 1]))
  }

  /** A recording starts over whatever is on disk, with no gap waiting. */
  ghost predicate Opening(r: Recording) {
    && Started(r.protocol) && Inv(r.disk) && Agrees(r.protocol.store, r.disk)
    && r.waiting == [] && r.protocol.gaps == r.rows
  }

  /** In every recording, with packets and replies lost and writes failing: each
      sequence number since the start, up to the recorder's and the node's commit
      cursor, is in a file on disk or in a noted gap, and the noted gaps are in
      rows of a file or wait for one to be opened. */
  lemma {:induction false} RecordingSound(w: int, node: int, r: Recording, bursts: seq<Collected>)
    requires w > 0 && Opening(r) && AllGenuine(w, node, r, bursts)
    ensures Sound(r.protocol.start, Record(w, node, r, bursts))
  {
    if bursts == [] {
      assert r.rows + [] == r.rows;
    } else {
      var n := |bursts| - 1;
      RecordingSound(w, node, r, bursts[..n]);
      RecordBurstSound(w, node, Record(w, node, r, bursts[..n]), bursts[n], r.protocol.start);
    }
  }

  // ----- when a gap is in no file -----

  /** Some burst brought a sample the writer took for new. */
  ghost predicate SomethingNew(w: int, node: int, r: Recording, bursts: seq<Collected>)
    requires w > 0
  {
    bursts != [] && (SomethingNew(w, node, r, bursts[..|bursts| - 1])
      || (bursts[|bursts| - 1].packets != []
          && Sift(w, Record(w, node, r, bursts[..|bursts| - 1]).disk, bursts[|bursts| - 1].samples).novel != []))
  }

  lemma {:induction false} OpenIff(w: int, node: int, r: Recording, bursts: seq<Collected>)
    requires w > 0 && Inv(r.disk)
    ensures var end := Record(w, node, r, bursts);
            && Inv(end.disk)
            && (FileOpen(end) <==> FileOpen(r) || SomethingNew(w, node, r, bursts))
            && (!FileOpen(end) ==> end.rows == r.rows)
  {
    if bursts != [] {
      var n := |bursts| - 1;
      var before, c := Record(w, node, r, bursts[..n]), bursts[n];
      OpenIff(w, node, r, bursts[..n]);
      if c.packets != [] {
        OpenAfterIff(w, before.disk, node, c.samples);
        CallKeepsInvariant(w, before.disk, node, c.samples);
      }
    }
  }

  /** The noted gaps are all in files if and only if none was noted, or a window
      was resumed at the start, or some burst brought something new. */
  lemma GapsFiledIff(w: int, node: int, r: Recording, bursts: seq<Collected>)
    requires w > 0 && Opening(r) && AllGenuine(w, node, r, bursts)
    ensures var end := Record(w, node, r, bursts);
            && end.protocol.gaps == end.rows + end.waiting
            && (end.waiting == [] <==>
                  end.protocol.gaps == r.protocol.gaps || FileOpen(r) || SomethingNew(w, node, r, bursts))
  {
    var end := Record(w, node, r, bursts);
    RecordingSound(w, node, r, bursts);
    OpenIff(w, node, r, bursts);
    if !FileOpen(end) {
      assert end.protocol.gaps == r.protocol.gaps + end.waiting;
      assert end.waiting != [] ==> |end.protocol.gaps| > |r.protocol.gaps|;
    }
  }

  /** What is committed is on disk as a sample or as a gap row; where no file was
      ever opened, it may also be in a gap noted in memory only. */
  lemma CommittedIsOnDisk(w: int, node: int, r: Recording, bursts: seq<Collected>, q: int)
    requires w > 0 && Opening(r) && AllGenuine(w, node, r, bursts)
    ensures var end := Record(w, node, r, bursts);
            r.protocol.start <= q <= end.protocol.committed || r.protocol.start <= q <= end.protocol.nodeCursor ==>
              || (exists boot :: OnDisk(end.disk, Key(boot, q)))
              || (exists g :: g in end.rows && g.expected <= q < g.received)
              || (!FileOpen(r) && !SomethingNew(w, node, r, bursts)
                  && exists g :: g in end.waiting && g.expected <= q < g.received)
  {
    RecordingSound(w, node, r, bursts);
    OpenIff(w, node, r, bursts);
    var end := Record(w, node, r, bursts);
    if r.protocol.start <= q <= end.protocol.committed || r.protocol.start <= q <= end.protocol.nodeCursor {
      assert Accounted(AnyBoot(), end.protocol.store, end.protocol.gaps, q);
      if boot :| AnyBoot()(boot) && Key(boot, q) in end.protocol.store {
        assert OnDisk(end.disk, Key(boot, q));
      } else {
        var g :| g in end.protocol.gaps && g.expected <= q < g.received;
        assert g in end.rows || g in end.waiting;
      }
    }
  }

  /** The disk and the protocol after a restart: sample 5 is in a published file, its
      commit was lost, and the node's cursor is 3. */
  function AfterLostCommit(s: Sample): Recording {
    Recording(BurstProtocol.State(4, 4, 3, 3, [KeyOf(s)], [], []), Restarted(s), false, [], [])
  }

  lemma AfterLostCommitOpens(s: Sample)
    ensures Opening(AfterLostCommit(s))
  {
    var r := AfterLostCommit(s);
    RestartedKeeps(1, s);
    forall key
      ensures key in r.protocol.store <==> OnDisk(r.disk, key)
    {
      if key == KeyOf(s) {
        assert s in DiskAt(r.disk, Window(0));
        assert key in KeySet(DiskAt(r.disk, Window(0)));
      }
      if OnDisk(r.disk, key) {
        var p :| key in KeySet(DiskAt(r.disk, p));
        assert DiskAt(r.disk, p) == [s] || DiskAt(r.disk, p) == [];
      }
    }
  }

  function SampleFiveAgain(s: Sample, packetSeq: int): Collected {
    Collected([Packet(s.bootEpoch, 5, 1, packetSeq)], [s], Replied(5))
  }

  /** Sample 5 comes again and 4 is lost: the gap is noted in memory only, and yet
      the commit up to 5 is sent and confirmed. */
  lemma GapOnlyInMemory(w: int, node: int, s: Sample, packetSeq: int)
    requires w > 0 && s.sampleSeq == 5 && s.utcNs == Some(0)
    ensures var r, c := AfterLostCommit(s), SampleFiveAgain(s, packetSeq);
            var end := RecordBurst(w, node, r, c);
            && Opening(r) && Genuine(w, node, r, c)
            && end.protocol.committed == end.protocol.nodeCursor == 5
            && end.rows == [] && end.waiting == [Gap(s.bootEpoch, 4, 5, packetSeq)]
            && forall boot :: !OnDisk(end.disk, Key(boot, 4))
  {
    var r, c := AfterLostCommit(s), SampleFiveAgain(s, packetSeq);
    AfterLostCommitOpens(s);
    KnownDropped(w, node, s);
    FiveCommitted(s, packetSeq);
    NothingOfFour(s);
  }

  lemma FiveCommitted(s: Sample, packetSeq: int)
    requires s.sampleSeq == 5
    ensures var st, c := AfterLostCommit(s).protocol, SampleFiveAgain(s, packetSeq);
            && NotedGaps(st, c.packets) == [Gap(s.bootEpoch, 4, 5, packetSeq)]
            && KeysOf(c.samples) == ScanPackets(st, c.packets).batch
            && NodeHonest(st, Delivery(c.packets, c.commit))
            && var st' := BurstProtocol.Step(st, Delivery(c.packets, c.commit)); st'.committed == st'.nodeCursor == 5
  {
    var st, c := AfterLostCommit(s).protocol, SampleFiveAgain(s, packetSeq);
    OneGap(st, c.packets[0]);
    assert KeysOf([s]) == PacketKeys(c.packets[0]);
  }

  lemma NothingOfFour(s: Sample)
    requires s.sampleSeq == 5
    ensures forall boot :: !OnDisk(Restarted(s).(seen := {KeyOf(s)}), Key(boot, 4))
  {
    var disk := Restarted(s).(seen := {KeyOf(s)});
    forall p
      ensures forall boot :: Key(boot, 4) !in KeySet(DiskAt(disk, p))
    {
      assert DiskAt(disk, p) == [s] || DiskAt(disk, p) == [];
    }
  }

  lemma OneGap(st: BurstProtocol.State, p: Packet)
    requires st.gaps == [] && p.firstSeq != st.expected
    ensures NotedGaps(st, [p]) == [Gap(p.boot, st.expected, p.firstSeq, p.packetSeq)]
    ensures ScanPackets(st, [p]).batch == PacketKeys(p) && ScanPackets(st, [p]).expected == p.firstSeq + p.count
  {
    assert [p][..0] == [];
    assert ScanPackets(st, [p]) == ScanPacket(Scan([], [], st.expected), p);
    assert [] + PacketKeys(p) == PacketKeys(p);
    assert st.(gaps := []) == st;
  }

  /** A sample that is found in its published window changes nothing. */
  lemma KnownDropped(w: int, node: int, s: Sample)
    requires w > 0 && s.utcNs == Some(0)
    ensures var st := Restarted(s);
            && WriteSamples(w, st, node, [s]) == Result(Written, st.(seen := {KeyOf(s)}))
            && !OpensUnresolved(w, st, node, [s])
  {
    var st := Restarted(s);
    assert [s][..0] == [] && s in [s];
    assert Micros(0) == 0;
    assert WindowStart(w, 0) == 0;
    assert Archived(w, st, s);
    assert Sift(w, st, [s]) == Sifted({KeyOf(s)}, []);
    assert Targets(w, st, []) == {};
  }

  // ----- each identity once, over whole recordings -----

  /** No call of the recording doubled anything. */
  ghost predicate CleanRecording(w: int, node: int, r: Recording, bursts: seq<Collected>)
    requires w > 0
  {
    bursts == [] || (CleanRecording(w, node, r, bursts[..|bursts| - 1])
      && CleanCollected(w, node, Record(w, node, r, bursts[..|bursts| - 1]), bursts[|bursts| - 1]))
  }

  /** No two packets carry the same unstored identity; if the call fails, none of
      the samples it has filed so far comes twice. */
  ghost predicate CleanCollected(w: int, node: int, r: Recording, c: Collected)
    requires w > 0
  {
    c.packets == []
    || if WriteSamples(w, r.disk, node, c.samples).outcome == Written
       then !FreshOverlap(c.packets, StoredSet(r.protocol))
       else Distinct(KeysOf(RouterRuns.Filed(w, r.disk, node, c.samples)))
  }

  lemma BurstOnceIff(w: int, node: int, r: Recording, c: Collected)
    requires w > 0 && Inv(r.disk) && Remembers(r.disk) && Agrees(r.protocol.store, r.disk) && Genuine(w, node, r, c)
    ensures Remembers(RecordBurst(w, node, r, c).disk)
    ensures Once(RecordBurst(w, node, r, c).disk) <==> Once(r.disk) && CleanCollected(w, node, r, c)
    ensures !FreshOverlap(c.packets, StoredSet(r.protocol)) ==> CleanCollected(w, node, r, c)
  {
    CallOnceIff(w, r.disk, node, c.samples);
    CallRemembers(w, r.disk, node, c.samples);
    CleanIffDistinct(w, r.disk, node, c.samples, StoredSet(r.protocol));
    NewKeysDistinctIff(r.protocol, c.packets, StoredSet(r.protocol));
  }

  /** Where every key on disk is remembered at the start, each identity is on disk
      once after a recording, with redeliveries and failing writes, if and only if
      it was so before and every burst was clean. */
  lemma {:induction false} RecordingOnceIff(w: int, node: int, r: Recording, bursts: seq<Collected>)
    requires w > 0 && Opening(r) && AllGenuine(w, node, r, bursts) && Remembers(r.disk)
    ensures Remembers(Record(w, node, r, bursts).disk)
    ensures Once(Record(w, node, r, bursts).disk) <==> Once(r.disk) && CleanRecording(w, node, r, bursts)
  {
    if bursts != [] {
      var n := |bursts| - 1;
      RecordingOnceIff(w, node, r, bursts[..n]);
      RecordingSound(w, node, r, bursts[..n]);
      BurstOnceIff(w, node, Record(w, node, r, bursts[..n]), bursts[n]);
    }
  }

  // ----- restarts -----

  /** What the node reports when the recorder starts: its cursor, and the first
      number it still holds, or 0. A start from the newest packet is one after the
      commit of that packet, with 0. */
  datatype Start = Start(cursor: int, oldest: int)

  function First(start: Start): int {
    if start.oldest > 0 then Max(start.cursor + 1, start.oldest) else start.cursor + 1
  }

  /** The recorder begins anew over the disk and its gap rows. Gaps that were
      waiting in memory are gone. */
  function Begun(r: Recording, start: Start, fates: RouterLives.Fates): Recording {
    Recording(
      BurstProtocol.State(First(start), First(start), start.cursor, start.cursor, r.protocol.store, r.rows, []),
      RouterLives.Recovered(r.disk, fates), false, r.rows, [])
  }

  /** A burst is recorded; the recorder is restarted between two bursts; or it dies
      while it writes a burst, when the windows before a limit are done and some of
      the gaps are in a file. */
  datatype Turn =
    | Recorded(burst: Collected)
    | Reset(start: Start, fates: RouterLives.Fates)
    | Died(burst: Collected, limit: int, kept: seq<Gap>, start: Start, fates: RouterLives.Fates)

  /** What is on disk when the recorder has died. */
  ghost function Remains(w: int, node: int, r: Recording, t: Turn): Recording
    requires w > 0 && !t.Recorded?
  {
    if t.Reset? then r
    else
      var disk := RouterLives.Dying(w, r.disk, node, t.burst.samples, t.limit);
      var novel := NewKeys(KeysOf(t.burst.samples), StoredSet(r.protocol));
      r.(protocol := r.protocol.(store := r.protocol.store + Kept(novel, KeptPositions(novel, disk))),
         disk := disk, rows := r.rows + t.kept)
  }

  ghost function TurnTaken(w: int, node: int, r: Recording, t: Turn): Recording
    requires w > 0
  {
    if t.Recorded? then RecordBurst(w, node, r, t.burst) else Begun(Remains(w, node, r, t), t.start, t.fates)
  }

  /** Bursts are genuine, and recovery sets no file aside. */
  ghost predicate Proper(w: int, node: int, r: Recording, t: Turn)
    requires w > 0
  {
    if t.Recorded? then Genuine(w, node, r, t.burst) else forall x :: x in t.fates ==> !t.fates[x].SetAside?
  }

  /** The recording goes on without a hole: what lies before the number it begins
      with is on disk or in a gap row. */
  ghost predicate Continues(w: int, node: int, from: int, r: Recording, t: Turn)
    requires w > 0
  {
    t.Recorded?
    || var left := Remains(w, node, r, t); AccountedTo(AnyBoot(), from, left.protocol.store, left.rows, First(t.start))
  }

  lemma RecoveredAgrees(store: seq<Key>, st: Router.State, fates: RouterLives.Fates)
    requires Sane(st) && Agrees(store, st) && forall x :: x in fates ==> !fates[x].SetAside?
    ensures Agrees(store, RouterLives.Recovered(st, fates))
  {
    var st' := RouterLives.Recovered(st, fates);
    forall key
      ensures key in store <==> OnDisk(st', key)
    {
      if OnDisk(st, key) {
        RouterLives.RecoveredKeepsKey(st, fates, key);
      }
      if OnDisk(st', key) {
        var p :| key in KeySet(DiskAt(st', p));
        RouterLives.RecoveredDisk(st, fates, p);
        assert key in KeySet(DiskAt(st, RouterLives.Was(st, p)));
      }
    }
  }

  lemma DyingAgrees(
    w: int, node: int, st: Router.State, store: seq<Key>, known: set<Key>, samples: seq<Sample>, limit: int)
    requires w > 0 && Inv(st) && Agrees(store, st) && known == (set key | key in store)
    ensures var st', novel := RouterLives.Dying(w, st, node, samples, limit), NewKeys(KeysOf(samples), known);
            Inv(st') && Agrees(store + Kept(novel, KeptPositions(novel, st')), st')
  {
    var sifted, st' := Sift(w, st, samples), RouterLives.Dying(w, st, node, samples, limit);
    var start := st.(seen := sifted.seen);
    RouterLives.DyingEffect(w, st, node, samples, limit);
    SiftFacts(w, st, samples);
    AdvancedKeepsInv(w, st, sifted.novel, start, st');
    AdvancedGrows(w, st, sifted.novel, start, st');
    forall key {
      KeyAgrees(w, st, sifted.novel, st', samples, store, known, key);
    }
  }

  lemma RemainsAgree(w: int, node: int, r: Recording, t: Turn)
    requires w > 0 && !t.Recorded? && Inv(r.disk) && Agrees(r.protocol.store, r.disk)
    ensures var left := Remains(w, node, r, t); Inv(left.disk) && Agrees(left.protocol.store, left.disk)
  {
    if t.Died? {
      DyingAgrees(w, node, r.disk, r.protocol.store, StoredSet(r.protocol), t.burst.samples, t.limit);
    }
  }

  lemma BegunSoundIff(from: int, left: Recording, start: Start, fates: RouterLives.Fates)
    requires Inv(left.disk) && Agrees(left.protocol.store, left.disk)
    requires forall x :: x in fates ==> !fates[x].SetAside?
    ensures Sound(from, Begun(left, start, fates))
            <==> AccountedTo(AnyBoot(), from, left.protocol.store, left.rows, First(start))
  {
    RouterLives.RecoveredInv(left.disk, fates);
    RecoveredAgrees(left.protocol.store, left.disk, fates);
    assert left.rows + [] == left.rows;
  }

  /** A turn keeps the recording sound exactly if it leaves no hole. */
  lemma TurnSoundIff(w: int, node: int, from: int, r: Recording, t: Turn)
    requires w > 0 && Sound(from, r) && Proper(w, node, r, t)
    ensures Sound(from, TurnTaken(w, node, r, t)) <==> Continues(w, node, from, r, t)
  {
    if t.Recorded? {
      RecordBurstSound(w, node, r, t.burst, from);
    } else {
      RemainsAgree(w, node, r, t);
      BegunSoundIff(from, Remains(w, node, r, t), t.start, t.fates);
    }
  }

  /** There is no hole if no gap was waiting and the recording begins no later than
      after the node's cursor, or after what the recorder expected. */
  lemma NoHole(w: int, node: int, from: int, r: Recording, t: Turn)
    requires w > 0 && Sound(from, r) && !t.Recorded? && r.waiting == []
    requires First(t.start) <= r.protocol.nodeCursor + 1 || First(t.start) <= r.protocol.expected
    ensures Continues(w, node, from, r, t)
  {
    var left := Remains(w, node, r, t);
    assert r.protocol.gaps == r.rows && r.rows <= left.rows;
    var limit := Max(r.protocol.nodeCursor + 1, r.protocol.expected);
    AccountedToMore(AnyBoot(), from, r.protocol.store, r.rows, left.protocol.store, left.rows, limit);
  }

  /** A restart that leaves a hole: the gap was noted in memory only. */
  lemma WaitingGapLost(w: int, node: int, s: Sample, packetSeq: int)
    requires w > 0 && s.sampleSeq == 5 && s.utcNs == Some(0)
    ensures var r := RecordBurst(w, node, AfterLostCommit(s), SampleFiveAgain(s, packetSeq));
            Sound(4, r) && !Continues(w, node, 4, r, Reset(Start(r.protocol.nodeCursor, 0), map[]))
  {
    var before, c := AfterLostCommit(s), SampleFiveAgain(s, packetSeq);
    var r := RecordBurst(w, node, before, c);
    GapOnlyInMemory(w, node, s, packetSeq);
    RecordingSound(w, node, before, []);
    RecordBurstSound(w, node, before, c, 4);
    assert AccountedTo(AnyBoot(), 4, r.protocol.store, r.rows, 6) ==> Accounted(AnyBoot(), r.protocol.store, r.rows, 4);
    assert r.protocol.nodeCursor == 5;
  }

  ghost function History(w: int, node: int, r: Recording, turns: seq<Turn>): Recording
    requires w > 0
  {
    if turns == [] then r
    else TurnTaken(w, node, History(w, node, r, turns[..|turns| - 1]), turns[|turns| - 1])
  }

  ghost predicate AllProper(w: int, node: int, r: Recording, turns: seq<Turn>)
    requires w > 0
  {
    turns == [] || (AllProper(w, node, r, turns[..|turns| - 1])
      && Proper(w, node, History(w, node, r, turns[..|turns| - 1]), turns[|turns| - 1]))
  }

  ghost predicate NeverAHole(w: int, node: int, from: int, r: Recording, turns: seq<Turn>)
    requires w > 0
  {
    turns == [] || (NeverAHole(w, node, from, r, turns[..|turns| - 1])
      && Continues(w, node, from, History(w, node, r, turns[..|turns| - 1]), turns[|turns| - 1]))
  }

  ghost predicate SoundThroughout(w: int, node: int, from: int, r: Recording, turns: seq<Turn>)
    requires w > 0
  {
    Sound(from, History(w, node, r, turns))
    && (turns == [] || SoundThroughout(w, node, from, r, turns[..|turns| - 1]))
  }

  /** Through any number of restarts and crashes of the recorder: what the first
      start was to cover is, up to either cursor, always on disk or in a gap that is
      in a row or waits for a file, if and only if no restart leaves a hole. */
  lemma {:induction false} HistorySoundIff(w: int, node: int, r: Recording, turns: seq<Turn>)
    requires w > 0 && Opening(r) && AllProper(w, node, r, turns)
    ensures SoundThroughout(w, node, r.protocol.start, r, turns) <==> NeverAHole(w, node, r.protocol.start, r, turns)
  {
    if turns == [] {
      assert r.rows + [] == r.rows;
    } else {
      var n := |turns| - 1;
      HistorySoundIff(w, node, r, turns[..n]);
      var before := History(w, node, r, turns[..n]);
      if SoundThroughout(w, node, r.protocol.start, r, turns[..n]) {
        SoundNow(w, node, r.protocol.start, r, turns[..n]);
        TurnSoundIff(w, node, r.protocol.start, before, turns[n]);
      }
    }
  }

  lemma SoundNow(w: int, node: int, from: int, r: Recording, turns: seq<Turn>)
    requires w > 0 && SoundThroughout(w, node, from, r, turns)
    ensures Sound(from, History(w, node, r, turns))
  {
  }
}
