/** From the router to the Archive: what is archived of window files. */
module WindowArchives {
  import opened Options
  import opened Capture
  import opened CaptureReader
  import opened CaptureRuns
  import opened Router
  import opened RouterRuns
  import RouterLives
  import opened QualityRows
  import opened Archive
  import opened Compaction
  import opened ArchiveBuild
  import opened SourceRows
  import opened ArchiveMeaning

  /** The histories of these windows through a life. */
  ghost function WindowHistories(
    w: int, st: State, life: seq<RouterLives.Occasion>, starts: seq<int>): (histories: seq<History>)
    requires w > 0
    ensures |histories| == |starts|
    ensures forall j :: 0 <= j < |starts| ==>
              histories[j] == RouterLives.FileEvents(w, st, life, Router.Window(starts[j]))
  {
    seq(|starts|, j requires 0 <= j < |starts| => RouterLives.FileEvents(w, st, life, Router.Window(starts[j])))
  }

  /** A life that begins with files that fit, and none yet for these later windows. */
  ghost predicate Begins(w: int, st: State, starts: seq<int>)
    requires w > 0
  {
    && Inv(st) && RouterLives.DiskFits(w, st)
    && forall j :: 0 <= j < |starts| ==> starts[j] > 0 && DiskAt(st, Router.Window(starts[j])) == []
  }

  lemma {:induction false} WindowFits(
    w: int, st: State, life: seq<RouterLives.Occasion>, start: int, s: Sample)
    requires w > 0 && Inv(st) && RouterLives.DiskFits(w, st) && start > 0
    requires DiskAt(st, Router.Window(start)) == []
    requires s in Stored(RouterLives.FileEvents(w, st, life, Router.Window(start)))
    ensures FitsWindow(w, start, s) && Resolved(s)
  {
    RouterLives.FileStored(w, st, life, Router.Window(start));
    RouterLives.LifeKeeps(w, st, life);
    assert FitsPlace(w, Router.Window(start), s);
    LaterWindow(w, start, s.utcNs.value);
  }

  /** Each stored sample is one of a source. */
  lemma {:induction false} StoredFrom(histories: seq<History>, i: nat) returns (j: nat, r: nat)
    requires i < |AllStored(histories)|
    ensures j < |histories| && r < |Stored(histories[j])| && i == |AllStored(histories[..j])| + r
    ensures AllStored(histories)[i] == Stored(histories[j])[r]
  {
    var n := |histories| - 1;
    if i < |AllStored(histories[..n])| {
      j, r := StoredFrom(histories[..n], i);
      assert histories[..n][..j] == histories[..j];
    } else {
      j, r := n, i - |AllStored(histories[..n])|;
    }
  }

  lemma {:induction false} WindowsResolved(w: int, st: State, life: seq<RouterLives.Occasion>, starts: seq<int>)
    requires w > 0 && Begins(w, st, starts)
    ensures AllResolved(AllStored(WindowHistories(w, st, life, starts)))
  {
    var histories := WindowHistories(w, st, life, starts);
    forall i | 0 <= i < |AllStored(histories)|
      ensures Resolved(AllStored(histories)[i])
    {
      var j, r := StoredFrom(histories, i);
      WindowFits(w, st, life, starts[j], Stored(histories[j])[r]);
    }
  }

  /** What the Archive says of the quality of a sample of a window. */
  ghost predicate TellsOfWindow(w: int, start: int, s: Sample, q: set<Flag>)
    requires w > 0
  {
    && s.utcNs.Some? && WindowStart(w, s.utcNs.value) == start && TimeUnsynced !in q
    && (MeasurementInvalid in q <==> s.timingFlags / 4 % 2 == 1)
    && (TimeUncertain in q <==> s.timingFlags / 4 % 2 == 1)
    && (GetOr(s.uncertaintyNs, 0) >= 0 ==>
         (Flag.BoundaryUncertain in q <==> !Certain(w, start, s.utcNs.value, GetOr(s.uncertaintyNs, 0))))
  }

  lemma FitTells(w: int, start: int, s: Sample, q: set<Flag>)
    requires w > 0 && FitsWindow(w, start, s) && QualityTells(q, s)
    ensures TellsOfWindow(w, start, s, q)
  {
  }

  /** The sample is one of a file of these windows, and fits it. */
  lemma {:induction false} StoredFits(
    w: int, st: State, life: seq<RouterLives.Occasion>, starts: seq<int>, i: nat) returns (j: nat)
    requires w > 0 && Begins(w, st, starts) && i < |AllStored(WindowHistories(w, st, life, starts))|
    ensures var s := AllStored(WindowHistories(w, st, life, starts))[i];
            j < |starts| && FitsWindow(w, starts[j], s)
            && s in DiskAt(RouterLives.Life(w, st, life), Router.Window(starts[j]))
  {
    var histories := WindowHistories(w, st, life, starts);
    var r;
    j, r := StoredFrom(histories, i);
    WindowFits(w, st, life, starts[j], Stored(histories[j])[r]);
    RouterLives.FileStored(w, st, life, Router.Window(starts[j]));
  }

  /** In an Archive of window files after the first, however the recorder was called,
      restarted and killed: every sample is one that the router has filed under its
      window, it has a time, is not marked as unsynchronised, and is marked as
      uncertain at the boundary exactly if its time may lie outside the window, and
      as invalid exactly if the node said so. */
  lemma {:induction false} ArchiveOfWindows(
    w: int, st: State, life: seq<RouterLives.Occasion>, starts: seq<int>, histories: seq<History>, a: ArchiveFile,
    sources: seq<Source>, i: nat) returns (j: nat)
    requires w > 0 && Begins(w, st, starts) && histories == WindowHistories(w, st, life, starts)
    requires ValidSources(sources) && Faithful(a, sources) && WrittenBy(sources, histories) && i < |a.raw|
    ensures a.raw == RawOf(AllStored(histories))
    ensures var s := AllStored(histories)[i];
            && j < |starts| && s in DiskAt(RouterLives.Life(w, st, life), Router.Window(starts[j]))
            && TellsOfWindow(w, starts[j], s, FlagsAt(a.quality, i))
  {
    WindowsResolved(w, st, life, starts);
    ArchiveQuality(a, sources, histories, i);
    j := StoredFits(w, st, life, starts, i);
    FitTells(w, starts[j], AllStored(histories)[i], FlagsAt(a.quality, i));
  }
}
