/** What the control points of an Archive say about the times of the samples. */
module ArchiveTiming {
  import opened Options
  import opened Selections
  import opened Capture
  import opened CaptureReader
  import opened CaptureRuns
  import opened BlockRows
  import opened ControlPoints
  import opened Archive
  import opened Compaction
  import opened ArchiveBuild
  import opened SourceRows
  import opened ArchiveMeaning

  // ----- every control point is the time stamp of a sample -----

  /** The point is the time stamp of the sample at its offset. */
  ghost predicate Stamps(p: ControlPoint, samples: seq<Sample>) {
    && 0 <= p.offset < |samples|
    && samples[p.offset].utcNs == Some(p.utcNs) && p.utcNs >= 0
    && samples[p.offset].timingFlags == p.timingFlags
    && (samples[p.offset].deviceTimeUs == None ==> p.deviceTimeUs == 0)
    && (samples[p.offset].deviceTimeUs.Some? ==> p.deviceTimeUs == samples[p.offset].deviceTimeUs.value)
    && (samples[p.offset].uncertaintyNs.Some? ==> samples[p.offset].uncertaintyNs.value <= p.uncertaintyNs)
  }

  lemma {:induction false} CandidateRow(blocks: seq<Block>, p: ControlPoint) returns (k: nat)
    requires p in AllCandidates(blocks)
    ensures k < |blocks| && p in Candidates(blocks[k])
  {
    k := |blocks| - 1;
    if p !in Candidates(blocks[k]) {
      k := CandidateRow(blocks[..k], p);
    }
  }

  lemma {:induction false} RowCandidates(blocks: seq<Block>, k: nat, p: ControlPoint)
    requires k < |blocks| && p in Candidates(blocks[k])
    ensures p in AllCandidates(blocks)
  {
    var m := |blocks| - 1;
    if k < m {
      RowCandidates(blocks[..m], k, p);
    }
  }

  lemma CandidateStamps(b: Block, samples: seq<Sample>, p: ControlPoint)
    requires Tells(b, samples) && p in Candidates(b)
    ensures Stamps(p, samples)
  {
  }

  /** Each control point of a published Archive is the time stamp of a sample. */
  lemma {:induction false} ControlsStamp(
    a: ArchiveFile, sources: seq<Source>, histories: seq<History>, tolerance: int, at: seq<nat>, c: nat)
    requires WrittenBy(sources, histories) && Timed(a, sources, tolerance, at) && c < |a.controls|
    ensures Stamps(a.controls[c], AllStored(histories))
  {
    var blocks, p := Joined(sources), a.controls[c];
    JoinedTell(sources, histories);
    assert p == AllCandidates(blocks)[at[c]];
    var k := CandidateRow(blocks, p);
    CandidateStamps(blocks[k], AllStored(histories), p);
  }

  // ----- every end of a row is dated -----

  /** Sample i is the first or the last of a row. */
  ghost predicate EndsRow(blocks: seq<Block>, i: int) {
    exists k :: 0 <= k < |blocks|
      && (i == blocks[k].sampleOffset || i == blocks[k].sampleOffset + blocks[k].sampleCount - 1)
  }

  /** The time lies on the exact line between control points j and j + 1, which
      enclose the offset, or is off it by less than one nanosecond more than the
      tolerance. */
  ghost predicate NearLine(controls: seq<ControlPoint>, j: int, offset: int, utcNs: int, tolerance: int) {
    && 0 <= j < |controls| - 1
    && controls[j].offset <= offset <= controls[j + 1].offset && controls[j].offset < controls[j + 1].offset
    && var width := controls[j + 1].offset - controls[j].offset;
       var missed := (utcNs - controls[j].utcNs) * width
         - (controls[j + 1].utcNs - controls[j].utcNs) * (offset - controls[j].offset);
       -(tolerance + 1) * width < missed < (tolerance + 1) * width
  }

  /** The time is that of a control point, or near the line between two. */
  ghost predicate Dated(controls: seq<ControlPoint>, offset: int, utcNs: int, tolerance: int) {
    || (exists j :: 0 <= j < |controls| && controls[j].offset == offset && controls[j].utcNs == utcNs)
    || (exists j :: NearLine(controls, j, offset, utcNs, tolerance))
  }

  lemma ReconstructsNear(controls: seq<ControlPoint>, j: int, p: ControlPoint, tolerance: int)
    requires Reconstructs(controls, j, p, tolerance) && tolerance >= 0
    ensures NearLine(controls, j, p.offset, p.utcNs, tolerance)
  {
    var a, b := controls[j], controls[j + 1];
    var q, width := Interpolate(a, b, p.offset), b.offset - a.offset;
    InterpolateRoundsDown(a, b, p.offset);
    Missed(p.utcNs, a.utcNs, q, width, (b.utcNs - a.utcNs) * (p.offset - a.offset), tolerance);
  }

  lemma Missed(utc: int, start: int, q: int, width: int, rise: int, tolerance: int)
    requires width > 0 && -tolerance <= utc - q <= tolerance
    requires q * width <= start * width + rise < q * width + width
    ensures -(tolerance + 1) * width < (utc - start) * width - rise < (tolerance + 1) * width
  {
    assert (utc - start) * width == utc * width - start * width;
    assert (utc - q) * width == utc * width - q * width;
    Scaled(utc - q, tolerance, width);
    Scaled(-tolerance, utc - q, width);
    assert (tolerance + 1) * width == tolerance * width + width;
  }

  lemma Scaled(a: int, b: int, w: int)
    requires a <= b && w > 0
    ensures a * w <= b * w
  {
  }

  lemma RecoveredIsDated(controls: seq<ControlPoint>, p: ControlPoint, tolerance: int)
    requires Recovered(p, controls, tolerance) && tolerance >= 0
    ensures Dated(controls, p.offset, p.utcNs, tolerance)
  {
    if p in controls {
      var j :| 0 <= j < |controls| && controls[j] == p;
    } else {
      var j :| Reconstructs(controls, j, p, tolerance);
      ReconstructsNear(controls, j, p, tolerance);
    }
  }

  lemma EndIsCandidate(b: Block, samples: seq<Sample>, i: int) returns (p: ControlPoint)
    requires Tells(b, samples) && AllResolved(samples)
    requires i == b.sampleOffset || i == b.sampleOffset + b.sampleCount - 1
    requires samples[i].utcNs.Some?
    ensures p in Candidates(b) && p.offset == i && p.utcNs == samples[i].utcNs.value
  {
    var first := samples[b.sampleOffset];
    assert first.routing == b.routing == samples[i].routing && Resolved(first) && Resolved(samples[i]);
    p := if i == b.sampleOffset then Candidates(b)[0] else Candidates(b)[1];
  }

  /** In a published Archive the time of every first and last sample of a row is
      found, within the tolerance. */
  lemma {:induction false} ArchiveTimes(
    a: ArchiveFile, sources: seq<Source>, histories: seq<History>, tolerance: int, at: seq<nat>, i: nat)
    requires WrittenBy(sources, histories) && Timed(a, sources, tolerance, at) && tolerance >= 0
    requires AllResolved(AllStored(histories)) && i < |AllStored(histories)|
    requires EndsRow(Joined(sources), i) && AllStored(histories)[i].utcNs.Some?
    ensures Dated(a.controls, i, AllStored(histories)[i].utcNs.value, tolerance)
  {
    var blocks, samples := Joined(sources), AllStored(histories);
    JoinedTell(sources, histories);
    var k :| 0 <= k < |blocks|
      && (i == blocks[k].sampleOffset || i == blocks[k].sampleOffset + blocks[k].sampleCount - 1);
    var p := EndIsCandidate(blocks[k], samples, i);
    RowCandidates(blocks, k, p);
    var c :| 0 <= c < |AllCandidates(blocks)| && AllCandidates(blocks)[c] == p;
    RecoveredIsDated(a.controls, p, tolerance);
  }
}
