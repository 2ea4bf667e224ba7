/** The windowed writer itself, proved to do what module Router says. */
module CaptureWindowing {
  import opened Options
  import opened Capture
  import opened Windows
  import opened Router
  import RouterRuns

  class WindowedWriter {
    const windowSeconds: int
    ghost const inherited: set<int>
    ghost const older: seq<seq<Sample>>
    var activeWindows: map<int, seq<Sample>>
    var publishedFiles: map<int, seq<Sample>>
    var finalizedWindows: set<int>
    var unresolved: seq<Sample>
    var seenSampleKeys: set<Key>
    var finalizedKeyCache: map<int, set<Key>>

    ghost function St(): State
      reads this
    {
      State(activeWindows, publishedFiles, finalizedWindows, unresolved, seenSampleKeys, inherited, older)
    }

    /** Cached key sets are those of the published files. */
    ghost predicate Valid()
      reads this
    {
      && windowSeconds > 0
      && forall w :: w in finalizedKeyCache ==> w in publishedFiles && finalizedKeyCache[w] == KeySet(publishedFiles[w])
    }

    /** A session starts from what recovery finds. */
    constructor (
      windowSeconds: int, published: map<int, seq<Sample>>, closed: set<int>, resumed: map<int, seq<Sample>>,
      ended: map<int, seq<Sample>>, older: seq<seq<Sample>>)
      requires windowSeconds > 0 && Startable(published, closed, resumed, ended)
      ensures Valid() && Inv(St()) && Apart()
      ensures this.windowSeconds == windowSeconds && St() == Begin(published, closed, resumed, ended, older)
    {
      this.windowSeconds := windowSeconds;
      inherited := published.Keys + ended.Keys;
      this.older := older;
      activeWindows := resumed;
      publishedFiles := published + ended;
      finalizedWindows := closed + ended.Keys;
      unresolved := [];
      seenSampleKeys := (set w, key | w in resumed && key in KeySet(resumed[w]) :: key)
                        + (set w, key | w in ended && key in KeySet(ended[w]) :: key);
      finalizedKeyCache := map[];
      BeginInv(published, closed, resumed, ended, older);
    }

    /** Open windows have no published file. */
    ghost predicate Apart()
      reads this
    {
      forall w :: w in activeWindows ==> w !in publishedFiles
    }

    method FinalizeWindow(w: int)
      requires Valid() && Apart() && w in activeWindows
      modifies this`activeWindows, this`publishedFiles, this`finalizedWindows
      ensures Valid() && Apart() && St() == Publish(old(St()), w)
    {
      var samples := activeWindows[w];
      activeWindows := activeWindows - {w};
      publishedFiles := publishedFiles[w := samples];
      finalizedWindows := finalizedWindows + {w};
    }

    /** False if the window is already closed; the new window itself may have
        been closed again to make room. */
    method OpenWindow(w: int) returns (ok: bool)
      requires Valid() && Apart()
      modifies this`activeWindows, this`publishedFiles, this`finalizedWindows
      ensures Valid() && Apart()
      ensures ok <==> w in old(activeWindows) || !Closed(old(St()), w)
      ensures St() == if ok then EnsureWindow(old(St()), w) else old(St())
    {
      if w in activeWindows {
        return true;
      }
      if w in publishedFiles || w in finalizedWindows {
        return false;
      }
      activeWindows := activeWindows[w := []];
      ghost var grown := St();
      while |activeWindows| > MAX_OPEN
        invariant Valid() && Apart()
        invariant Evict(St()) == Evict(grown)
        decreases |activeWindows.Keys|
      {
        var oldest := Min(activeWindows.Keys);
        ghost var before := activeWindows;
        FinalizeWindow(oldest);
        assert activeWindows.Keys == before.Keys - {oldest};
      }
      ok := true;
    }

    /** The keys of a published file are read once and then remembered. */
    method ExistsInFinalizedWindow(w: int, key: Key) returns (found: bool)
      requires Valid() && w in publishedFiles
      modifies this`finalizedKeyCache
      ensures Valid() && found == (key in KeySet(publishedFiles[w]))
    {
      if w !in finalizedKeyCache {
        finalizedKeyCache := finalizedKeyCache[w := KeySet(publishedFiles[w])];
      }
      found := key in finalizedKeyCache[w];
    }

    /** What classifying a batch leaves: the samples to write, by target. */
    ghost predicate Grouped(origin: State, novel: seq<Sample>, grouped: map<int, seq<Sample>>, late: seq<Sample>)
      requires windowSeconds > 0
    {
      && grouped.Keys == Targets(windowSeconds, origin, novel)
      && (forall x :: x in grouped ==> grouped[x] == Group(windowSeconds, origin, novel, Window(x)))
      && late == Group(windowSeconds, origin, novel, Unresolved)
    }

    lemma TargetsGrow(origin: State, novel: seq<Sample>, s: Sample)
      requires windowSeconds > 0
      ensures var t := Target(windowSeconds, origin, s);
              Targets(windowSeconds, origin, novel + [s])
              == Targets(windowSeconds, origin, novel) + (if t.Window? then {t.start} else {})
    {
      assert forall x :: x in novel + [s] <==> x in novel || x == s;
    }

    lemma LateGrows(origin: State, novel: seq<Sample>, grouped: map<int, seq<Sample>>, late: seq<Sample>, s: Sample)
      requires windowSeconds > 0 && Grouped(origin, novel, grouped, late)
               && Target(windowSeconds, origin, s) == Unresolved
      ensures Grouped(origin, novel + [s], grouped, late + [s])
    {
      TargetsGrow(origin, novel, s);
      RouterRuns.GroupSnoc(windowSeconds, origin, novel, s, Unresolved);
      forall x | x in grouped
        ensures grouped[x] == Group(windowSeconds, origin, novel + [s], Window(x))
      {
        RouterRuns.GroupSnoc(windowSeconds, origin, novel, s, Window(x));
      }
    }

    lemma WindowGrows(
      origin: State, novel: seq<Sample>, grouped: map<int, seq<Sample>>, late: seq<Sample>, s: Sample, start: int)
      requires windowSeconds > 0 && Grouped(origin, novel, grouped, late)
               && Target(windowSeconds, origin, s) == Window(start)
      ensures var before := if start in grouped then grouped[start] else [];
              Grouped(origin, novel + [s], grouped[start := before + [s]], late)
    {
      var before := if start in grouped then grouped[start] else [];
      var grouped' := grouped[start := before + [s]];
      TargetsGrow(origin, novel, s);
      RouterRuns.GroupSnoc(windowSeconds, origin, novel, s, Unresolved);
      if start !in grouped {
        RouterRuns.EmptyGroup(windowSeconds, origin, novel, Window(start));
      }
      assert before == Group(windowSeconds, origin, novel, Window(start));
      forall x | x in grouped'
        ensures grouped'[x] == Group(windowSeconds, origin, novel + [s], Window(x))
      {
        RouterRuns.GroupSnoc(windowSeconds, origin, novel, s, Window(x));
      }
    }

    method Classify(samples: seq<Sample>)
      returns (grouped: map<int, seq<Sample>>, late: seq<Sample>, ghost novel: seq<Sample>)
      requires Valid()
      modifies this`seenSampleKeys, this`finalizedKeyCache
      ensures Valid()
      ensures Sifted(seenSampleKeys, novel) == Sift(windowSeconds, old(St()), samples)
      ensures Grouped(old(St()), novel, grouped, late)
    {
      ghost var origin := St();
      grouped, late, novel := map[], [], [];
      for i := 0 to |samples|
        invariant Valid()
        invariant Sifted(seenSampleKeys, novel) == Sift(windowSeconds, origin, samples[..i])
        invariant Grouped(origin, novel, grouped, late)
      {
        var s := samples[i];
        assert samples[..i + 1][..i] == samples[..i];
        if KeyOf(s) in seenSampleKeys {
          continue;
        }
        if s.utcNs.Some? {
          var estimated := WindowStart(windowSeconds, s.utcNs.value);
          if estimated in publishedFiles {
            var found := ExistsInFinalizedWindow(estimated, KeyOf(s));
            if found {
              seenSampleKeys := seenSampleKeys + {KeyOf(s)};
              continue;
            }
          }
        }
        var window, marked := Route(s);
        if window == None {
          LateGrows(origin, novel, grouped, late, marked);
          late := late + [marked];
        } else {
          var w := window.value;
          WindowGrows(origin, novel, grouped, late, marked, w);
          grouped := grouped[w := (if w in grouped then grouped[w] else []) + [marked]];
        }
        novel := novel + [marked];
      }
      assert samples[..|samples|] == samples;
    }

    /** The window for a sample, if an open one may take it, and its flags. */
    method Route(s: Sample) returns (window: Option<int>, marked: Sample)
      requires Valid()
      ensures marked == Mark(windowSeconds, St(), s)
      ensures Target(windowSeconds, St(), marked) == if window.Some? then Window(window.value) else Unresolved
    {
      if s.utcNs == None {
        return None, s.(routing := {InitiallyUnsynced});
      }
      var utc := s.utcNs.value;
      var start := WindowStart(windowSeconds, utc);
      var flags := {UtcValid};
      var slack := GetOr(s.uncertaintyNs, 0);
      if utc - slack < start * NS || utc + slack >= (start + windowSeconds) * NS {
        flags := flags + {BoundaryUncertain};
      }
      if start in finalizedWindows || start in publishedFiles {
        flags := flags + {LateArrival};
        return None, s.(routing := flags);
      }
      window, marked := Some(start), s.(routing := flags);
    }

    /** The file drops what it already holds. */
    method AppendTo(start: int, samples: seq<Sample>)
      requires Valid() && Apart() && start in activeWindows
      modifies this`activeWindows, this`seenSampleKeys
      ensures Valid() && Apart() && St() == Router.AppendTo(old(St()), start, samples)
    {
      var file := activeWindows[start];
      activeWindows := activeWindows[start := file + Fresh(samples, KeySet(file))];
      seenSampleKeys := seenSampleKeys + KeySet(samples);
    }

    method WriteGrouped(node: int, grouped: map<int, seq<Sample>>, ghost origin: State, ghost novel: seq<Sample>)
      returns (outcome: Router.Outcome)
      requires Valid() && Apart()
      requires forall x :: x in grouped ==> grouped[x] == Group(windowSeconds, origin, novel, Window(x))
      modifies this`activeWindows, this`publishedFiles, this`finalizedWindows, this`seenSampleKeys
      ensures Valid() && Apart()
      ensures Result(outcome, St()) == WriteGroups(windowSeconds, origin, old(St()), node, novel, grouped.Keys)
    {
      var todo := grouped.Keys;
      while todo != {}
        invariant Valid() && Apart()
        invariant todo <= grouped.Keys
        invariant WriteGroups(windowSeconds, origin, St(), node, novel, todo)
                  == WriteGroups(windowSeconds, origin, old(St()), node, novel, grouped.Keys)
        decreases todo
      {
        var start := Min(todo);
        var open := OpenWindow(start);
        if !open {
          return Shut(start);
        }
        if start !in activeWindows {
          return Lost(start);
        }
        if !Acceptable(node, grouped[start]) {
          return Router.Invalid;
        }
        AppendTo(start, grouped[start]);
        todo := todo - {start};
      }
      outcome := Written;
    }

    method WriteLate(node: int, late: seq<Sample>) returns (outcome: Router.Outcome)
      requires Valid() && Apart()
      modifies this`unresolved, this`seenSampleKeys
      ensures Valid() && Apart()
      ensures Result(outcome, St()) == WriteUnresolved(old(St()), node, late)
    {
      if late != [] {
        if !Acceptable(node, late) {
          return Router.Invalid;
        }
        unresolved := unresolved + Fresh(late, KeySet(unresolved));
        seenSampleKeys := seenSampleKeys + KeySet(late);
      }
      outcome := Written;
    }

    method WriteSamples(node: int, samples: seq<Sample>) returns (outcome: Router.Outcome)
      requires Valid() && Apart()
      modifies this
      ensures Valid() && Apart()
      ensures Result(outcome, St()) == Router.WriteSamples(windowSeconds, old(St()), node, samples)
    {
      ghost var origin := St();
      var grouped, late;
      ghost var novel;
      grouped, late, novel := Classify(samples);
      outcome := WriteGrouped(node, grouped, origin, novel);
      if outcome == Written {
        outcome := WriteLate(node, late);
      }
    }
  }
}
