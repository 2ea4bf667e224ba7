/** The open windows of the router as a set of start times: which ones eviction
    publishes, and which new window survives it. */
module Windows {

  const MAX_OPEN: nat := 3

  predicate IsMin(s: set<int>, m: int) {
    m in s && forall x :: x in s ==> m <= x
  }

  lemma Inhabited<T>(s: set<T>) returns (x: T)
    requires s != {}
    ensures x in s
  {
    x :| x in s;
  }

  lemma {:induction false} MinExists(s: set<int>)
    requires s != {}
    ensures exists m :: IsMin(s, m)
  {
    var x := Inhabited(s);
    if s == {x} {
      assert IsMin(s, x);
    } else {
      MinExists(s - {x});
      var m :| IsMin(s - {x}, m);
      assert s == (s - {x}) + {x};
      assert IsMin(s, if x < m then x else m);
    }
  }

  function Min(s: set<int>): (m: int)
    requires s != {}
    ensures IsMin(s, m)
  {
    MinExists(s);
    var m :| IsMin(s, m);
    m
  }

  /** What stays open: the newest three. */
  function Survivors(open: set<int>): (kept: set<int>)
    ensures kept <= open
    ensures |kept| <= MAX_OPEN
    ensures |open| <= MAX_OPEN ==> kept == open
    decreases |open|
  {
    if |open| <= MAX_OPEN then open else Survivors(open - {Min(open)})
  }

  ghost function NewerThan(open: set<int>, w: int): set<int> {
    set x | x in open && x > w
  }

  lemma {:induction false} SurvivorsAreNewest(open: set<int>)
    ensures forall x, y :: x in Survivors(open) && y in open - Survivors(open) ==> y < x
    ensures Survivors(open) != open ==> |Survivors(open)| == MAX_OPEN
    decreases |open|
  {
    if |open| > MAX_OPEN {
      var rest := open - {Min(open)};
      SurvivorsAreNewest(rest);
      assert |rest| == |open| - 1;
      forall x, y | x in Survivors(open) && y in open - Survivors(open)
        ensures y < x
      {
        assert x in rest && (y == Min(open) || y in rest - Survivors(rest));
      }
    }
  }

  lemma SubsetSize(a: set<int>, b: set<int>)
    requires a <= b
    ensures |a| <= |b|
  {
    assert b == a + (b - a);
  }

  /** A window survives exactly if fewer than three open ones are newer. */
  lemma SurvivesIff(open: set<int>, w: int)
    requires w in open
    ensures w in Survivors(open) <==> |NewerThan(open, w)| < MAX_OPEN
  {
    SurvivorsAreNewest(open);
    var kept := Survivors(open);
    if w in kept {
      forall x | x in NewerThan(open, w)
        ensures x in kept
      {
        assert x in kept || x in open - kept;
      }
      SubsetSize(NewerThan(open, w), kept - {w});
    } else {
      assert w in open - kept;
      assert forall x :: x in kept ==> x in NewerThan(open, w);
      SubsetSize(kept, NewerThan(open, w));
    }
  }

  /** Opening one more window: it stays open exactly if fewer than three open
      ones are newer, and then no newer window is closed for it. */
  lemma Newcomer(open: set<int>, w: int)
    requires w !in open
    ensures w in Survivors(open + {w}) <==> |NewerThan(open, w)| < MAX_OPEN
    ensures w in Survivors(open + {w}) ==> forall x :: x > w ==> (x in Survivors(open + {w}) <==> x in open)
  {
    var grown := open + {w};
    SurvivesIff(grown, w);
    SurvivorsAreNewest(grown);
    assert NewerThan(grown, w) == NewerThan(open, w);
    if w in Survivors(grown) {
      forall x | x > w && x in open
        ensures x in Survivors(grown)
      {
        assert x in Survivors(grown) || x in grown - Survivors(grown);
      }
    }
  }
}
