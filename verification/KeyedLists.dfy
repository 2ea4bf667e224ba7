/** Lists whose entries have identities, merged entry by entry. What an entry is,
    its identity and how two entries of one identity join are parameters. */
module KeyedLists {
  /** The last position of an identity, or -1. */
  ghost function At<T, K>(items: seq<T>, key: K, id: T -> K): (k: int)
    ensures -1 <= k < |items|
    ensures k >= 0 ==> id(items[k]) == key
    ensures forall j :: k < j < |items| ==> id(items[j]) != key
  {
    if items == [] then -1
    else if id(items[|items| - 1]) == key then |items| - 1
    else At(items[..|items| - 1], key, id)
  }

  ghost predicate Distinct<T, K>(items: seq<T>, id: T -> K) {
    forall i, j :: 0 <= i < j < |items| ==> id(items[i]) != id(items[j])
  }

  /** Joining two entries of one identity keeps it. */
  ghost predicate Keeps<T(!new), K>(id: T -> K, join: (T, T) -> T) {
    forall x, y :: id(x) == id(y) ==> id(join(x, y)) == id(y)
  }

  ghost function Upsert<T, K>(items: seq<T>, x: T, id: T -> K, join: (T, T) -> T): seq<T> {
    var k := At(items, id(x), id);
    if k >= 0 then items[k := join(items[k], x)] else items + [x]
  }

  ghost function Merge<T, K>(items: seq<T>, overlay: seq<T>, id: T -> K, join: (T, T) -> T): seq<T> {
    if overlay == [] then items
    else Upsert(Merge(items, overlay[..|overlay| - 1], id, join), overlay[|overlay| - 1], id, join)
  }

  // ----- the shape of a merged list -----

  /** An entry joined with its counterpart, if it has one. */
  ghost function Joined<T, K>(x: T, overlay: seq<T>, id: T -> K, join: (T, T) -> T): T {
    var k := At(overlay, id(x), id);
    if k >= 0 then join(x, overlay[k]) else x
  }

  ghost function Updated<T, K>(items: seq<T>, overlay: seq<T>, id: T -> K, join: (T, T) -> T): (r: seq<T>)
    ensures |r| == |items| && forall i :: 0 <= i < |r| ==> r[i] == Joined(items[i], overlay, id, join)
  {
    seq(|items|, i requires 0 <= i < |items| => Joined(items[i], overlay, id, join))
  }

  /** The overlay's other entries, in the overlay's order. */
  ghost function Added<T, K>(items: seq<T>, overlay: seq<T>, id: T -> K): seq<T> {
    if overlay == [] then []
    else
      var last := overlay[|overlay| - 1];
      Added(items, overlay[..|overlay| - 1], id) + (if At(items, id(last), id) < 0 then [last] else [])
  }

  ghost function Shape<T, K>(items: seq<T>, overlay: seq<T>, id: T -> K, join: (T, T) -> T): seq<T> {
    Updated(items, overlay, id, join) + Added(items, overlay, id)
  }

  lemma JoinedId<T(!new), K>(x: T, overlay: seq<T>, id: T -> K, join: (T, T) -> T)
    requires Keeps(id, join)
    ensures id(Joined(x, overlay, id, join)) == id(x)
  {
  }

  lemma AddedSnoc<T, K>(items: seq<T>, overlay: seq<T>, last: T, id: T -> K)
    ensures Added(items, overlay + [last], id)
            == if At(items, id(last), id) < 0 then Added(items, overlay, id) + [last] else Added(items, overlay, id)
  {
    assert (overlay + [last])[..|overlay|] == overlay;
  }

  lemma ConcatSnoc<T>(u: seq<T>, a: seq<T>, x: T)
    ensures (u + a) + [x] == u + (a + [x])
  {
  }

  lemma ConcatUpdate<T>(u: seq<T>, a: seq<T>, k: nat, x: T)
    requires k < |u|
    ensures (u + a)[k := x] == u[k := x] + a
  {
  }

  lemma InitAndLast<T>(s: seq<T>)
    requires s != []
    ensures s == s[..|s| - 1] + [s[|s| - 1]]
  {
  }

  lemma ConcatThree<T>(a: seq<T>, b: seq<T>, c: seq<T>)
    ensures (a + b) + c == a + (b + c)
  {
  }

  /** Identities occur in the merged list where they occur in either. */
  lemma {:induction false} AddedAt<T, K>(items: seq<T>, overlay: seq<T>, id: T -> K, key: K)
    requires Distinct(overlay, id)
    ensures At(Added(items, overlay, id), key, id) >= 0 <==> At(overlay, key, id) >= 0 && At(items, key, id) < 0
    ensures At(Added(items, overlay, id), key, id) >= 0 ==>
              Added(items, overlay, id)[At(Added(items, overlay, id), key, id)] == overlay[At(overlay, key, id)]
  {
    if overlay != [] {
      var n := |overlay| - 1;
      var before := Added(items, overlay[..n], id);
      AddedAt(items, overlay[..n], id, key);
      assert overlay == overlay[..n] + [overlay[n]];
      AtAppended(overlay[..n], overlay[n], key, id);
      if At(items, id(overlay[n]), id) < 0 {
        AtAppended(before, overlay[n], key, id);
        FreshBefore(items, overlay, id);
      } else {
        assert Added(items, overlay, id) == before;
      }
    }
  }

  lemma FreshBefore<T, K>(items: seq<T>, overlay: seq<T>, id: T -> K)
    requires overlay != [] && Distinct(overlay, id)
    ensures At(overlay[..|overlay| - 1], id(overlay[|overlay| - 1]), id) < 0
  {
  }

  /** In a list of distinct identities an identity is at one place. */
  lemma AtUnique<T, K>(items: seq<T>, k: int, id: T -> K)
    requires Distinct(items, id) && 0 <= k < |items|
    ensures At(items, id(items[k]), id) == k
  {
  }

  lemma AtAppended<T, K>(items: seq<T>, last: T, key: K, id: T -> K)
    ensures At(items + [last], key, id) == if id(last) == key then |items| else At(items, key, id)
  {
    assert (items + [last])[..|items|] == items;
  }

  /** Where an identity is in a concatenation. */
  lemma {:induction false} AtConcat<T, K>(a: seq<T>, b: seq<T>, key: K, id: T -> K)
    ensures At(a + b, key, id) == if At(b, key, id) >= 0 then |a| + At(b, key, id) else At(a, key, id)
  {
    if b == [] {
      assert a + b == a;
    } else {
      var n := |b| - 1;
      assert a + b == (a + b[..n]) + [b[n]];
      AtConcat(a, b[..n], key, id);
      AtAppended(a + b[..n], b[n], key, id);
    }
  }

  lemma {:induction false} AtSameIds<T, K>(a: seq<T>, b: seq<T>, key: K, id: T -> K)
    requires |a| == |b| && forall i :: 0 <= i < |a| ==> id(a[i]) == id(b[i])
    ensures At(a, key, id) == At(b, key, id)
  {
    if a != [] {
      AtSameIds(a[..|a| - 1], b[..|a| - 1], key, id);
    }
  }

  lemma UpdatedAt<T(!new), K>(items: seq<T>, overlay: seq<T>, key: K, id: T -> K, join: (T, T) -> T)
    requires Keeps(id, join)
    ensures At(Updated(items, overlay, id, join), key, id) == At(items, key, id)
  {
    var u := Updated(items, overlay, id, join);
    forall i | 0 <= i < |u|
      ensures id(u[i]) == id(items[i])
    {
      JoinedId(items[i], overlay, id, join);
    }
    AtSameIds(u, items, key, id);
  }

  /** Where an identity is in the merged list, and what is there. */
  lemma ShapeAt<T(!new), K>(items: seq<T>, overlay: seq<T>, key: K, id: T -> K, join: (T, T) -> T)
    requires Keeps(id, join) && Distinct(overlay, id)
    ensures var s := Shape(items, overlay, id, join);
            var k, i, o := At(s, key, id), At(items, key, id), At(overlay, key, id);
            && (k >= 0 <==> i >= 0 || o >= 0)
            && (i >= 0 ==> k == i && s[k] == if o >= 0 then join(items[i], overlay[o]) else items[i])
            && (i < 0 && o >= 0 ==> s[k] == overlay[o])
  {
    UpdatedAt(items, overlay, key, id, join);
    AddedAt(items, overlay, id, key);
    AtConcat(Updated(items, overlay, id, join), Added(items, overlay, id), key, id);
  }

  lemma JoinedGrows<T, K>(x: T, overlay: seq<T>, last: T, id: T -> K, join: (T, T) -> T)
    ensures Joined(x, overlay + [last], id, join)
            == if id(x) == id(last) then join(x, last) else Joined(x, overlay, id, join)
  {
    AtAppended(overlay, last, id(x), id);
  }

  lemma UpdatedGrows<T(!new), K>(items: seq<T>, overlay: seq<T>, last: T, id: T -> K, join: (T, T) -> T)
    requires Distinct(items, id)
    ensures var k, u := At(items, id(last), id), Updated(items, overlay, id, join);
            Updated(items, overlay + [last], id, join) == if k >= 0 then u[k := join(items[k], last)] else u
  {
    var k, u := At(items, id(last), id), Updated(items, overlay, id, join);
    var u' := Updated(items, overlay + [last], id, join);
    forall i | 0 <= i < |items|
      ensures u'[i] == if i == k then join(items[i], last) else u[i]
    {
      JoinedGrows(items[i], overlay, last, id, join);
      AtUnique(items, i, id);
    }
  }

  /** One more overlay entry either updates its counterpart or is appended. */
  lemma ShapeGrows<T(!new), K>(items: seq<T>, overlay: seq<T>, last: T, id: T -> K, join: (T, T) -> T)
    requires Keeps(id, join) && Distinct(items, id) && Distinct(overlay, id) && At(overlay, id(last), id) < 0
    ensures Upsert(Shape(items, overlay, id, join), last, id, join) == Shape(items, overlay + [last], id, join)
  {
    var u, a := Updated(items, overlay, id, join), Added(items, overlay, id);
    var k := At(items, id(last), id);
    ShapeAt(items, overlay, id(last), id, join);
    UpdatedGrows(items, overlay, last, id, join);
    AddedSnoc(items, overlay, last, id);
    if k >= 0 {
      ConcatUpdate(u, a, k, join(items[k], last));
    } else {
      ConcatSnoc(u, a, last);
    }
  }

  /** Lists of distinct identities merge into: the base entries in their order,
      each joined with its counterpart, then the new ones in overlay order. */
  lemma {:induction false} MergedShape<T(!new), K>(items: seq<T>, overlay: seq<T>, id: T -> K, join: (T, T) -> T)
    requires Keeps(id, join) && Distinct(items, id) && Distinct(overlay, id)
    ensures Merge(items, overlay, id, join) == Shape(items, overlay, id, join)
  {
    if overlay == [] {
      assert Updated(items, overlay, id, join) == items;
    } else {
      var n := |overlay| - 1;
      assert overlay == overlay[..n] + [overlay[n]];
      MergedShape(items, overlay[..n], id, join);
      ShapeGrows(items, overlay[..n], overlay[n], id, join);
    }
  }

  // ----- grouping three lists -----

  lemma {:induction false} AddedConcat<T, K>(items: seq<T>, a: seq<T>, b: seq<T>, id: T -> K)
    ensures Added(items, a + b, id) == Added(items, a, id) + Added(items, b, id)
  {
    if b == [] {
      assert a + b == a;
    } else {
      var n := |b| - 1;
      assert (a + b)[..|a| + n] == a + b[..n];
      AddedConcat(items, a, b[..n], id);
    }
  }

  /** Selecting the new entries and updating them commute. */
  lemma {:induction false} AddedUpdated<T(!new), K>(items: seq<T>, b: seq<T>, c: seq<T>, id: T -> K, join: (T, T) -> T)
    requires Keeps(id, join)
    ensures Added(items, Updated(b, c, id, join), id) == Updated(Added(items, b, id), c, id, join)
  {
    if b != [] {
      var n := |b| - 1;
      AddedUpdated(items, b[..n], c, id, join);
      var u := Updated(b, c, id, join);
      assert u[..n] == Updated(b[..n], c, id, join);
      JoinedId(b[n], c, id, join);
      var before := Added(items, b[..n], id);
      assert Updated(before + [b[n]], c, id, join) == Updated(before, c, id, join) + [Joined(b[n], c, id, join)];
    }
  }

  /** What two lists do not have, one after the other or taken together. */
  lemma AddedTwice<T(!new), K>(a: seq<T>, b: seq<T>, c: seq<T>, id: T -> K, join: (T, T) -> T)
    requires Keeps(id, join) && Distinct(b, id)
    ensures Added(a, Added(b, c, id), id) == Added(Shape(a, b, id, join), c, id)
  {
    forall x | x in c
      ensures InEither(a, b, Shape(a, b, id, join), id(x), id)
    {
      ShapeAt(a, b, id(x), id, join);
    }
    AddedToBoth(a, b, Shape(a, b, id, join), c, id);
  }

  /** An identity occurs in the third list exactly if in one of the others. */
  ghost predicate InEither<T, K>(a: seq<T>, b: seq<T>, both: seq<T>, key: K, id: T -> K) {
    At(both, key, id) < 0 <==> At(a, key, id) < 0 && At(b, key, id) < 0
  }

  lemma {:induction false} AddedToBoth<T, K>(a: seq<T>, b: seq<T>, both: seq<T>, c: seq<T>, id: T -> K)
    requires forall x :: x in c ==> InEither(a, b, both, id(x), id)
    ensures Added(a, Added(b, c, id), id) == Added(both, c, id)
  {
    if c != [] {
      var n := |c| - 1;
      AddedToBoth(a, b, both, c[..n], id);
      assert InEither(a, b, both, id(c[n]), id);
      InitAndLast(c);
      AddedSnoc(b, c[..n], c[n], id);
      AddedSnoc(both, c[..n], c[n], id);
      AddedSnoc(a, Added(b, c[..n], id), c[n], id);
    }
  }

  /** The joins of an entry with its two counterparts group either way. */
  ghost predicate Groups<T, K>(x: T, b: seq<T>, c: seq<T>, id: T -> K, join: (T, T) -> T) {
    var i, j := At(b, id(x), id), At(c, id(x), id);
    i >= 0 && j >= 0 ==> join(join(x, b[i]), c[j]) == join(x, join(b[i], c[j]))
  }

  lemma JoinedTwice<T(!new), K>(x: T, b: seq<T>, c: seq<T>, id: T -> K, join: (T, T) -> T)
    requires Keeps(id, join) && Distinct(c, id)
    ensures Joined(Joined(x, b, id, join), c, id, join) == Joined(x, Shape(b, c, id, join), id, join)
            <==> Groups(x, b, c, id, join)
  {
    JoinedId(x, b, id, join);
    ShapeAt(b, c, id(x), id, join);
  }

  lemma UpdatedConcat<T, K>(a: seq<T>, b: seq<T>, overlay: seq<T>, id: T -> K, join: (T, T) -> T)
    ensures Updated(a + b, overlay, id, join) == Updated(a, overlay, id, join) + Updated(b, overlay, id, join)
  {
  }

  /** Both groupings agree beyond the entries of the first list. */
  lemma ShapesSplit<T(!new), K>(a: seq<T>, b: seq<T>, c: seq<T>, id: T -> K, join: (T, T) -> T) returns (rest: seq<T>)
    requires Keeps(id, join) && Distinct(b, id)
    ensures Shape(Shape(a, b, id, join), c, id, join) == Updated(Updated(a, b, id, join), c, id, join) + rest
    ensures Shape(a, Shape(b, c, id, join), id, join) == Updated(a, Shape(b, c, id, join), id, join) + rest
  {
    var ab := Shape(a, b, id, join);
    rest := Updated(Added(a, b, id), c, id, join) + Added(ab, c, id);
    UpdatedConcat(Updated(a, b, id, join), Added(a, b, id), c, id, join);
    AddedConcat(a, Updated(b, c, id, join), Added(b, c, id), id);
    AddedUpdated(a, b, c, id, join);
    AddedTwice(a, b, c, id, join);
    ConcatThree(Updated(Updated(a, b, id, join), c, id, join), Updated(Added(a, b, id), c, id, join), Added(ab, c, id));
  }

  lemma SameRest<T>(left: seq<T>, right: seq<T>, rest: seq<T>)
    requires |left| == |right|
    ensures left + rest == right + rest <==> left == right
  {
    if left + rest == right + rest {
      assert left == (left + rest)[..|left|] == (right + rest)[..|left|] == right;
    }
  }

  /** Merging three lists groups either way exactly if joining does so for every
      identity that all three have. */
  lemma ShapeGroupsIff<T(!new), K>(a: seq<T>, b: seq<T>, c: seq<T>, id: T -> K, join: (T, T) -> T)
    requires Keeps(id, join) && Distinct(b, id) && Distinct(c, id)
    ensures Shape(Shape(a, b, id, join), c, id, join) == Shape(a, Shape(b, c, id, join), id, join)
            <==> forall i :: 0 <= i < |a| ==> Groups(a[i], b, c, id, join)
  {
    var left, right := Updated(Updated(a, b, id, join), c, id, join), Updated(a, Shape(b, c, id, join), id, join);
    var rest := ShapesSplit(a, b, c, id, join);
    SameRest(left, right, rest);
    forall i | 0 <= i < |a|
      ensures left[i] == right[i] <==> Groups(a[i], b, c, id, join)
    {
      JoinedTwice(a[i], b, c, id, join);
    }
  }

  // ----- an overlay that leaves nothing of the base -----

  lemma {:induction false} NoneAdded<T, K>(items: seq<T>, overlay: seq<T>, id: T -> K)
    requires forall i :: 0 <= i < |overlay| ==> At(items, id(overlay[i]), id) >= 0
    ensures Added(items, overlay, id) == []
  {
    if overlay != [] {
      NoneAdded(items, overlay[..|overlay| - 1], id);
    }
  }

  lemma {:induction false} AllAdded<T, K>(items: seq<T>, overlay: seq<T>, id: T -> K)
    requires forall i :: 0 <= i < |overlay| ==> At(items, id(overlay[i]), id) < 0
    ensures Added(items, overlay, id) == overlay
  {
    if overlay != [] {
      var n := |overlay| - 1;
      assert overlay == overlay[..n] + [overlay[n]];
      AllAdded(items, overlay[..n], id);
      AddedSnoc(items, overlay[..n], overlay[n], id);
    }
  }

  lemma LeadMatched<T, K>(items: seq<T>, lead: seq<T>, id: T -> K)
    requires |items| == |lead| && forall i :: 0 <= i < |items| ==> id(items[i]) == id(lead[i])
    ensures Added(items, lead, id) == []
  {
    forall i | 0 <= i < |lead|
      ensures At(items, id(lead[i]), id) >= 0
    {
      assert id(items[i]) == id(lead[i]);
    }
    NoneAdded(items, lead, id);
  }

  lemma RestUnmatched<T, K>(items: seq<T>, lead: seq<T>, rest: seq<T>, id: T -> K)
    requires Distinct(lead + rest, id) && |items| == |lead| && forall i :: 0 <= i < |items| ==>
        id(items[i]) == id(lead[i])
    ensures Added(items, rest, id) == rest
  {
    var all := lead + rest;
    forall i | 0 <= i < |rest|
      ensures At(items, id(rest[i]), id) < 0
    {
      assert all[|lead| + i] == rest[i];
      assert forall j :: 0 <= j < |items| ==> id(all[j]) == id(items[j]);
    }
    AllAdded(items, rest, id);
  }

  lemma AddedBeyond<T, K>(items: seq<T>, lead: seq<T>, rest: seq<T>, id: T -> K)
    requires Distinct(lead + rest, id) && |items| == |lead| && forall i :: 0 <= i < |items| ==>
        id(items[i]) == id(lead[i])
    ensures Added(items, lead + rest, id) == rest
  {
    LeadMatched(items, lead, id);
    RestUnmatched(items, lead, rest, id);
    AddedConcat(items, lead, rest, id);
  }

  ghost predicate Overridden<T, K>(items: seq<T>, overlay: seq<T>, id: T -> K, join: (T, T) -> T) {
    |items| <= |overlay| && forall i :: 0 <= i < |items| ==>
      id(items[i]) == id(overlay[i]) && join(items[i], overlay[i]) == overlay[i]
  }

  /** The merged list is the overlay itself exactly if the base entries lead it,
      in order, and each is overridden by its counterpart. */
  lemma OverriddenIff<T(!new), K>(items: seq<T>, overlay: seq<T>, id: T -> K, join: (T, T) -> T)
    requires Keeps(id, join) && Distinct(overlay, id)
    ensures Shape(items, overlay, id, join) == overlay <==> Overridden(items, overlay, id, join)
  {
    if Shape(items, overlay, id, join) == overlay {
      ShapeOverrides(items, overlay, id, join);
    }
    if Overridden(items, overlay, id, join) {
      OverriddenShape(items, overlay, id, join);
    }
  }

  lemma ShapeOverrides<T(!new), K>(items: seq<T>, overlay: seq<T>, id: T -> K, join: (T, T) -> T)
    requires Keeps(id, join) && Distinct(overlay, id) && Shape(items, overlay, id, join) == overlay
    ensures Overridden(items, overlay, id, join)
  {
    forall i | 0 <= i < |items|
      ensures id(items[i]) == id(overlay[i]) && join(items[i], overlay[i]) == overlay[i]
    {
      assert Shape(items, overlay, id, join)[i] == Joined(items[i], overlay, id, join);
      JoinedId(items[i], overlay, id, join);
      AtUnique(overlay, i, id);
    }
  }

  lemma OverriddenShape<T(!new), K>(items: seq<T>, overlay: seq<T>, id: T -> K, join: (T, T) -> T)
    requires Distinct(overlay, id) && Overridden(items, overlay, id, join)
    ensures Shape(items, overlay, id, join) == overlay
  {
    var n := |items|;
    assert overlay == overlay[..n] + overlay[n..];
    AddedBeyond(items, overlay[..n], overlay[n..], id);
    forall i | 0 <= i < |items|
      ensures Joined(items[i], overlay, id, join) == overlay[i]
    {
      AtUnique(overlay, i, id);
    }
  }
}
