/** What merging does to sound documents, and when three layers of an extends
    chain may be grouped at will. */
module ConfigLayers {
  import opened ConfigMerge
  import KeyedLists

  // ----- keyed sections as keyed lists -----

  function Ids(section: string): Value -> Identity { (v: Value) => ItemIdentity(section, v) }

  function Joins(section: string): (Value, Value) -> Value { (x: Value, y: Value) => Combine(x, y, section) }

  lemma JoinsKeep(section: string)
    requires Keyed(section)
    ensures KeyedLists.Keeps(Ids(section), Joins(section))
  {
    forall x, y | Ids(section)(x) == Ids(section)(y)
      ensures Ids(section)(Joins(section)(x, y)) == Ids(section)(y)
    {
      IdentityKept(x, y, section);
    }
  }

  lemma {:induction false} FindIsAt(section: string, items: seq<Value>, key: Key)
    ensures Find(section, items, key) == KeyedLists.At(items, Named(key), Ids(section))
  {
    if items != [] {
      FindIsAt(section, items[..|items| - 1], key);
    }
  }

  lemma {:induction false} ItemsAreKeyed(items: seq<Value>, overlay: seq<Value>, section: string)
    requires forall i :: 0 <= i < |overlay| ==> ItemIdentity(section, overlay[i]).Named?
    ensures CombineItems(items, overlay, section) == KeyedLists.Merge(items, overlay, Ids(section), Joins(section))
  {
    if overlay != [] {
      var n := |overlay| - 1;
      ItemsAreKeyed(items, overlay[..n], section);
      FindIsAt(section, CombineItems(items, overlay[..n], section), ItemIdentity(section, overlay[n]).key);
    }
  }

  ghost function Shape(items: seq<Value>, overlay: seq<Value>, section: string): seq<Value> {
    KeyedLists.Shape(items, overlay, Ids(section), Joins(section))
  }

  lemma ApartIsDistinct(items: seq<Value>, section: string)
    requires Apart(items, section)
    ensures KeyedLists.Distinct(items, Ids(section))
  {
  }

  /** Keyed lists of distinct identities keep the base order; each entry is merged
      with its counterpart, and new ones follow in overlay order. */
  lemma MergedListShape(items: seq<Value>, overlay: seq<Value>, section: string)
    requires Keyed(section) && Apart(items, section) && Apart(overlay, section)
    ensures CombineItems(items, overlay, section) == Shape(items, overlay, section)
  {
    JoinsKeep(section);
    ItemsAreKeyed(items, overlay, section);
    ApartIsDistinct(items, section);
    ApartIsDistinct(overlay, section);
    KeyedLists.MergedShape(items, overlay, Ids(section), Joins(section));
  }

  // ----- sound documents stay sound and merge without error -----

  ghost predicate SoundItems(items: seq<Value>, section: string) {
    Apart(items, section) && forall i :: 0 <= i < |items| ==> Sound(items[i], section)
  }

  lemma UpsertSound(items: seq<Value>, item: Value, section: string)
    requires Keyed(section) && SoundItems(items, section) && Sound(item, section) && ItemIdentity(section, item).Named?
    ensures !UpsertFails(items, item, section) && SoundItems(Upsert(items, item, section), section)
    decreases item, 2
  {
    var k := Find(section, items, ItemIdentity(section, item).key);
    if k >= 0 {
      MergeSound(items[k], item, section);
      IdentityKept(items[k], item, section);
    }
  }

  lemma {:induction false} MergeItemsSound(items: seq<Value>, overlay: seq<Value>, section: string)
    requires Keyed(section) && SoundItems(items, section) && SoundItems(overlay, section)
    ensures !ItemsFail(items, overlay, section) && SoundItems(CombineItems(items, overlay, section), section)
    decreases overlay, 1
  {
    if overlay != [] {
      var n := |overlay| - 1;
      MergeItemsSound(items, overlay[..n], section);
      UpsertSound(CombineItems(items, overlay[..n], section), overlay[n], section);
    }
  }

  /** Merging sound documents never fails, and gives a sound document. */
  lemma {:induction false} MergeSound(a: Value, b: Value, section: string)
    requires Sound(a, section) && Sound(b, section)
    ensures !Fails(a, b, section) && Sound(Combine(a, b, section), section)
    decreases b, 1
  {
    if a.Dict? && b.Dict? {
      forall k | k in a.entries && k in b.entries
        ensures !Fails(a.entries[k], b.entries[k], k) && Sound(Combine(a.entries[k], b.entries[k], k), k)
      {
        MergeSound(a.entries[k], b.entries[k], k);
      }
    } else if a.List? && b.List? && Keyed(section) {
      MergeItemsSound(a.items, b.items, section);
    }
  }

  // ----- an overlay that leaves nothing of its base -----

  predicate Mergeable(a: Value, b: Value, section: string) {
    (a.Dict? && b.Dict?) || (a.List? && b.List? && Keyed(section))
  }

  /** Everything `a` says, `c` says anew. */
  ghost predicate Covers(a: Value, c: Value, section: string)
    decreases c
  {
    if a.Dict? && c.Dict? then
      forall k :: k in a.entries ==> k in c.entries && Covers(a.entries[k], c.entries[k], k)
    else if a.List? && c.List? && Keyed(section) then
      && |a.items| <= |c.items|
      && forall i :: 0 <= i < |a.items| ==>
           ItemIdentity(section, a.items[i]) == ItemIdentity(section, c.items[i])
             && Covers(a.items[i], c.items[i], section)
    else true
  }

  lemma {:induction false} CoversIff(a: Value, c: Value, section: string)
    requires Sound(a, section) && Sound(c, section)
    ensures Combine(a, c, section) == c <==> Covers(a, c, section)
    decreases c
  {
    if a.Dict? && c.Dict? {
      forall k | k in a.entries && k in c.entries
        ensures Combine(a.entries[k], c.entries[k], k) == c.entries[k] <==> Covers(a.entries[k], c.entries[k], k)
      {
        CoversIff(a.entries[k], c.entries[k], k);
      }
      CoveredEntries(a, c, section);
    } else if a.List? && c.List? && Keyed(section) {
      forall i | 0 <= i < |a.items| && i < |c.items|
        ensures Combine(a.items[i], c.items[i], section) == c.items[i] <==> Covers(a.items[i], c.items[i], section)
      {
        CoversIff(a.items[i], c.items[i], section);
      }
      CoveredItems(a.items, c.items, section);
    }
  }

  lemma CoveredEntries(a: Value, c: Value, section: string)
    requires a.Dict? && c.Dict?
    ensures Combine(a, c, section) == c
            <==> forall k :: k in a.entries ==> k in c.entries && Combine(a.entries[k], c.entries[k], k) == c.entries[k]
  {
    var m := Combine(a, c, section).entries;
    if m == c.entries {
      forall k | k in a.entries
        ensures k in c.entries && Combine(a.entries[k], c.entries[k], k) == c.entries[k]
      {
        assert k in m;
      }
    }
    if forall k :: k in a.entries ==> k in c.entries && Combine(a.entries[k], c.entries[k], k) == c.entries[k] {
      assert m == c.entries;
    }
  }

  lemma CoveredItems(a: seq<Value>, c: seq<Value>, section: string)
    requires Keyed(section) && Apart(a, section) && Apart(c, section)
    ensures CombineItems(a, c, section) == c
            <==> |a| <= |c| && forall i :: 0 <= i < |a| ==>
                   ItemIdentity(section, a[i]) == ItemIdentity(section, c[i]) && Combine(a[i], c[i], section) == c[i]
  {
    JoinsKeep(section);
    MergedListShape(a, c, section);
    ApartIsDistinct(c, section);
    KeyedLists.OverriddenIff(a, c, Ids(section), Joins(section));
  }

  // ----- grouping -----

  /** The layers agree in kind wherever the outer two meet: a middle layer that
      replaces what the outer two could merge is harmless only if the last layer
      says everything anew. */
  ghost predicate Agree(a: Value, b: Value, c: Value, section: string)
    decreases c
  {
    if a.Dict? && b.Dict? && c.Dict? then
      forall k :: k in a.entries && k in b.entries && k in c.entries ==>
          Agree(a.entries[k], b.entries[k], c.entries[k], k)
    else if a.List? && b.List? && c.List? && Keyed(section) then
      forall i, j, k | 0 <= i < |a.items| && 0 <= j < |b.items| && 0 <= k < |c.items| ::
        ItemIdentity(section, a.items[i]) == ItemIdentity(section, b.items[j]) == ItemIdentity(section, c.items[k])
        ==> Agree(a.items[i], b.items[j], c.items[k], section)
    else Mergeable(a, c, section) && !Mergeable(a, b, section) ==> Covers(a, c, section)
  }

  ghost predicate Grouped(a: Value, b: Value, c: Value, section: string) {
    Combine(Combine(a, b, section), c, section) == Combine(a, Combine(b, c, section), section)
  }

  lemma GroupedEntries(a: Value, b: Value, c: Value, section: string)
    requires a.Dict? && b.Dict? && c.Dict?
    ensures Grouped(a, b, c, section)
            <==> forall k :: k in a.entries && k in b.entries && k in c.entries ==>
                Grouped(a.entries[k], b.entries[k], c.entries[k], k)
  {
    var left := Combine(Combine(a, b, section), c, section).entries;
    var right := Combine(a, Combine(b, c, section), section).entries;
    assert left.Keys == right.Keys;
    if left == right {
      forall k | k in a.entries && k in b.entries && k in c.entries
        ensures Grouped(a.entries[k], b.entries[k], c.entries[k], k)
      {
        assert left[k] == right[k];
      }
    }
    if forall k :: k in a.entries && k in b.entries && k in c.entries ==>
        Grouped(a.entries[k], b.entries[k], c.entries[k], k) {
      forall k | k in left
        ensures left[k] == right[k]
      {
      }
      assert left == right;
    }
  }

  lemma GroupedItems(a: seq<Value>, b: seq<Value>, c: seq<Value>, section: string)
    requires Keyed(section) && SoundItems(a, section) && SoundItems(b, section) && SoundItems(c, section)
    ensures CombineItems(CombineItems(a, b, section), c, section)
            == CombineItems(a, CombineItems(b, c, section), section)
            <==> forall i :: 0 <= i < |a| ==> KeyedLists.Groups(a[i], b, c, Ids(section), Joins(section))
  {
    JoinsKeep(section);
    MergeItemsSound(a, b, section);
    MergeItemsSound(b, c, section);
    MergedListShape(a, b, section);
    MergedListShape(b, c, section);
    MergedListShape(CombineItems(a, b, section), c, section);
    MergedListShape(a, CombineItems(b, c, section), section);
    ApartIsDistinct(b, section);
    ApartIsDistinct(c, section);
    KeyedLists.ShapeGroupsIff(a, b, c, Ids(section), Joins(section));
  }

  /** An entry groups with every pair of its counterparts. */
  ghost predicate ItemGrouped(x: Value, b: seq<Value>, c: seq<Value>, section: string) {
    forall j, k | 0 <= j < |b| && 0 <= k < |c| ::
      ItemIdentity(section, x) == ItemIdentity(section, b[j]) == ItemIdentity(section, c[k]) ==>
        Grouped(x, b[j], c[k], section)
  }

  /** The counterparts of an entry, found by position or by search. */
  lemma GroupsAt(x: Value, b: seq<Value>, c: seq<Value>, section: string)
    requires Apart(b, section) && Apart(c, section)
    ensures KeyedLists.Groups(x, b, c, Ids(section), Joins(section)) <==> ItemGrouped(x, b, c, section)
  {
    var id := Ids(section);
    var j0, k0 := KeyedLists.At(b, id(x), id), KeyedLists.At(c, id(x), id);
    ApartIsDistinct(b, section);
    ApartIsDistinct(c, section);
    forall j, k | 0 <= j < |b| && 0 <= k < |c|
      && ItemIdentity(section, x) == ItemIdentity(section, b[j]) == ItemIdentity(section, c[k])
      ensures j == j0 && k == k0
    {
      KeyedLists.AtUnique(b, j, id);
      KeyedLists.AtUnique(c, k, id);
    }
  }

  /** Sound layers group either way if and only if they agree. */
  lemma {:induction false} AssociativeIff(a: Value, b: Value, c: Value, section: string)
    requires Sound(a, section) && Sound(b, section) && Sound(c, section)
    ensures Grouped(a, b, c, section) <==> Agree(a, b, c, section)
    decreases c
  {
    if a.Dict? && b.Dict? && c.Dict? {
      forall k | k in a.entries && k in b.entries && k in c.entries
        ensures Grouped(a.entries[k], b.entries[k], c.entries[k], k)
                <==> Agree(a.entries[k], b.entries[k], c.entries[k], k)
      {
        AssociativeIff(a.entries[k], b.entries[k], c.entries[k], k);
      }
      GroupedEntries(a, b, c, section);
    } else if a.List? && b.List? && c.List? && Keyed(section) {
      AssociativeItems(a, b, c, section);
    } else {
      CoversIff(a, c, section);
    }
  }

  lemma AssociativeItems(a: Value, b: Value, c: Value, section: string)
    requires a.List? && b.List? && c.List? && Keyed(section)
    requires Sound(a, section) && Sound(b, section) && Sound(c, section)
    ensures Grouped(a, b, c, section) <==> Agree(a, b, c, section)
    decreases c, 0
  {
    forall i, j, k | 0 <= i < |a.items| && 0 <= j < |b.items| && 0 <= k < |c.items|
      ensures Grouped(a.items[i], b.items[j], c.items[k], section)
              <==> Agree(a.items[i], b.items[j], c.items[k], section)
    {
      AssociativeIff(a.items[i], b.items[j], c.items[k], section);
    }
    GroupedByItems(a, b, c, section);
  }

  lemma GroupsAll(a: seq<Value>, b: seq<Value>, c: seq<Value>, section: string)
    requires Apart(b, section) && Apart(c, section)
    ensures (forall i :: 0 <= i < |a| ==> KeyedLists.Groups(a[i], b, c, Ids(section), Joins(section)))
            <==> forall i :: 0 <= i < |a| ==> ItemGrouped(a[i], b, c, section)
  {
    forall i | 0 <= i < |a|
      ensures KeyedLists.Groups(a[i], b, c, Ids(section), Joins(section)) <==> ItemGrouped(a[i], b, c, section)
    {
      GroupsAt(a[i], b, c, section);
    }
  }

  lemma ListsGrouped(a: Value, b: Value, c: Value, section: string)
    requires a.List? && b.List? && c.List? && Keyed(section)
    ensures Grouped(a, b, c, section)
            <==> CombineItems(CombineItems(a.items, b.items, section), c.items, section)
                 == CombineItems(a.items, CombineItems(b.items, c.items, section), section)
  {
  }

  lemma GroupedByItems(a: Value, b: Value, c: Value, section: string)
    requires a.List? && b.List? && c.List? && Keyed(section)
    requires Sound(a, section) && Sound(b, section) && Sound(c, section)
    ensures Grouped(a, b, c, section) <==> forall i :: 0 <= i < |a.items| ==>
        ItemGrouped(a.items[i], b.items, c.items, section)
  {
    ListsGrouped(a, b, c, section);
    GroupedItems(a.items, b.items, c.items, section);
    GroupsAll(a.items, b.items, c.items, section);
  }
}
