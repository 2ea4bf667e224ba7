/** Layered configuration: a document is merged over the one it extends, lists of
    channels and nodes entry by entry. JSON objects are maps: the order of their
    keys is not part of the model. */
module ConfigMerge {
  import KeyedLists

  datatype Value =
    | Null
    | Bool(b: bool)
    | Int(n: int)
    | Float(r: real)
    | Str(s: string)
    | List(items: seq<Value>)
    | Dict(entries: map<string, Value>)

  // ----- identities -----

  /** Numbers of equal value are equal keys, whatever their type. */
  datatype Key = NumKey(r: real) | StrKey(s: string)

  datatype Identity = Missing | Unhashable | Named(key: Key)

  function AsIdentity(v: Value): Identity {
    match v
    case Null => Missing
    case Bool(b) => Named(NumKey(if b then 1.0 else 0.0))
    case Int(n) => Named(NumKey(n as real))
    case Float(r) => Named(NumKey(r))
    case Str(s) => Named(StrKey(s))
    case List(_) => Unhashable
    case Dict(_) => Unhashable
  }

  function Get(m: map<string, Value>, k: string): Value { if k in m then m[k] else Null }

  function ItemIdentity(section: string, item: Value): Identity {
    if section == "channels" && item.Dict? then AsIdentity(Get(item.entries, "name"))
    else if section == "nodes" && (item.Int? || item.Bool?) then AsIdentity(item)
    else if section == "nodes" && item.Dict? then
      AsIdentity(if "id" in item.entries then item.entries["id"] else Get(item.entries, "node_id"))
    else Missing
  }

  /** The value by which an entry of a section is known: the name of a channel, a
      node that is just its number, or the id of a node, or its node_id if there is no
      id. */
  ghost predicate KnownBy(section: string, item: Value, v: Value) {
    || (section == "channels" && item.Dict? && "name" in item.entries && v == item.entries["name"])
    || (section == "nodes" && (item.Int? || item.Bool?) && v == item)
    || (section == "nodes" && item.Dict? && "id" in item.entries && v == item.entries["id"])
    || (section == "nodes" && item.Dict? && "id" !in item.entries && "node_id" in item.entries
        && v == item.entries["node_id"])
  }

  /** Equal as keys of a dictionary: numbers and truth values by their value, strings
      by their characters. */
  ghost predicate EqualKeys(v: Value, u: Value) {
    || (v.Str? && u.Str? && v.s == u.s)
    || (exists x :: Numbers(v, x) && Numbers(u, x))
  }

  ghost predicate Numbers(v: Value, x: real) {
    (v.Int? && x == v.n as real) || (v.Float? && x == v.r) || (v.Bool? && x == if v.b then 1.0 else 0.0)
  }

  /** Two entries are one and the same exactly if they are known by equal values. */
  lemma SameEntryIff(section: string, a: Value, b: Value)
    ensures ItemIdentity(section, a).Named? && ItemIdentity(section, a) == ItemIdentity(section, b)
            <==> exists v, u :: KnownBy(section, a, v) && KnownBy(section, b, u) && EqualKeys(v, u)
  {
    if v, u :| KnownBy(section, a, v) && KnownBy(section, b, u) && EqualKeys(v, u) {
      assert AsIdentity(v) == AsIdentity(u) && AsIdentity(v).Named?;
      assert ItemIdentity(section, a) == AsIdentity(v) && ItemIdentity(section, b) == AsIdentity(u);
    }
    if ItemIdentity(section, a).Named? && ItemIdentity(section, a) == ItemIdentity(section, b) {
      var v := NamingValue(section, a);
      var u := NamingValue(section, b);
      assert ItemIdentity(section, a).key.NumKey? ==>
          Numbers(v, ItemIdentity(section, a).key.r) && Numbers(u, ItemIdentity(section, a).key.r);
    }
  }

  lemma NamingValue(section: string, item: Value) returns (v: Value)
    requires ItemIdentity(section, item).Named?
    ensures KnownBy(section, item, v) && ItemIdentity(section, item) == AsIdentity(v)
  {
    v := if section == "channels" then item.entries["name"]
    else if !item.Dict? then item
    else if "id" in item.entries then item.entries["id"]
    else item.entries["node_id"];
  }

  /** Lists of other sections are replaced, not merged. */
  lemma OtherListsReplaced(base: Value, overlay: Value, section: string)
    requires overlay.List? && section != "channels" && section != "nodes"
    ensures Merge(base, overlay, section) == Ok(overlay)
  {
  }

  predicate Keyed(section: string) { section == "channels" || section == "nodes" }

  /** The last entry of that identity, or -1. */
  function Find(section: string, items: seq<Value>, key: Key): (k: int)
    ensures -1 <= k < |items|
    ensures k >= 0 ==> ItemIdentity(section, items[k]) == Named(key)
    ensures forall j :: k < j < |items| ==> ItemIdentity(section, items[j]) != Named(key)
  {
    if items == [] then -1
    else if ItemIdentity(section, items[|items| - 1]) == Named(key) then |items| - 1
    else Find(section, items[..|items| - 1], key)
  }

  // ----- the merge -----

  function Combine(base: Value, overlay: Value, section: string): Value
    decreases overlay, 0
  {
    if base.Dict? && overlay.Dict? then
      Dict(map k | k in base.entries.Keys + overlay.entries.Keys ::
        if k !in overlay.entries then base.entries[k]
        else if k !in base.entries then overlay.entries[k]
        else Combine(base.entries[k], overlay.entries[k], k))
    else if base.List? && overlay.List? && Keyed(section) then
      List(CombineItems(base.items, overlay.items, section))
    else overlay
  }

  function CombineItems(items: seq<Value>, overlay: seq<Value>, section: string): seq<Value>
    decreases overlay, 1
  {
    if overlay == [] then items
    else Upsert(CombineItems(items, overlay[..|overlay| - 1], section), overlay[|overlay| - 1], section)
  }

  function Upsert(items: seq<Value>, item: Value, section: string): seq<Value>
    decreases item, 1
  {
    var id := ItemIdentity(section, item);
    var k := if id.Named? then Find(section, items, id.key) else -1;
    if k >= 0 then items[k := Combine(items[k], item, section)] else items + [item]
  }

  predicate Hashable(items: seq<Value>, section: string) {
    forall i :: 0 <= i < |items| ==> !ItemIdentity(section, items[i]).Unhashable?
  }

  /** Whether the merge raises an error: an overlay entry of a keyed list without
      an identity, or an identity that cannot be a dictionary key. */
  predicate Fails(base: Value, overlay: Value, section: string)
    decreases overlay, 0
  {
    if base.Dict? && overlay.Dict? then
      exists k :: k in overlay.entries && k in base.entries && Fails(base.entries[k], overlay.entries[k], k)
    else if base.List? && overlay.List? && Keyed(section) then
      || !Hashable(base.items, section)
      || ItemsFail(base.items, overlay.items, section)
    else false
  }

  predicate ItemsFail(items: seq<Value>, overlay: seq<Value>, section: string)
    decreases overlay, 1
  {
    if overlay == [] then false
    else
      var init, item := overlay[..|overlay| - 1], overlay[|overlay| - 1];
      ItemsFail(items, init, section) || UpsertFails(CombineItems(items, init, section), item, section)
  }

  predicate UpsertFails(items: seq<Value>, item: Value, section: string)
    decreases item, 1
  {
    var id := ItemIdentity(section, item);
    !id.Named? || (Find(section, items, id.key) >= 0 && Fails(items[Find(section, items, id.key)], item, section))
  }

  datatype Result<T> = Ok(value: T) | Err

  function Merge(base: Value, overlay: Value, section: string): Result<Value> {
    if Fails(base, overlay, section) then Err else Ok(Combine(base, overlay, section))
  }

  /** Merging two entries of one identity keeps it. */
  lemma IdentityKept(base: Value, item: Value, section: string)
    requires Keyed(section) && ItemIdentity(section, base) == ItemIdentity(section, item)
    ensures ItemIdentity(section, Combine(base, item, section)) == ItemIdentity(section, item)
  {
  }

  // ----- the merge as the program does it -----

  method MergeConfigData(base: Value, overlay: Value, section: string) returns (r: Result<Value>)
    ensures r == Merge(base, overlay, section)
    decreases overlay, 1
  {
    if base.Dict? && overlay.Dict? {
      r := MergeEntries(base, overlay, section);
    } else if base.List? && overlay.List? && Keyed(section) {
      var items := MergeItems(base.items, overlay.items, section);
      r := if items.Ok? then Ok(List(items.value)) else Err;
    } else {
      r := Ok(overlay);
    }
  }

  /** One key of two merged objects. */
  ghost function EntryOf(base: map<string, Value>, overlay: map<string, Value>, k: string): Value
    requires k in base.Keys + overlay.Keys
  {
    if k !in overlay then base[k] else if k !in base then overlay[k] else Combine(base[k], overlay[k], k)
  }

  method MergeEntries(base: Value, overlay: Value, section: string) returns (r: Result<Value>)
    requires base.Dict? && overlay.Dict?
    ensures r == Merge(base, overlay, section)
    decreases overlay, 0
  {
    var b, o := base.entries, overlay.entries;
    var merged, todo := b, o.Keys;
    while todo != {}
      invariant todo <= o.Keys && merged.Keys == b.Keys + (o.Keys - todo)
      invariant forall k :: k in todo && k in b ==> merged[k] == b[k]
      invariant forall k :: k in merged && k !in todo ==> merged[k] == EntryOf(b, o, k)
      invariant forall k :: k in o && k !in todo && k in b ==> !Fails(b[k], o[k], k)
      decreases todo
    {
      var key :| key in todo;
      if key in merged {
        var m := MergeConfigData(merged[key], o[key], key);
        if m.Err? {
          return Err;
        }
        merged := merged[key := m.value];
      } else {
        merged := merged[key := o[key]];
      }
      todo := todo - {key};
    }
    assert Dict(merged) == Combine(base, overlay, section);
    r := Ok(Dict(merged));
  }

  /** The index the program keeps of a keyed list: where each identity is. */
  ghost predicate Indexes(positions: map<Key, int>, items: seq<Value>, section: string) {
    forall key ::
      if key in positions then positions[key] == Find(section, items, key) >= 0 else Find(section, items, key) < 0
  }

  method IndexItems(items: seq<Value>, section: string) returns (positions: Result<map<Key, int>>)
    ensures positions.Ok? <==> Hashable(items, section)
    ensures positions.Ok? ==> Indexes(positions.value, items, section)
  {
    var index: map<Key, int> := map[];
    for i := 0 to |items|
      invariant Indexes(index, items[..i], section)
      invariant Hashable(items[..i], section)
    {
      assert items[..i + 1][..i] == items[..i];
      match ItemIdentity(section, items[i])
      case Unhashable =>
        return Err;
      case Missing =>
      case Named(key) =>
        index := index[key := i];
    }
    assert items[..|items|] == items;
    positions := Ok(index);
  }

  method UpsertItem(positions: map<Key, int>, items: seq<Value>, item: Value, section: string)
    returns (r: Result<seq<Value>>, positions': map<Key, int>)
    requires Keyed(section) && Indexes(positions, items, section)
    ensures r.Err? <==> UpsertFails(items, item, section)
    ensures r.Ok? ==> r.value == Upsert(items, item, section) && Indexes(positions', r.value, section)
    decreases item, 2
  {
    var id := ItemIdentity(section, item);
    positions' := positions;
    if !id.Named? {
      return Err, positions;
    }
    if id.key in positions {
      var k := positions[id.key];
      var m := MergeConfigData(items[k], item, section);
      if m.Err? {
        return Err, positions;
      }
      IndexKept(positions, items, k, item, section);
      r := Ok(items[k := m.value]);
    } else {
      IndexGrows(positions, items, item, section);
      positions' := positions[id.key := |items|];
      r := Ok(items + [item]);
    }
  }

  method MergeItems(base: seq<Value>, overlay: seq<Value>, section: string) returns (r: Result<seq<Value>>)
    requires Keyed(section)
    ensures r == if !Hashable(base, section) || ItemsFail(base, overlay, section) then Err
            else Ok(CombineItems(base, overlay, section))
    decreases overlay, 1
  {
    var index := IndexItems(base, section);
    if index.Err? {
      return Err;
    }
    var positions, merged := index.value, base;
    for n := 0 to |overlay|
      invariant merged == CombineItems(base, overlay[..n], section) && !ItemsFail(base, overlay[..n], section)
      invariant Indexes(positions, merged, section)
    {
      assert overlay[..n + 1][..n] == overlay[..n];
      var step, positions' := UpsertItem(positions, merged, overlay[n], section);
      if step.Err? {
        FailureStays(base, overlay, n + 1, section);
        return Err;
      }
      merged, positions := step.value, positions';
    }
    assert overlay[..|overlay|] == overlay;
    r := Ok(merged);
  }

  lemma {:induction false} FailureStays(items: seq<Value>, overlay: seq<Value>, n: nat, section: string)
    requires n <= |overlay| && ItemsFail(items, overlay[..n], section)
    ensures ItemsFail(items, overlay, section)
    decreases |overlay| - n
  {
    if n == |overlay| {
      assert overlay[..n] == overlay;
    } else {
      assert overlay[..n + 1][..n] == overlay[..n];
      FailureStays(items, overlay, n + 1, section);
    }
  }

  lemma FindKept(items: seq<Value>, k: int, v: Value, section: string, key: Key)
    requires 0 <= k < |items| && ItemIdentity(section, v) == ItemIdentity(section, items[k])
    ensures Find(section, items[k := v], key) == Find(section, items, key)
  {
    var changed := items[k := v];
    assert forall j :: 0 <= j < |items| ==> ItemIdentity(section, changed[j]) == ItemIdentity(section, items[j]);
  }

  lemma IndexKept(positions: map<Key, int>, items: seq<Value>, k: int, item: Value, section: string)
    requires Keyed(section) && Indexes(positions, items, section) && 0 <= k < |items|
    requires ItemIdentity(section, item).Named? && ItemIdentity(section, items[k]) == ItemIdentity(section, item)
    ensures Indexes(positions, items[k := Combine(items[k], item, section)], section)
  {
    IdentityKept(items[k], item, section);
    forall key
      ensures Find(section, items[k := Combine(items[k], item, section)], key) == Find(section, items, key)
    {
      FindKept(items, k, Combine(items[k], item, section), section, key);
    }
  }

  lemma FindAppended(items: seq<Value>, item: Value, section: string, key: Key)
    ensures Find(section, items + [item], key)
            == if ItemIdentity(section, item) == Named(key) then |items| else Find(section, items, key)
  {
    assert (items + [item])[..|items|] == items;
  }

  lemma IndexGrows(positions: map<Key, int>, items: seq<Value>, item: Value, section: string)
    requires Indexes(positions, items, section) && ItemIdentity(section, item).Named?
    ensures Indexes(positions[ItemIdentity(section, item).key := |items|], items + [item], section)
  {
    forall key
      ensures Find(section, items + [item], key)
              == if ItemIdentity(section, item) == Named(key) then |items| else Find(section, items, key)
    {
      FindAppended(items, item, section, key);
    }
  }

  // ----- documents whose keyed entries have distinct identities -----

  ghost predicate Sound(v: Value, section: string) {
    match v
    case Dict(entries) => forall k :: k in entries ==> Sound(entries[k], k)
    case List(items) => Keyed(section) ==>
      Apart(items, section) && forall i :: 0 <= i < |items| ==> Sound(items[i], section)
    case _ => true
  }

  ghost predicate Apart(items: seq<Value>, section: string) {
    && (forall i :: 0 <= i < |items| ==> ItemIdentity(section, items[i]).Named?)
    && (forall i, j :: 0 <= i < j < |items| ==> ItemIdentity(section, items[i]) != ItemIdentity(section, items[j]))
  }

  // ----- merging the same overlay again changes nothing -----

  /** The list already holds what the item has to say. */
  ghost predicate Settled(items: seq<Value>, item: Value, section: string) {
    var id := ItemIdentity(section, item);
    id.Named? &&
    var k := Find(section, items, id.key);
    k >= 0 && !Fails(items[k], item, section) && Combine(items[k], item, section) == items[k]
  }

  lemma {:induction false} SettledItems(items: seq<Value>, overlay: seq<Value>, section: string)
    requires forall j :: 0 <= j < |overlay| ==> Settled(items, overlay[j], section)
    ensures CombineItems(items, overlay, section) == items && !ItemsFail(items, overlay, section)
  {
    if overlay != [] {
      SettledItems(items, overlay[..|overlay| - 1], section);
      assert Settled(items, overlay[|overlay| - 1], section);
    }
  }

  lemma {:induction false} UpsertKeepsSettled(items: seq<Value>, item: Value, other: Value, section: string)
    requires Keyed(section) && ItemIdentity(section, item).Named? && Settled(items, other, section)
    requires ItemIdentity(section, item) != ItemIdentity(section, other)
    ensures Settled(Upsert(items, item, section), other, section)
  {
    var id, key := ItemIdentity(section, item), ItemIdentity(section, other).key;
    var k := Find(section, items, id.key);
    if k >= 0 {
      IdentityKept(items[k], item, section);
      FindKept(items, k, Combine(items[k], item, section), section, key);
    } else {
      FindAppended(items, item, section, key);
    }
  }

  /** An upserted item is settled, if merging it once more is. */
  lemma UpsertSettles(items: seq<Value>, item: Value, section: string)
    requires Keyed(section) && Sound(item, section) && !UpsertFails(items, item, section)
    ensures Settled(Upsert(items, item, section), item, section)
    decreases item, 2
  {
    var id := ItemIdentity(section, item);
    var k := Find(section, items, id.key);
    if k >= 0 {
      IdentityKept(items[k], item, section);
      FindKept(items, k, Combine(items[k], item, section), section, id.key);
      Idempotent(items[k], item, section);
    } else {
      FindAppended(items, item, section, id.key);
      SelfMerge(item, section);
    }
  }

  ghost predicate AllSettled(items: seq<Value>, overlay: seq<Value>, section: string) {
    forall j :: 0 <= j < |overlay| ==> Settled(items, overlay[j], section)
  }

  /** Each item of the overlay has an identity of its own and is sound. */
  ghost predicate SoundItems(overlay: seq<Value>, section: string) {
    Apart(overlay, section) && forall i :: 0 <= i < |overlay| ==> Sound(overlay[i], section)
  }

  lemma SoundInit(overlay: seq<Value>, section: string)
    requires overlay != [] && SoundItems(overlay, section)
    ensures var n := |overlay| - 1;
            && SoundItems(overlay[..n], section) && Sound(overlay[n], section)
            && ItemIdentity(section, overlay[n]).Named?
            && NoneLike(overlay[..n], overlay[n], section)
  {
  }

  ghost predicate NoneLike(items: seq<Value>, item: Value, section: string) {
    forall j :: 0 <= j < |items| ==> ItemIdentity(section, items[j]) != ItemIdentity(section, item)
  }

  lemma {:induction false} ItemsSettle(items: seq<Value>, overlay: seq<Value>, section: string)
    requires Keyed(section) && SoundItems(overlay, section) && !ItemsFail(items, overlay, section)
    ensures AllSettled(CombineItems(items, overlay, section), overlay, section)
    decreases overlay, 2
  {
    if overlay != [] {
      var n := |overlay| - 1;
      SoundInit(overlay, section);
      LastItem(items, overlay, section);
      KeyedLists.InitAndLast(overlay);
      ItemsSettle(items, overlay[..n], section);
      AllSettle(CombineItems(items, overlay[..n], section), overlay[..n], overlay[n], section);
    }
  }

  lemma LastItem(items: seq<Value>, overlay: seq<Value>, section: string)
    requires overlay != [] && !ItemsFail(items, overlay, section)
    ensures var n := |overlay| - 1;
            var before := CombineItems(items, overlay[..n], section);
            && !ItemsFail(items, overlay[..n], section) && !UpsertFails(before, overlay[n], section)
            && CombineItems(items, overlay, section) == Upsert(before, overlay[n], section)
  {
    LastCombined(items, overlay, section);
  }

  lemma LastCombined(items: seq<Value>, overlay: seq<Value>, section: string)
    requires overlay != []
    ensures var n := |overlay| - 1;
            CombineItems(items, overlay, section)
            == Upsert(CombineItems(items, overlay[..n], section), overlay[n], section)
  {
  }

  /** Upserting one more item settles it and leaves the others settled. */
  lemma AllSettle(items: seq<Value>, settled: seq<Value>, item: Value, section: string)
    requires Keyed(section) && Sound(item, section) && !UpsertFails(items, item, section)
    requires ItemIdentity(section, item).Named? && AllSettled(items, settled, section)
    requires NoneLike(settled, item, section)
    ensures AllSettled(Upsert(items, item, section), settled + [item], section)
    decreases item, 3
  {
    UpsertSettles(items, item, section);
    forall j | 0 <= j < |settled|
      ensures Settled(Upsert(items, item, section), settled[j], section)
    {
      UpsertKeepsSettled(items, item, settled[j], section);
    }
  }

  lemma {:induction false} SelfMerge(o: Value, section: string)
    requires Sound(o, section)
    ensures Combine(o, o, section) == o && !Fails(o, o, section)
    decreases o, 0
  {
    if o.Dict? {
      forall k | k in o.entries
        ensures Combine(o.entries[k], o.entries[k], k) == o.entries[k] && !Fails(o.entries[k], o.entries[k], k)
      {
        SelfMerge(o.entries[k], k);
      }
      assert Combine(o, o, section).entries == o.entries;
    } else if o.List? && Keyed(section) {
      forall j | 0 <= j < |o.items|
        ensures Settled(o.items, o.items[j], section)
      {
        assert Find(section, o.items, ItemIdentity(section, o.items[j]).key) == j;
        SelfMerge(o.items[j], section);
      }
      SettledItems(o.items, o.items, section);
    }
  }

  lemma IdempotentEntries(b: Value, o: Value, section: string)
    requires b.Dict? && o.Dict? && Sound(o, section) && !Fails(b, o, section)
    ensures var m := Combine(b, o, section); Combine(m, o, section) == m && !Fails(m, o, section)
    decreases o, 0
  {
    var m := Combine(b, o, section);
    forall k | k in o.entries
      ensures Combine(m.entries[k], o.entries[k], k) == m.entries[k] && !Fails(m.entries[k], o.entries[k], k)
    {
      if k in b.entries {
        Idempotent(b.entries[k], o.entries[k], k);
      } else {
        SelfMerge(o.entries[k], k);
      }
    }
    assert Combine(m, o, section).entries == m.entries;
  }

  /** Merging a sound overlay a second time changes nothing and does not fail. */
  lemma {:induction false} Idempotent(b: Value, o: Value, section: string)
    requires Sound(o, section) && !Fails(b, o, section)
    ensures var m := Combine(b, o, section); Combine(m, o, section) == m && !Fails(m, o, section)
    decreases o, 1
  {
    if b.Dict? && o.Dict? {
      IdempotentEntries(b, o, section);
    } else if b.List? && o.List? && Keyed(section) {
      ItemsSettle(b.items, o.items, section);
      SettledItems(CombineItems(b.items, o.items, section), o.items, section);
      MergedHashable(b.items, o.items, section);
    } else {
      SelfMerge(o, section);
    }
  }

  lemma {:induction false} MergedHashable(items: seq<Value>, overlay: seq<Value>, section: string)
    requires Keyed(section) && Apart(overlay, section) && Hashable(items, section)
    ensures Hashable(CombineItems(items, overlay, section), section)
  {
    if overlay != [] {
      var n := |overlay| - 1;
      var before, item := CombineItems(items, overlay[..n], section), overlay[n];
      MergedHashable(items, overlay[..n], section);
      var k := Find(section, before, ItemIdentity(section, item).key);
      if k >= 0 {
        IdentityKept(before[k], item, section);
      }
    }
  }

  // ----- and only for sound overlays -----

  /** No identity comes twice in a keyed list; it may be missing. */
  ghost predicate Unrepeated(v: Value, section: string) {
    match v
    case Dict(entries) => forall k :: k in entries ==> Unrepeated(entries[k], k)
    case List(items) => Keyed(section) ==>
      Different(items, section) && forall i :: 0 <= i < |items| ==> Unrepeated(items[i], section)
    case _ => true
  }

  ghost predicate Different(items: seq<Value>, section: string) {
    forall i, j :: 0 <= i < j < |items| && ItemIdentity(section, items[i]).Named? ==>
      ItemIdentity(section, items[i]) != ItemIdentity(section, items[j])
  }

  lemma {:induction false} PrefixFails(items: seq<Value>, overlay: seq<Value>, n: nat, section: string)
    requires n < |overlay| && !ItemsFail(items, overlay, section)
    ensures !ItemsFail(items, overlay[..n], section)
    ensures !UpsertFails(CombineItems(items, overlay[..n], section), overlay[n], section)
  {
    var last := |overlay| - 1;
    LastItem(items, overlay, section);
    if n < last {
      PrefixFails(items, overlay[..last], n, section);
      assert overlay[..last][..n] == overlay[..n];
    }
  }

  /** Entries that merge with themselves leave their own list as it is. */
  lemma PrefixSettled(items: seq<Value>, n: nat, section: string)
    requires Keyed(section) && n <= |items| && Different(items, section)
    requires forall i :: 0 <= i < n ==> ItemIdentity(section, items[i]).Named? && Sound(items[i], section)
    ensures CombineItems(items, items[..n], section) == items
  {
    forall j | 0 <= j < n
      ensures Settled(items, items[..n][j], section)
    {
      assert Find(section, items, ItemIdentity(section, items[j]).key) == j;
      SelfMerge(items[j], section);
    }
    SettledItems(items, items[..n], section);
  }

  lemma NextMerges(items: seq<Value>, n: nat, section: string)
    requires n < |items| && Different(items, section) && !UpsertFails(items, items[n], section)
    ensures ItemIdentity(section, items[n]).Named? && !Fails(items[n], items[n], section)
  {
    assert Find(section, items, ItemIdentity(section, items[n]).key) == n;
  }

  lemma NextIsNamed(items: seq<Value>, n: nat, section: string)
    requires Keyed(section) && n < |items| && Different(items, section) && !ItemsFail(items, items, section)
    requires forall i :: 0 <= i < n ==> ItemIdentity(section, items[i]).Named? && Sound(items[i], section)
    ensures ItemIdentity(section, items[n]).Named? && !Fails(items[n], items[n], section)
  {
    PrefixSettled(items, n, section);
    PrefixFails(items, items, n, section);
    NextMerges(items, n, section);
  }

  lemma {:induction false} ItemsSound(items: seq<Value>, n: nat, section: string)
    requires Keyed(section) && n <= |items| && Different(items, section) && !ItemsFail(items, items, section)
    requires forall i :: 0 <= i < |items| ==> Unrepeated(items[i], section)
    ensures forall i :: 0 <= i < n ==> ItemIdentity(section, items[i]).Named? && Sound(items[i], section)
    decreases items, n
  {
    if n > 0 {
      ItemsSound(items, n - 1, section);
      NextIsNamed(items, n - 1, section);
      SelfMergeNeedsSound(items[n - 1], section);
    }
  }

  /** A document without repeated identities that merges with itself has all of
      them. */
  lemma {:induction false} SelfMergeNeedsSound(o: Value, section: string)
    requires Unrepeated(o, section) && !Fails(o, o, section)
    ensures Sound(o, section)
    decreases o, 0
  {
    if o.Dict? {
      forall k | k in o.entries
        ensures Sound(o.entries[k], k)
      {
        SelfMergeNeedsSound(o.entries[k], k);
      }
    } else if o.List? && Keyed(section) {
      ItemsSound(o.items, |o.items|, section);
    }
  }

  ghost predicate MergesTwice(b: Value, o: Value, section: string) {
    Merge(b, o, section).Ok? ==> Merge(Merge(b, o, section).value, o, section) == Merge(b, o, section)
  }

  /** Of the overlays without repeated identities, those that may be merged twice
      over every base are exactly those whose identities are all present. */
  lemma IdempotentIff(o: Value, section: string)
    requires Unrepeated(o, section)
    ensures (forall b :: MergesTwice(b, o, section)) <==> Sound(o, section)
  {
    if Sound(o, section) {
      forall b
        ensures MergesTwice(b, o, section)
      {
        if !Fails(b, o, section) {
          Idempotent(b, o, section);
        }
      }
    }
    if forall b :: MergesTwice(b, o, section) {
      assert MergesTwice(Null, o, section);
      assert Merge(Null, o, section) == Ok(o);
      SelfMergeNeedsSound(o, section);
    }
  }
}
