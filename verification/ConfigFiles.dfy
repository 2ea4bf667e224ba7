/** Loading a configuration file along its chain of extends links. Paths are
    opaque; `resolve` gives the file a link in a file points to. */
module ConfigFiles {
  import opened ConfigMerge
  import opened ConfigLayers

  datatype LoadError = Circular | NotFound | NotAnObject | BadLink | MergeError

  datatype Loaded = Loaded(value: Value) | Failed(error: LoadError)

  predicate Blank(s: string) { forall c :: c in s ==> c in " \t\n\r" }

  function Body(raw: Value): Value
    requires raw.Dict?
  {
    Dict(raw.entries - {"extends"})
  }

  function Link(raw: Value): Value
    requires raw.Dict?
  {
    Get(raw.entries, "extends")
  }

  function Over(base: Loaded, body: Value): Loaded {
    if base.Failed? then base
    else
      match Merge(base.value, body, "")
      case Err => Failed(MergeError)
      case Ok(v) => if v.Dict? then Loaded(v) else Failed(NotAnObject)
  }

  lemma SmallerWithout<P>(s: set<P>, stack: seq<P>, p: P)
    requires p in s && p !in stack
    ensures |s - (set q | q in stack + [p])| < |s - (set q | q in stack)|
  {
    var rest := s - (set q | q in stack);
    assert s - (set q | q in stack + [p]) == rest - {p};
  }

  function Load<P(==)>(files: map<P, Value>, resolve: (P, string) -> P, path: P, stack: seq<P>): Loaded
    decreases |files.Keys - (set q | q in stack)|
  {
    if path in stack then Failed(Circular)
    else if path !in files then Failed(NotFound)
    else if !files[path].Dict? then Failed(NotAnObject)
    else
      var raw := files[path];
      match Link(raw)
      case Null => Loaded(Body(raw))
      case Str(s) =>
        if Blank(s) then Failed(BadLink)
        else
          SmallerWithout(files.Keys, stack, path);
          Over(Load(files, resolve, resolve(path, s), stack + [path]), Body(raw))
      case _ => Failed(BadLink)
  }

  // ----- chains -----

  /** A readable file with a link to the next. */
  ghost predicate Links<P>(files: map<P, Value>, resolve: (P, string) -> P, path: P, next: P) {
    && path in files && files[path].Dict?
    && Link(files[path]).Str? && !Blank(Link(files[path]).s) && next == resolve(path, Link(files[path]).s)
  }

  ghost predicate Ends<P>(files: map<P, Value>, path: P) {
    path in files && files[path].Dict? && Link(files[path]).Null?
  }

  /** Files each linked to the next, up to one without a link. */
  ghost predicate Chain<P>(files: map<P, Value>, resolve: (P, string) -> P, chain: seq<P>) {
    && chain != []
    && if |chain| == 1 then Ends(files, chain[0])
       else Links(files, resolve, chain[0], chain[1]) && Chain(files, resolve, chain[1..])
  }

  /** Files each linked to the next, the last one to `back`. */
  ghost predicate LeadsTo<P>(files: map<P, Value>, resolve: (P, string) -> P, chain: seq<P>, back: P) {
    && chain != []
    && if |chain| == 1 then Links(files, resolve, chain[0], back)
       else Links(files, resolve, chain[0], chain[1]) && LeadsTo(files, resolve, chain[1..], back)
  }

  /** No file comes twice, and none is already being loaded. */
  ghost predicate Simple<P>(chain: seq<P>, stack: seq<P>) {
    chain != [] ==> chain[0] !in stack && Simple(chain[1..], stack + [chain[0]])
  }

  /** The layers of a chain merged from its end, each over what it extends. */
  ghost function Layered<P>(files: map<P, Value>, resolve: (P, string) -> P, chain: seq<P>): Loaded
    requires Chain(files, resolve, chain)
  {
    if |chain| == 1 then Loaded(Body(files[chain[0]]))
    else Over(Layered(files, resolve, chain[1..]), Body(files[chain[0]]))
  }

  /** Loading the head of a simple chain merges its layers. */
  lemma {:induction false} LoadIsLayered<P>(
    files: map<P, Value>, resolve: (P, string) -> P, chain: seq<P>, stack: seq<P>)
    requires Chain(files, resolve, chain) && Simple(chain, stack)
    ensures Load(files, resolve, chain[0], stack) == Layered(files, resolve, chain)
    decreases |chain|
  {
    if |chain| > 1 {
      LoadIsLayered(files, resolve, chain[1..], stack + [chain[0]]);
    }
  }

  /** Whatever loads has a simple chain. */
  lemma {:induction false} LoadedHasChain<P>(files: map<P, Value>, resolve: (P, string) -> P, path: P, stack: seq<P>)
    returns (chain: seq<P>)
    requires Load(files, resolve, path, stack).Loaded?
    ensures Chain(files, resolve, chain) && Simple(chain, stack) && chain[0] == path
    decreases |files.Keys - (set q | q in stack)|
  {
    chain := [path];
    var link := Link(files[path]);
    if link.Str? {
      SmallerWithout(files.Keys, stack, path);
      var rest := LoadedHasChain(files, resolve, resolve(path, link.s), stack + [path]);
      chain := [path] + rest;
      assert chain[1..] == rest;
    } else {
      assert chain[1..] == [];
    }
  }

  lemma OverLeavesNoLink(base: Value, body: Value)
    requires base.Dict? && body.Dict? && "extends" !in base.entries && "extends" !in body.entries
    requires Over(Loaded(base), body).Loaded?
    ensures var v := Over(Loaded(base), body).value; v.Dict? && "extends" !in v.entries
  {
  }

  /** What is loaded is an object and says no more what it extends. */
  lemma {:induction false} LoadedHasNoLink<P>(files: map<P, Value>, resolve: (P, string) -> P, path: P, stack: seq<P>)
    requires Load(files, resolve, path, stack).Loaded?
    ensures var v := Load(files, resolve, path, stack).value; v.Dict? && "extends" !in v.entries
    decreases |files.Keys - (set q | q in stack)|
  {
    var link := Link(files[path]);
    if link.Str? {
      SmallerWithout(files.Keys, stack, path);
      LoadedHasNoLink(files, resolve, resolve(path, link.s), stack + [path]);
      OverLeavesNoLink(Load(files, resolve, resolve(path, link.s), stack + [path]).value, Body(files[path]));
    }
  }

  /** A file loads if and only if a simple chain starts at it whose layers merge;
      the result is then that merge, and always an object. */
  lemma LoadsIff<P>(files: map<P, Value>, resolve: (P, string) -> P, path: P, v: Value)
    ensures Load(files, resolve, path, []) == Loaded(v)
            <==> exists chain: seq<P> :: Chain(files, resolve, chain) && Simple(chain, []) && chain[0] == path
                                         && Layered(files, resolve, chain) == Loaded(v)
  {
    if Load(files, resolve, path, []) == Loaded(v) {
      var chain := LoadedHasChain(files, resolve, path, []);
      LoadIsLayered(files, resolve, chain, []);
    }
    if chain: seq<P> :| Chain(files, resolve, chain) && Simple(chain, []) && chain[0] == path
                        && Layered(files, resolve, chain) == Loaded(v) {
      LoadIsLayered(files, resolve, chain, []);
    }
  }

  lemma OverIsObject(base: Loaded, body: Value)
    requires body.Dict? && (base.Loaded? ==> base.value.Dict?)
    ensures Over(base, body).Loaded? ==> Over(base, body).value.Dict?
    ensures base.Loaded? && Over(base, body).Failed? ==> Over(base, body).error == MergeError
  {
  }

  /** A chain that comes back to one of its files is reported as circular. */
  lemma {:induction false} CycleReported<P>(
    files: map<P, Value>, resolve: (P, string) -> P, chain: seq<P>, back: P, stack: seq<P>)
    requires LeadsTo(files, resolve, chain, back) && Simple(chain, stack) && (back in chain || back in stack)
    ensures Load(files, resolve, chain[0], stack) == Failed(Circular)
    decreases |chain|
  {
    if |chain| > 1 {
      assert chain == [chain[0]] + chain[1..];
      CycleReported(files, resolve, chain[1..], back, stack + [chain[0]]);
    }
  }

  /** A circular error comes from a chain that leads back to a file being loaded:
      errors of the base come before any other. */
  lemma {:induction false} CircularHasChain<P>(files: map<P, Value>, resolve: (P, string) -> P, path: P, stack: seq<P>)
    returns (chain: seq<P>, back: P)
    requires path !in stack && Load(files, resolve, path, stack) == Failed(Circular)
    ensures LeadsTo(files, resolve, chain, back) && Simple(chain, stack) && chain[0] == path
    ensures back in chain || back in stack
    decreases |files.Keys - (set q | q in stack)|
  {
    var next := resolve(path, Link(files[path]).s);
    if next in stack + [path] {
      chain, back := [path], next;
      assert chain[1..] == [];
    } else {
      SmallerWithout(files.Keys, stack, path);
      var rest;
      rest, back := CircularHasChain(files, resolve, next, stack + [path]);
      chain := [path] + rest;
      assert chain[1..] == rest;
    }
  }

  /** Loading reports a circle if and only if a chain of distinct files leads from
      the file back to one of them. */
  lemma CircularIff<P>(files: map<P, Value>, resolve: (P, string) -> P, path: P)
    ensures Load(files, resolve, path, []) == Failed(Circular)
            <==> exists chain: seq<P>, back: P ::
                   LeadsTo(files, resolve, chain, back) && Simple(chain, []) && chain[0] == path && back in chain
  {
    if Load(files, resolve, path, []) == Failed(Circular) {
      var chain, back := CircularHasChain(files, resolve, path, []);
      assert LeadsTo(files, resolve, chain, back);
    }
    if chain: seq<P>, back: P :|
      LeadsTo(files, resolve, chain, back) && Simple(chain, []) && chain[0] == path && back in chain {
      CycleReported(files, resolve, chain, back, []);
    }
  }

  // ----- grouping the layers of a chain -----

  /** Documents joined from the first on. */
  ghost function Stacked<T>(layers: seq<T>, join: (T, T) -> T): T
    requires layers != []
  {
    if |layers| == 1 then layers[0] else join(Stacked(layers[..|layers| - 1], join), layers[|layers| - 1])
  }

  ghost predicate GroupsAt<T>(root: T, layers: seq<T>, n: nat, join: (T, T) -> T)
    requires 0 < n < |layers|
  {
    join(join(root, Stacked(layers[..n], join)), layers[n]) == join(root, join(Stacked(layers[..n], join), layers[n]))
  }

  lemma StackedSnoc<T>(layers: seq<T>, x: T, join: (T, T) -> T)
    requires layers != []
    ensures Stacked(layers + [x], join) == join(Stacked(layers, join), x)
  {
    assert (layers + [x])[..|layers|] == layers;
  }

  lemma {:induction false} StackedRegroup<T>(root: T, layers: seq<T>, n: nat, join: (T, T) -> T)
    requires 0 < n <= |layers| && forall m :: 0 < m < n ==> GroupsAt(root, layers, m, join)
    ensures Stacked([root] + layers[..n], join) == join(root, Stacked(layers[..n], join))
  {
    var last := layers[n - 1];
    assert layers[..n] == layers[..n - 1] + [last];
    assert [root] + layers[..n] == ([root] + layers[..n - 1]) + [last];
    StackedSnoc([root] + layers[..n - 1], last, join);
    if n > 1 {
      assert GroupsAt(root, layers, n - 1, join);
      StackedRegroup(root, layers, n - 1, join);
      StackedSnoc(layers[..n - 1], last, join);
    } else {
      assert [root] + layers[..0] == [root];
    }
  }

  ghost function Stack(layers: seq<Value>): Value
    requires layers != []
  {
    Stacked(layers, Joins(""))
  }

  ghost predicate AllSound(layers: seq<Value>) {
    forall i :: 0 <= i < |layers| ==> Sound(layers[i], "")
  }

  lemma {:induction false} StackSound(layers: seq<Value>)
    requires layers != [] && AllSound(layers)
    ensures Sound(Stack(layers), "")
  {
    if |layers| > 1 {
      var n := |layers| - 1;
      StackSound(layers[..n]);
      MergeSound(Stack(layers[..n]), layers[n], "");
    }
  }

  /** The layers above a root may be merged first, if each agrees with the root
      and the layers before it. */
  lemma LayersRegroup(root: Value, layers: seq<Value>)
    requires layers != [] && Sound(root, "") && AllSound(layers)
    requires forall n :: 0 < n < |layers| ==> Agree(root, Stack(layers[..n]), layers[n], "")
    ensures Stack([root] + layers) == Combine(root, Stack(layers), "")
  {
    forall n | 0 < n < |layers|
      ensures GroupsAt(root, layers, n, Joins(""))
    {
      StackSound(layers[..n]);
      AssociativeIff(root, Stack(layers[..n]), layers[n], "");
    }
    assert layers[..|layers|] == layers;
    StackedRegroup(root, layers, |layers|, Joins(""));
  }

  /** The documents of a chain, from its root up. */
  ghost function Layers<P>(files: map<P, Value>, resolve: (P, string) -> P, chain: seq<P>): seq<Value>
    requires Chain(files, resolve, chain)
  {
    if |chain| == 1 then [Body(files[chain[0]])]
    else Layers(files, resolve, chain[1..]) + [Body(files[chain[0]])]
  }

  lemma StackGrows(layers: seq<Value>, layer: Value)
    requires layers != []
    ensures Stack(layers + [layer]) == Combine(Stack(layers), layer, "")
  {
    StackedSnoc(layers, layer, Joins(""));
  }

  lemma OverSound(base: Value, body: Value)
    requires Sound(base, "") && Sound(body, "") && base.Dict? && body.Dict?
    ensures Over(Loaded(base), body) == Loaded(Combine(base, body, "")) && Combine(base, body, "").Dict?
  {
    MergeSound(base, body, "");
  }

  /** What loading merges is the stack of the layers, if they are sound. */
  lemma {:induction false} LayeredIsStack<P>(files: map<P, Value>, resolve: (P, string) -> P, chain: seq<P>)
    requires Chain(files, resolve, chain) && AllSound(Layers(files, resolve, chain))
    ensures Layers(files, resolve, chain) != [] && Stack(Layers(files, resolve, chain)).Dict?
    ensures Layered(files, resolve, chain) == Loaded(Stack(Layers(files, resolve, chain)))
    decreases |chain|
  {
    if |chain| > 1 {
      var layers, body := Layers(files, resolve, chain[1..]), Body(files[chain[0]]);
      assert AllSound(layers) && Sound(body, "") by {
        assert forall i :: 0 <= i < |layers| ==> (layers + [body])[i] == layers[i];
        assert (layers + [body])[|layers|] == body;
      }
      LayeredIsStack(files, resolve, chain[1..]);
      StackSound(layers);
      StackGrows(layers, body);
      OverSound(Stack(layers), body);
    }
  }

  /** Loading a chain of sound, agreeing layers may merge all but the root first. */
  lemma LoadRegroups<P>(files: map<P, Value>, resolve: (P, string) -> P, chain: seq<P>)
    requires Chain(files, resolve, chain) && Simple(chain, []) && |Layers(files, resolve, chain)| > 1
    requires AllSound(Layers(files, resolve, chain))
    requires var layers := Layers(files, resolve, chain);
             forall n :: 1 < n < |layers| ==> Agree(layers[0], Stack(layers[1..n]), layers[n], "")
    ensures var layers := Layers(files, resolve, chain);
            Load(files, resolve, chain[0], []) == Loaded(Combine(layers[0], Stack(layers[1..]), ""))
  {
    var layers := Layers(files, resolve, chain);
    LoadIsLayered(files, resolve, chain, []);
    LayeredIsStack(files, resolve, chain);
    var root, upper := layers[0], layers[1..];
    forall n | 0 < n < |upper|
      ensures Agree(root, Stack(upper[..n]), upper[n], "")
    {
      assert upper[..n] == layers[1..n + 1] && upper[n] == layers[n + 1];
    }
    assert AllSound(upper);
    LayersRegroup(root, upper);
    assert [root] + upper == layers;
  }

  // ----- where the laws end -----

  /** A middle layer of another kind breaks the grouping. */
  lemma SandwichBreaksGrouping(p: string, q: string)
    requires p != q
    ensures var a, b, c := Dict(map[p := Int(1)]), Int(5), Dict(map[q := Int(2)]);
            Sound(a, "") && Sound(b, "") && Sound(c, "") && !Grouped(a, b, c, "")
  {
    var a, b, c := Dict(map[p := Int(1)]), Int(5), Dict(map[q := Int(2)]);
    AssociativeIff(a, b, c, "");
    assert p in a.entries && p !in c.entries;
  }

  /** An overlay with a nameless channel can be taken over once, but not twice. */
  lemma NamelessNotIdempotent()
    ensures var o := List([Dict(map[])]);
            Merge(Null, o, "channels") == Ok(o) && Merge(o, o, "channels") == Err
  {
    var item := Dict(map[]);
    assert ItemIdentity("channels", item) == Missing;
    assert ItemsFail([item], [item], "channels");
  }
}
