/** `collectChunkAssets`: the files a route needs, collected by a depth-first walk over the chunk graph. */
module ChunkGraph {
  import opened Text
  import opened Sorting

  datatype Chunk = Chunk(imports: seq<Text>, dynamicImports: seq<Text>, importedCss: seq<Text>)

  /** An option left out counts as true: the source only asks whether it is `false`. */
  datatype Options = Options(includeDynamicImports: bool, recurseDynamicImports: bool)

  const DOT: Text := Ascii("./")

  function Dotted(names: seq<Text>): (r: seq<Text>)
    ensures |r| == |names| && forall i :: 0 <= i < |names| ==> r[i] == DOT + names[i]
  {
    seq(|names|, i requires 0 <= i < |names| => DOT + names[i])
  }

  /** Whether the chunk's dynamic imports are among its direct assets. */
  predicate IncludesDynamic(o: Options, isRoot: bool) {
    o.includeDynamicImports && (isRoot || o.recurseDynamicImports)
  }

  function Names(names: seq<Text>): set<Text> {
    set n | n in names
  }

  /** `Array.from(new Set(list))` */
  function Dedup(s: seq<Text>): (r: seq<Text>)
    ensures forall x :: x in r <==> x in s
    ensures forall i, j :: 0 <= i < j < |r| ==> r[i] != r[j]
  {
    if s == [] then []
    else
      var init := Dedup(s[..|s| - 1]);
      var last := s[|s| - 1];
      assert s == s[..|s| - 1] + [last];
      if last in init then init else init + [last]
  }

  // ---------- Reachability ----------

  ghost predicate Reaches(next: Text -> seq<Text>, from: Text, to: Text, steps: nat)
    decreases steps
  {
    if steps == 0 then from == to
    else exists mid :: Reaches(next, from, mid, steps - 1) && to in next(mid)
  }

  ghost predicate Connected(next: Text -> seq<Text>, from: Text, to: Text) {
    exists steps: nat :: Reaches(next, from, to, steps)
  }

  lemma ConnectedSelf(next: Text -> seq<Text>, name: Text)
    ensures Connected(next, name, name)
  {
    assert Reaches(next, name, name, 0);
  }

  lemma ConnectedFurther(next: Text -> seq<Text>, from: Text, mid: Text, to: Text)
    requires Connected(next, from, mid) && to in next(mid)
    ensures Connected(next, from, to)
  {
    var n: nat :| Reaches(next, from, mid, n);
    assert Reaches(next, from, to, n + 1);
  }

  lemma {:induction false} ReachesJoin(next: Text -> seq<Text>, from: Text, mid: Text, to: Text, steps: nat)
    requires Connected(next, from, mid) && Reaches(next, mid, to, steps)
    ensures Connected(next, from, to)
    decreases steps
  {
    if steps == 0 {
    } else {
      var last :| Reaches(next, mid, last, steps - 1) && to in next(last);
      ReachesJoin(next, from, mid, last, steps - 1);
      ConnectedFurther(next, from, last, to);
    }
  }

  lemma ConnectedTransitive(next: Text -> seq<Text>, from: Text, mid: Text, to: Text)
    requires Connected(next, from, mid) && Connected(next, mid, to)
    ensures Connected(next, from, to)
  {
    var n: nat :| Reaches(next, mid, to, n);
    ReachesJoin(next, from, mid, to, n);
  }

  /** A set that is closed under `next` holds all that is reachable from its elements. */
  lemma {:induction false} ClosedHoldsReachable(next: Text -> seq<Text>, from: Text, to: Text, steps: nat, s: set<Text>)
    requires from in s && (forall v, w :: v in s && w in next(v) ==> w in s)
    requires Reaches(next, from, to, steps)
    ensures to in s
    decreases steps
  {
    if steps == 0 {
    } else {
      var mid :| Reaches(next, from, mid, steps - 1) && to in next(mid);
      ClosedHoldsReachable(next, from, mid, steps - 1, s);
    }
  }

  // ---------- The bundle ----------

  /** The chunks by file name, and the names of all files of the build. */
  datatype Bundle = Bundle(chunks: map<Text, Chunk>, files: set<Text>) {

    function IsFile(): Text -> bool {
      file => file in files
    }

    /** The chunks the walk goes on to. */
    function Next(o: Options, name: Text): seq<Text> {
      if name !in chunks then []
      else
        Dotted(chunks[name].imports)
        + if o.includeDynamicImports && o.recurseDynamicImports then Dotted(chunks[name].dynamicImports) else []
    }

    /** The files a visited chunk stands for: itself, what it imports and its style sheets. */
    predicate AssetOf(name: Text, withDynamic: bool, file: Text) {
      && name in chunks && file in files
      && (var c := chunks[name];
          || file == name || file in Dotted(c.imports) || file in Dotted(c.importedCss)
          || (withDynamic && file in Dotted(c.dynamicImports)))
    }

    function Successors(o: Options): Text -> seq<Text> {
      name => Next(o, name)
    }

    ghost predicate Reachable(o: Options, from: Text, to: Text) {
      Connected(Successors(o), from, to)
    }

    /** The walk from `before` to `after` visited only what it should, and left no visited chunk half done. */
    ghost predicate Walked(o: Options, starts: set<Text>, before: set<Text>, after: set<Text>) {
      && before <= after
      && starts <= after
      && (forall v :: v in after && v !in before ==> exists s :: s in starts && Reachable(o, s, v))
      && (forall v, w :: v in after && v !in before && w in Next(o, v) ==> w in after)
    }

    /** `r` lists the assets of the newly visited chunks; `root` alone counts as the root. */
    ghost predicate Lists(o: Options, root: Option<Text>, before: set<Text>, after: set<Text>, r: seq<Text>) {
      forall file :: file in r <==>
        exists v :: v in after && v !in before && AssetOf(v, IncludesDynamic(o, root == Some(v)), file)
    }

    lemma WalkedThen(o: Options, starts: set<Text>, next: Text, a: set<Text>, b: set<Text>, c: set<Text>)
      requires Walked(o, starts, a, b) && Walked(o, {next}, b, c)
      ensures Walked(o, starts + {next}, a, c)
    {
      forall v | v in c && v !in a ensures exists s :: s in starts + {next} && Reachable(o, s, v) {
        if v in b {
          var s :| s in starts && Reachable(o, s, v);
          assert s in starts + {next};
        } else {
          assert next in starts + {next};
        }
      }
    }

    lemma ListsThen(o: Options, a: set<Text>, b: set<Text>, c: set<Text>, r: seq<Text>, t: seq<Text>)
      requires a <= b <= c && Lists(o, None, a, b, r) && Lists(o, None, b, c, t)
      ensures Lists(o, None, a, c, r + t)
    {
    }

    /** The direct assets of a visited chunk. */
    lemma DirectAssets(o: Options, name: Text, isRoot: bool, direct: seq<Text>)
      requires name in chunks
      requires var c := chunks[name];
               var dynamicImports := if IncludesDynamic(o, isRoot) then c.dynamicImports else [];
               direct == Filter(IsFile(), [name] + Dotted(c.imports) + Dotted(dynamicImports) + Dotted(c.importedCss))
      ensures forall file :: file in direct <==> AssetOf(name, IncludesDynamic(o, isRoot), file)
    {
    }

    /** The visit of one chunk: its own assets and those of the nested walks. */
    lemma VisitLists(o: Options, name: Text, isRoot: bool, a: set<Text>, c: set<Text>,
                     direct: seq<Text>, nested: seq<Text>, r: seq<Text>)
      requires name !in a && a + {name} <= c
      requires forall file :: file in direct <==> AssetOf(name, IncludesDynamic(o, isRoot), file)
      requires Lists(o, None, a + {name}, c, nested)
      requires forall x :: x in r <==> x in direct + nested
      ensures Lists(o, if isRoot then Some(name) else None, a, c, r)
    {
      var root := if isRoot then Some(name) else None;
      forall file ensures file in r <==>
        exists v :: v in c && v !in a && AssetOf(v, IncludesDynamic(o, root == Some(v)), file)
      {
        if file in direct {
          assert AssetOf(name, IncludesDynamic(o, root == Some(name)), file);
        } else if file in nested {
          var v :| v in c && v !in a + {name} && AssetOf(v, IncludesDynamic(o, false), file);
          assert AssetOf(v, IncludesDynamic(o, root == Some(v)), file);
        }
      }
    }

    /** The visit of one chunk: the nested walks start at everything the walk goes on to. */
    lemma VisitWalked(o: Options, name: Text, a: set<Text>, b: set<Text>, c: set<Text>)
      requires name !in a && name in chunks
      requires Walked(o, Names(Dotted(chunks[name].imports)), a + {name}, b)
      requires if o.recurseDynamicImports then
                 Walked(o, Names(Dotted(if o.includeDynamicImports then chunks[name].dynamicImports else [])), b, c)
               else b == c
      ensures Walked(o, {name}, a, c)
    {
      ConnectedSelf(Successors(o), name);
      forall v | v in c && v !in a ensures Reachable(o, name, v) {
        if v != name {
          if v in b {
            var s :| s in Names(Dotted(chunks[name].imports)) && Reachable(o, s, v);
            ConnectedFurther(Successors(o), name, name, s);
            ConnectedTransitive(Successors(o), name, s, v);
          } else {
            var s :| s in Names(Dotted(chunks[name].dynamicImports)) && Reachable(o, s, v);
            ConnectedFurther(Successors(o), name, name, s);
            ConnectedTransitive(Successors(o), name, s, v);
          }
        }
      }
      forall v, w | v in c && v !in a && w in Next(o, v) ensures w in c {
        if v == name {
          assert w in Names(Dotted(chunks[name].imports)) || w in Names(Dotted(chunks[name].dynamicImports));
        }
      }
    }

    // ---------- The whole walk ----------

    /** A walk from nothing visits exactly what is reachable. */
    lemma WalkIsReachability(o: Options, root: Text, seen: set<Text>)
      requires Walked(o, {root}, {}, seen)
      ensures forall v :: v in seen <==> Reachable(o, root, v)
    {
      forall v | Reachable(o, root, v) ensures v in seen {
        var n: nat :| Reaches(Successors(o), root, v, n);
        ClosedHoldsReachable(Successors(o), root, v, n, seen);
      }
    }
  }

  /** The closure's shared variable: one `seen` set for all calls of a walk. */
  class Walk {
    const bundle: Bundle
    var seen: set<Text>

    constructor (bundle: Bundle)
      ensures this.bundle == bundle && seen == {}
    {
      this.bundle := bundle;
      seen := {};
    }

    method CollectChunkAssets(name: Text, o: Options, isRoot: bool) returns (r: seq<Text>)
      modifies this
      ensures bundle.Walked(o, {name}, old(seen), seen)
      ensures bundle.Lists(o, if isRoot then Some(name) else None, old(seen), seen, r)
      ensures forall i, j :: 0 <= i < j < |r| ==> r[i] != r[j]
      decreases bundle.chunks.Keys - seen, 0
    {
      ConnectedSelf(bundle.Successors(o), name);
      if name in seen {
        return [];
      }
      seen := seen + {name};
      if name !in bundle.chunks {
        return [];
      }
      var chunk := bundle.chunks[name];
      var dynamicImports := if IncludesDynamic(o, isRoot) then chunk.dynamicImports else [];
      var directAssets := Filter(
        bundle.IsFile(), [name] + Dotted(chunk.imports) + Dotted(dynamicImports) + Dotted(chunk.importedCss));
      ghost var entered := seen;
      var nestedImportAssets := CollectEach(Dotted(chunk.imports), o);
      ghost var imported := seen;
      var nestedDynamicAssets := [];
      if o.recurseDynamicImports {
        nestedDynamicAssets := CollectEach(Dotted(dynamicImports), o);
        bundle.ListsThen(o, entered, imported, seen, nestedImportAssets, nestedDynamicAssets);
      }
      r := Dedup(directAssets + (nestedImportAssets + nestedDynamicAssets));
      bundle.DirectAssets(o, name, isRoot, directAssets);
      bundle.VisitLists(o, name, isRoot, old(seen), seen, directAssets, nestedImportAssets + nestedDynamicAssets, r);
      bundle.VisitWalked(o, name, old(seen), imported, seen);
    }

    /** `names.flatMap((name) => collectChunkAssets(name, options, seen, false))` */
    method CollectEach(names: seq<Text>, o: Options) returns (r: seq<Text>)
      modifies this
      ensures bundle.Walked(o, Names(names), old(seen), seen)
      ensures bundle.Lists(o, None, old(seen), seen, r)
      decreases bundle.chunks.Keys - seen, 1
    {
      r := [];
      for i := 0 to |names|
        invariant bundle.Walked(o, Names(names[..i]), old(seen), seen)
        invariant bundle.Lists(o, None, old(seen), seen, r)
      {
        ghost var before := seen;
        var assets := CollectChunkAssets(names[i], o, false);
        bundle.WalkedThen(o, Names(names[..i]), names[i], old(seen), before, seen);
        bundle.ListsThen(o, old(seen), before, seen, r, assets);
        assert Names(names[..i + 1]) == Names(names[..i]) + {names[i]};
        r := r + assets;
      }
      assert names[..|names|] == names;
    }
  }

  /**
   What a route is given: without duplicates, exactly the files among the reachable chunks, their
   imports and style sheets, and the dynamic imports that count.
   */
  ghost predicate RouteAssets(b: Bundle, o: Options, root: Text, r: seq<Text>) {
    && (forall i, j :: 0 <= i < j < |r| ==> r[i] != r[j])
    && (forall file :: file in r <==>
          exists v :: b.Reachable(o, root, v) && b.AssetOf(v, IncludesDynamic(o, v == root), file))
  }

  /** `collectChunkAssets(root, options)` with a new `seen` set. */
  method CollectRoute(b: Bundle, o: Options, root: Text) returns (r: seq<Text>)
    ensures RouteAssets(b, o, root, r)
  {
    var walk := new Walk(b);
    r := walk.CollectChunkAssets(root, o, true);
    b.WalkIsReachability(o, root, walk.seen);
    ghost var seen := walk.seen;
    assert forall file :: file in r <==>
      exists v :: v in seen && v !in {} && b.AssetOf(v, IncludesDynamic(o, Some(root) == Some(v)), file);
  }

  /**
   With `recurseDynamicImports: false`: the chunks reachable over static imports, their imports,
   their style sheets, and of the dynamic imports only the root's own.
   */
  lemma RootDynamicImportsOnly(b: Bundle, root: Text, r: seq<Text>, file: Text)
    requires RouteAssets(b, Options(true, false), root, r)
    ensures forall v :: v in b.chunks ==> b.Next(Options(true, false), v) == Dotted(b.chunks[v].imports)
    ensures file in r <==>
              (file in b.files
               && (exists v :: (b.Reachable(Options(true, false), root, v) && v in b.chunks
                                && (file == v || file in Dotted(b.chunks[v].imports) || file in Dotted(b.chunks[v].importedCss)
                                    || (v == root && file in Dotted(b.chunks[root].dynamicImports))))))
  {
  }
}
