/** The base-layer summarizer (`main.go`, `treeInfo.summary` and the name
    resolver it uses): which first layers the images of a tree share, by how
    many images and under which names. */
module BaseLayers {
  import opened Outcomes
  import opened GoStrings
  import opened KnownTags
  import opened OciUtils

  /** Digest -> the digests that follow it in some image, each once, in the
      order first seen. */
  type Adjacency = map<string, seq<string>>

  /** `allLayers[digest]`: the recorded children, or none. */
  function Children(adj: Adjacency, d: string): seq<string>
  {
    if d in adj then adj[d] else []
  }

  // ---------------------------------------------------------------------
  // getNamesOfSelfOrUniqueDescendantLayer

  /** The resolver stops at `d` when `d` has two or more names, or one name
      other than "?", or not exactly one child. */
  predicate Stops(names: NameMap, adj: Adjacency, d: string)
  {
    var ns := NamesForHash(names, d);
    |ns| > 1 || (|ns| == 1 && ns[0] != Unknown) || |Children(adj, d)| != 1
  }

  /** What the resolver returns where it stops: two or more names as they
      are, a single real name with an asterisk, otherwise the names as they
      are (`["?"]` for an unknown digest). */
  function Final(names: NameMap, d: string): (r: seq<string>)
    ensures |NamesForHash(names, d)| > 1 ==> r == NamesForHash(names, d)
    ensures NamesForHash(names, d) == [Unknown] ==> r == [Unknown]
  {
    var ns := NamesForHash(names, d);
    if |ns| > 1 then ns
    else if |ns| == 1 && ns[0] != Unknown then [ns[0] + "*"]
    else ns
  }

  /** The only child of a digest the resolver walks past. */
  function Next(adj: Adjacency, d: string): string
  {
    if |Children(adj, d)| == 1 then Children(adj, d)[0] else d
  }

  /** The resolver AS WRITTEN, which has no guard against walking in a
      circle; `fuel` bounds the number of calls and None means the walk did
      not end within it. */
  function ResolveFuel(fuel: nat, names: NameMap, adj: Adjacency, d: string): Option<seq<string>>
  {
    if fuel == 0 then None
    else if Stops(names, adj, d) then Some(Final(names, d))
    else ResolveFuel(fuel - 1, names, adj, Next(adj, d))
  }

  /** The resolver with the walk's visited digests remembered: on reaching a
      digest already visited it stops as it does at a digest with several
      children, returning the names of the digest it is at. */
  function ResolveFrom(names: NameMap, adj: Adjacency, d: string, visited: set<string>): seq<string>
    requires d !in visited
    decreases adj.Keys - visited
  {
    if Stops(names, adj, d) then Final(names, d)
    else
      var c := Next(adj, d);
      if c == d || c in visited then NamesForHash(names, d)
      else ResolveFrom(names, adj, c, visited + {d})
  }

  /** `getNamesOfSelfOrUniqueDescendantLayer`, with the cycle guard. */
  function NamesOfSelfOrUniqueDescendant(names: NameMap, adj: Adjacency, d: string): seq<string>
  {
    ResolveFrom(names, adj, d, {})
  }

  /** The resolver's case analysis: a digest with two or more names gives
      them unchanged, one real name gives that name with an asterisk, and
      a digest with no usable name and zero or several children gives its
      names unchanged (`["?"]` when unknown). */
  lemma ResolverStops(names: NameMap, adj: Adjacency, d: string)
    ensures var ns := NamesForHash(names, d);
            var r := NamesOfSelfOrUniqueDescendant(names, adj, d);
            && (|ns| > 1 ==> r == ns)
            && (|ns| == 1 && ns[0] != Unknown ==> r == [ns[0] + "*"])
            && (ns == [Unknown] && |Children(adj, d)| != 1 ==> r == [Unknown])
  {
  }

  /** A digest with no usable name and exactly one child, not itself,
      resolves to what its child resolves to. */
  lemma ResolverFollowsUniqueChild(names: NameMap, adj: Adjacency, d: string)
    requires !Stops(names, adj, d) && Next(adj, d) != d
    ensures NamesOfSelfOrUniqueDescendant(names, adj, d)
            == ResolveFrom(names, adj, Next(adj, d), {d})
  {
    assert {} + {d} == {d};
  }

  /** The digest after position `k` of a cycle. */
  function Succ(cyc: seq<string>, k: int): string
    requires 0 <= k < |cyc|
  {
    if k + 1 < |cyc| then cyc[k + 1] else cyc[0]
  }

  /** A walk around a cycle of digests that never stop never ends. */
  lemma {:induction false} CycleNeverEnds(fuel: nat, names: NameMap, adj: Adjacency, cyc: seq<string>, i: nat)
    requires 0 <= i < |cyc|
    requires forall k :: 0 <= k < |cyc| ==> !Stops(names, adj, cyc[k])
    requires forall k :: 0 <= k < |cyc| ==> Next(adj, cyc[k]) == Succ(cyc, k)
    ensures ResolveFuel(fuel, names, adj, cyc[i]) == None
  {
    if fuel > 0 {
      var i' := if i + 1 < |cyc| then i + 1 else 0;
      assert Next(adj, cyc[i]) == Succ(cyc, i);
      CycleNeverEnds(fuel - 1, names, adj, cyc, i');
    }
  }

  /** `p` is a walk of the resolver that leads into `d`. */
  ghost predicate WalkInto(names: NameMap, adj: Adjacency, p: seq<string>, d: string)
  {
    forall k :: 0 <= k < |p| ==>
      !Stops(names, adj, p[k]) && Next(adj, p[k]) == (if k + 1 < |p| then p[k + 1] else d)
  }

  /** A walk that returns from `d` to a digest it has already passed goes
      round for ever. */
  lemma WalkBackNeverEnds(fuel: nat, names: NameMap, adj: Adjacency, p: seq<string>, d: string, j: int)
    requires WalkInto(names, adj, p, d)
    requires 0 <= j < |p| && !Stops(names, adj, d) && Next(adj, d) == p[j]
    ensures ResolveFuel(fuel, names, adj, d) == None
  {
    var cyc := p[j..] + [d];
    forall k | 0 <= k < |cyc|
      ensures !Stops(names, adj, cyc[k])
      ensures Next(adj, cyc[k]) == Succ(cyc, k)
    {
      if k < |cyc| - 1 {
        assert cyc[k] == p[j + k];
        assert Next(adj, p[j + k]) == if j + k + 1 < |p| then p[j + k + 1] else d;
        if k + 1 < |cyc| - 1 { assert cyc[k + 1] == p[j + k + 1]; }
        else { assert cyc[k + 1] == d; }
      } else {
        assert cyc[k] == d && cyc[0] == p[j];
      }
    }
    CycleNeverEnds(fuel, names, adj, cyc, |cyc| - 1);
  }

  /** Whenever the resolver as written returns, the guarded one returns the
      same names: the guard only changes walks that go round for ever. */
  lemma {:induction false} GuardAgrees(fuel: nat, names: NameMap, adj: Adjacency, p: seq<string>, d: string)
    requires WalkInto(names, adj, p, d)
    requires d !in p
    requires ResolveFuel(fuel, names, adj, d).Some?
    ensures ResolveFrom(names, adj, d, set x | x in p) == ResolveFuel(fuel, names, adj, d).value
  {
    var visited := set x | x in p;
    if !Stops(names, adj, d) {
      var c := Next(adj, d);
      if c == d {
        CycleNeverEnds(fuel, names, adj, [d], 0);
        assert false;
      } else if c in visited {
        var j :| 0 <= j < |p| && p[j] == c;
        WalkBackNeverEnds(fuel, names, adj, p, d, j);
        assert false;
      } else {
        var p' := p + [d];
        assert WalkInto(names, adj, p', c) by {
          forall k | 0 <= k < |p'|
            ensures !Stops(names, adj, p'[k])
            ensures Next(adj, p'[k]) == (if k + 1 < |p'| then p'[k + 1] else c)
          {
            if k < |p| {
              assert p'[k] == p[k];
              assert Next(adj, p[k]) == if k + 1 < |p| then p[k + 1] else d;
              assert p'[k + 1] == if k + 1 < |p| then p[k + 1] else d;
            } else {
              assert p'[k] == d;
            }
          }
        }
        assert (set x | x in p') == visited + {d};
        GuardAgrees(fuel - 1, names, adj, p', c);
      }
    }
  }

  /** The guarded resolver agrees with the one as written wherever the one as
      written terminates. */
  lemma ResolverAgrees(fuel: nat, names: NameMap, adj: Adjacency, d: string)
    requires ResolveFuel(fuel, names, adj, d).Some?
    ensures NamesOfSelfOrUniqueDescendant(names, adj, d) == ResolveFuel(fuel, names, adj, d).value
  {
    assert (set x: string | x in []) == {};
    GuardAgrees(fuel, names, adj, [], d);
  }

  /** An image tagged "?" whose layers are `[a, a]`, where nothing else
      names `a`: loading it appends its tag "?" under its top layer `a`
      (`WithName(known, a, "?")`), and the resolver as written then calls
      itself on `a` for ever; the guarded one returns `["?"]`. */
  lemma RepeatedLayerLoops(known: NameMap, a: string, fuel: nat)
    requires a !in known
    ensures var names := WithName(known, a, Unknown);
            ResolveFuel(fuel, names, AddChainEdges(map[], [a, a]), a) == None
    ensures var names := WithName(known, a, Unknown);
            NamesOfSelfOrUniqueDescendant(names, AddChainEdges(map[], [a, a]), a) == [Unknown]
  {
    var names := WithName(known, a, Unknown);
    assert NamesForHash(names, a) == [Unknown];
    var adj := AddChainEdges(map[], [a, a]);
    assert [a, a][1..] == [a];
    assert Children(map[], a) == [];
    assert AddEdge(map[], a, a) == map[a := [] + [a]];
    assert [] + [a] == [a];
    assert adj == AddChainEdges(map[a := [a]], [a]) == map[a := [a]];
    CycleNeverEnds(fuel, names, adj, [a], 0);
  }

  // ---------------------------------------------------------------------
  // The maps summary builds

  /** The lbl of an image in the summary: `base(layoutpath)/tag`. */
  function UsageLabel(info: ImageInfo): string
  {
    Base(info.ref.layoutPath) + "/" + info.ref.tag
  }

  /** `layerDigests[0]`, where it exists. */
  function BaseLayer(info: ImageInfo): string
  {
    if info.layerDigests == [] then "" else info.layerDigests[0]
  }

  /** Every image has at least one layer, so that `layerDigests[0]` does not
      panic. */
  ghost predicate Layered(infos: seq<ImageInfo>)
  {
    forall k :: 0 <= k < |infos| ==> infos[k].layerDigests != []
  }

  /** `baseLayerMap`: every image's lbl appended under its base layer, in
      image order. */
  function AddBases(m: map<string, seq<string>>, infos: seq<ImageInfo>): map<string, seq<string>>
    decreases infos
  {
    if infos == [] then m
    else
      var b := BaseLayer(infos[0]);
      AddBases(m[b := Stored(m, b) + [UsageLabel(infos[0])]], infos[1..])
  }

  /** The labels of the images whose base layer is `b`, in image order. */
  function UsersOf(infos: seq<ImageInfo>, b: string): seq<string>
  {
    if infos == [] then []
    else (if BaseLayer(infos[0]) == b then [UsageLabel(infos[0])] else []) + UsersOf(infos[1..], b)
  }

  /** The base-layer map lists under each base exactly the images that start
      from it, in image order. */
  lemma {:induction false} AddBasesUsers(m: map<string, seq<string>>, infos: seq<ImageInfo>, b: string)
    decreases infos
    ensures Stored(AddBases(m, infos), b) == Stored(m, b) + UsersOf(infos, b)
  {
    if infos != [] {
      var b0, lbl := BaseLayer(infos[0]), UsageLabel(infos[0]);
      AddBasesUsers(m[b0 := Stored(m, b0) + [lbl]], infos[1..], b);
      StoredAppend(m, b0, b, lbl, UsersOf(infos[1..], b));
    }
  }

  /** Appending `x` under `k` adds `x` to what is stored under `b` exactly
      when `k` is `b`. */
  lemma StoredAppend(m: map<string, seq<string>>, k: string, b: string, x: string, rest: seq<string>)
    ensures Stored(m[k := Stored(m, k) + [x]], b) + rest == Stored(m, b) + ((if k == b then [x] else []) + rest)
  {
  }

  /** The base-layer map has a key for every image's base layer and no
      other. */
  lemma {:induction false} AddBasesKeys(m: map<string, seq<string>>, infos: seq<ImageInfo>, b: string)
    decreases infos
    ensures b in AddBases(m, infos) <==> b in m || exists k :: 0 <= k < |infos| && BaseLayer(infos[k]) == b
  {
    if infos != [] {
      var b0 := BaseLayer(infos[0]);
      AddBasesKeys(m[b0 := Stored(m, b0) + [UsageLabel(infos[0])]], infos[1..], b);
      if exists k :: 0 <= k < |infos[1..]| && BaseLayer(infos[1..][k]) == b {
        var k :| 0 <= k < |infos[1..]| && BaseLayer(infos[1..][k]) == b;
        assert BaseLayer(infos[k + 1]) == b;
      }
      if exists k :: 0 <= k < |infos| && BaseLayer(infos[k]) == b {
        var k :| 0 <= k < |infos| && BaseLayer(infos[k]) == b;
        if k > 0 { assert infos[1..][k - 1] == infos[k]; }
      }
    }
  }

  /** One edge `d -> c`, unless `c` is already among `d`'s children. */
  function AddEdge(adj: Adjacency, d: string, c: string): Adjacency
  {
    if c in Children(adj, d) then adj else adj[d := Children(adj, d) + [c]]
  }

  /** The edges of one image: each layer to the next, none out of the top
      layer. */
  function AddChainEdges(adj: Adjacency, ds: seq<string>): Adjacency
    decreases ds
  {
    if |ds| < 2 then adj else AddChainEdges(AddEdge(adj, ds[0], ds[1]), ds[1..])
  }

  /** `allLayers`: the edges of every image, in image order. */
  function AddAllEdges(adj: Adjacency, infos: seq<ImageInfo>): Adjacency
    decreases infos
  {
    if infos == [] then adj else AddAllEdges(AddChainEdges(adj, infos[0].layerDigests), infos[1..])
  }

  /** No child is listed twice. */
  ghost predicate NoDuplicateEdges(adj: Adjacency)
  {
    forall d, i, j :: d in adj && 0 <= i < j < |adj[d]| ==> adj[d][i] != adj[d][j]
  }

  /** `ds` has `d` directly followed by `c`. */
  ghost predicate Consecutive(ds: seq<string>, d: string, c: string)
  {
    exists i :: 0 <= i < |ds| - 1 && ds[i] == d && ds[i + 1] == c
  }

  lemma {:induction false} ChainEdgesNoDuplicates(adj: Adjacency, ds: seq<string>)
    decreases ds
    requires NoDuplicateEdges(adj)
    ensures NoDuplicateEdges(AddChainEdges(adj, ds))
  {
    if |ds| >= 2 {
      ChainEdgesNoDuplicates(AddEdge(adj, ds[0], ds[1]), ds[1..]);
    }
  }

  /** Building the adjacency never records an edge twice. */
  lemma {:induction false} AllEdgesNoDuplicates(adj: Adjacency, infos: seq<ImageInfo>)
    decreases infos
    requires NoDuplicateEdges(adj)
    ensures NoDuplicateEdges(AddAllEdges(adj, infos))
  {
    if infos != [] {
      ChainEdgesNoDuplicates(adj, infos[0].layerDigests);
      AllEdgesNoDuplicates(AddChainEdges(adj, infos[0].layerDigests), infos[1..]);
    }
  }

  lemma {:induction false} ChainEdgesMembers(adj: Adjacency, ds: seq<string>, d: string, c: string)
    decreases ds
    ensures c in Children(AddChainEdges(adj, ds), d) <==> c in Children(adj, d) || Consecutive(ds, d, c)
  {
    if |ds| >= 2 {
      var adj' := AddEdge(adj, ds[0], ds[1]);
      ChainEdgesMembers(adj', ds[1..], d, c);
      if Consecutive(ds[1..], d, c) {
        var i :| 0 <= i < |ds[1..]| - 1 && ds[1..][i] == d && ds[1..][i + 1] == c;
        assert ds[i + 1] == d && ds[i + 2] == c;
      }
      if Consecutive(ds, d, c) {
        var i :| 0 <= i < |ds| - 1 && ds[i] == d && ds[i + 1] == c;
        if i > 0 { assert ds[1..][i - 1] == d && ds[1..][i] == c; }
      }
    }
  }

  /** `c` is a child of `d` exactly when some image has layer `d` directly
      below layer `c`; the top layer of an image gives no edge. */
  lemma {:induction false} AllEdgesMembers(adj: Adjacency, infos: seq<ImageInfo>, d: string, c: string)
    decreases infos
    ensures c in Children(AddAllEdges(adj, infos), d) <==>
      c in Children(adj, d) || exists k :: 0 <= k < |infos| && Consecutive(infos[k].layerDigests, d, c)
  {
    if infos != [] {
      ChainEdgesMembers(adj, infos[0].layerDigests, d, c);
      AllEdgesMembers(AddChainEdges(adj, infos[0].layerDigests), infos[1..], d, c);
      if exists k :: 0 <= k < |infos[1..]| && Consecutive(infos[1..][k].layerDigests, d, c) {
        var k :| 0 <= k < |infos[1..]| && Consecutive(infos[1..][k].layerDigests, d, c);
        assert infos[k + 1] == infos[1..][k];
      }
      if exists k :: 0 <= k < |infos| && Consecutive(infos[k].layerDigests, d, c) {
        var k :| 0 <= k < |infos| && Consecutive(infos[k].layerDigests, d, c);
        if k > 0 { assert infos[1..][k - 1] == infos[k]; }
      }
    }
  }

  /** Every name of a layer other than "?" gets the lbl appended, once per
      time the name is listed. */
  function AddInternalNames(m: map<string, seq<string>>, ns: seq<string>, lbl: string): map<string, seq<string>>
    decreases ns
  {
    if ns == [] then m
    else
      var m' := if ns[0] == Unknown then m else m[ns[0] := Stored(m, ns[0]) + [lbl]];
      AddInternalNames(m', ns[1..], lbl)
  }

  /** The names of every layer of one image but the top one. */
  function AddChainNames(m: map<string, seq<string>>, names: NameMap, ds: seq<string>, lbl: string): map<string, seq<string>>
    decreases ds
  {
    if |ds| < 2 then m
    else AddChainNames(AddInternalNames(m, NamesForHash(names, ds[0]), lbl), names, ds[1..], lbl)
  }

  /** `allInternalKnownLayersSet` over every image, in image order. */
  function AddAllNames(m: map<string, seq<string>>, names: NameMap, infos: seq<ImageInfo>): map<string, seq<string>>
    decreases infos
  {
    if infos == [] then m
    else AddAllNames(AddChainNames(m, names, infos[0].layerDigests, UsageLabel(infos[0])), names, infos[1..])
  }

  lemma {:induction false} InternalNamesKeys(m: map<string, seq<string>>, ns: seq<string>, lbl: string, n: string)
    decreases ns
    ensures n in AddInternalNames(m, ns, lbl) <==> n in m || (n != Unknown && n in ns)
  {
    if ns != [] {
      var m' := if ns[0] == Unknown then m else m[ns[0] := Stored(m, ns[0]) + [lbl]];
      InternalNamesKeys(m', ns[1..], lbl, n);
      assert n in ns <==> n == ns[0] || n in ns[1..];
    }
  }

  lemma {:induction false} ChainNamesKeys(m: map<string, seq<string>>, names: NameMap, ds: seq<string>, lbl: string, n: string)
    decreases ds
    ensures n in AddChainNames(m, names, ds, lbl) <==>
      n in m || (n != Unknown && exists i :: 0 <= i < |ds| - 1 && n in NamesForHash(names, ds[i]))
  {
    if |ds| >= 2 {
      var m' := AddInternalNames(m, NamesForHash(names, ds[0]), lbl);
      InternalNamesKeys(m, NamesForHash(names, ds[0]), lbl, n);
      ChainNamesKeys(m', names, ds[1..], lbl, n);
      if exists i :: 0 <= i < |ds[1..]| - 1 && n in NamesForHash(names, ds[1..][i]) {
        var i :| 0 <= i < |ds[1..]| - 1 && n in NamesForHash(names, ds[1..][i]);
        assert ds[1..][i] == ds[i + 1];
      }
      if exists i :: 0 <= i < |ds| - 1 && n in NamesForHash(names, ds[i]) {
        var i :| 0 <= i < |ds| - 1 && n in NamesForHash(names, ds[i]);
        if i > 0 { assert ds[1..][i - 1] == ds[i]; }
      }
    }
  }

  /** The internal-names map is keyed by exactly the names other than "?" of
      the layers below some image's top layer. */
  lemma {:induction false} AllNamesKeys(m: map<string, seq<string>>, names: NameMap, infos: seq<ImageInfo>, n: string)
    decreases infos
    ensures n in AddAllNames(m, names, infos) <==>
      n in m || (n != Unknown && exists k, i :: 0 <= k < |infos| && 0 <= i < |infos[k].layerDigests| - 1
                                              && n in NamesForHash(names, infos[k].layerDigests[i]))
  {
    if infos != [] {
      var m' := AddChainNames(m, names, infos[0].layerDigests, UsageLabel(infos[0]));
      ChainNamesKeys(m, names, infos[0].layerDigests, UsageLabel(infos[0]), n);
      AllNamesKeys(m', names, infos[1..], n);
      if exists k, i :: 0 <= k < |infos[1..]| && 0 <= i < |infos[1..][k].layerDigests| - 1
                        && n in NamesForHash(names, infos[1..][k].layerDigests[i]) {
        var k, i :| 0 <= k < |infos[1..]| && 0 <= i < |infos[1..][k].layerDigests| - 1
                    && n in NamesForHash(names, infos[1..][k].layerDigests[i]);
        assert infos[1..][k] == infos[k + 1];
      }
      if exists k, i :: 0 <= k < |infos| && 0 <= i < |infos[k].layerDigests| - 1
                        && n in NamesForHash(names, infos[k].layerDigests[i]) {
        var k, i :| 0 <= k < |infos| && 0 <= i < |infos[k].layerDigests| - 1
                    && n in NamesForHash(names, infos[k].layerDigests[i]);
        if k > 0 { assert infos[1..][k - 1] == infos[k]; }
      }
    }
  }

  // ---------------------------------------------------------------------
  // Rows and their order (summaryItem, byCount)

  datatype SummaryItem = SummaryItem(digest7: string, names: seq<string>, count: int, users: string)

  /** The first seven characters of a digest, or all of it when shorter. */
  function Digest7(b: string): (r: string)
    ensures r <= b
    ensures |r| == if |b| > 7 then 7 else |b|
  {
    if |b| > 7 then b[..7] else b
  }

  /** The row of one base layer. */
  function RowFor(names: NameMap, adj: Adjacency, bases: map<string, seq<string>>, b: string): SummaryItem
    requires b in bases
  {
    SummaryItem(Digest7(b), NamesOfSelfOrUniqueDescendant(names, adj, b), |bases[b]|, Join(bases[b], ", "))
  }

  /** `byCount.Less`: fewer uses first, then smaller `digest7`. */
  predicate ByCountLess(a: SummaryItem, b: SummaryItem)
  {
    if a.count == b.count then Less(a.digest7, b.digest7) else a.count < b.count
  }

  /** Sorted by `sort.Reverse(byCount)`: no row is less than a row after
      it, so counts descend and equal counts have descending `digest7`. */
  ghost predicate SortedByCountDescending(s: seq<SummaryItem>)
  {
    forall i, j :: 0 <= i < j < |s| ==> !ByCountLess(s[i], s[j])
  }

  lemma ByCountLessTransitive(a: SummaryItem, b: SummaryItem, c: SummaryItem)
    requires ByCountLess(a, b) && ByCountLess(b, c)
    ensures ByCountLess(a, c)
  {
    if a.count == b.count && b.count == c.count {
      LessTransitive(a.digest7, b.digest7, c.digest7);
    }
  }

  lemma ByCountLessTotal(a: SummaryItem, b: SummaryItem)
    requires !ByCountLess(a, b) && !ByCountLess(b, a)
    ensures a.count == b.count && a.digest7 == b.digest7
  {
    LessTotal(a.digest7, b.digest7);
  }

  /** Inserts `x` before the first row that is less than it. */
  function Insert(s: seq<SummaryItem>, x: SummaryItem): (r: seq<SummaryItem>)
    ensures multiset(r) == multiset(s) + multiset{x}
  {
    if s == [] then [x]
    else if ByCountLess(s[0], x) then [x] + s
    else
      assert s == [s[0]] + s[1..];
      [s[0]] + Insert(s[1..], x)
  }

  /** Inserting into rows sorted by descending `byCount` keeps them
      sorted. */
  lemma {:induction false} InsertSorted(s: seq<SummaryItem>, x: SummaryItem)
    requires SortedByCountDescending(s)
    ensures SortedByCountDescending(Insert(s, x))
  {
    if s != [] {
      if ByCountLess(s[0], x) {
        forall j | 0 <= j < |s| ensures !ByCountLess(x, s[j]) {
          if ByCountLess(x, s[j]) {
            ByCountLessTransitive(s[0], x, s[j]);
            if j == 0 { LessIrreflexive(s[0].digest7); }
          }
        }
        PrependSorted(x, s);
      } else {
        var rest := Insert(s[1..], x);
        InsertSorted(s[1..], x);
        assert multiset(s) == multiset{s[0]} + multiset(s[1..]) by { assert s == [s[0]] + s[1..]; }
        forall j | 0 <= j < |rest| ensures !ByCountLess(s[0], rest[j]) {
          var e := rest[j];
          assert e in multiset(rest);
          if e != x {
            assert e in multiset(s[1..]);
            var i :| 0 <= i < |s[1..]| && s[1..][i] == e;
            assert s[i + 1] == e;
          }
        }
        PrependSorted(s[0], rest);
      }
    }
  }

  /** A row no less than any of a sorted list can go in front of it. */
  lemma PrependSorted(x: SummaryItem, s: seq<SummaryItem>)
    requires SortedByCountDescending(s)
    requires forall j :: 0 <= j < |s| ==> !ByCountLess(x, s[j])
    ensures SortedByCountDescending([x] + s)
  {
    var r := [x] + s;
    forall i, j | 0 <= i < j < |r| ensures !ByCountLess(r[i], r[j]) {
      assert r[j] == s[j - 1];
      if i > 0 { assert r[i] == s[i - 1]; }
    }
  }

  /** `sort.Sort(sort.Reverse(byCount(summaryItems)))`: the same rows, in
      descending order of count and, for equal counts, of `digest7`. */
  method SortByCountDescending(rows: seq<SummaryItem>) returns (sorted: seq<SummaryItem>)
    ensures SortedByCountDescending(sorted)
    ensures multiset(sorted) == multiset(rows)
  {
    sorted := [];
    var i := 0;
    while i < |rows|
      invariant 0 <= i <= |rows|
      invariant SortedByCountDescending(sorted)
      invariant multiset(sorted) == multiset(rows[..i])
    {
      assert rows[..i + 1] == rows[..i] + [rows[i]];
      InsertSorted(sorted, rows[i]);
      sorted := Insert(sorted, rows[i]);
      i := i + 1;
    }
    assert rows[..i] == rows;
  }

  /** Rows with equal count are ordered by descending `digest7`; rows with
      different counts by descending count. */
  lemma SortedOrder(s: seq<SummaryItem>, i: int, j: int)
    requires SortedByCountDescending(s)
    requires 0 <= i < j < |s|
    ensures s[i].count >= s[j].count
    ensures s[i].count == s[j].count ==> s[i].digest7 == s[j].digest7 || Less(s[j].digest7, s[i].digest7)
  {
    LessTotal(s[i].digest7, s[j].digest7);
  }

  /** The users column: the labels joined with ", ", built up one lbl at a
      time. */
  method JoinUsers(users: seq<string>) returns (s: string)
    ensures s == Join(users, ", ")
  {
    s := "";
    var i := 0;
    while i < |users|
      invariant 0 <= i <= |users|
      invariant s == Join(users[..i], ", ") + (if 0 < i < |users| then ", " else "")
    {
      assert users[..i + 1] == users[..i] + [users[i]];
      JoinSnoc(users[..i], users[i], ", ");
      s := s + users[i];
      if i < |users| - 1 {
        s := s + ", ";
      }
      i := i + 1;
    }
    assert users[..i] == users;
  }

  /** `rows` holds exactly one row per base layer, in some order. */
  ghost predicate RowsOf(names: NameMap, adj: Adjacency, bases: map<string, seq<string>>, rows: seq<SummaryItem>)
  {
    && |rows| == |bases.Keys|
    && (forall b :: b in bases ==> RowFor(names, adj, bases, b) in rows)
    && (forall k :: 0 <= k < |rows| ==> exists b :: b in bases && rows[k] == RowFor(names, adj, bases, b))
  }

  /** The rows: one per base layer, visited in an arbitrary order as Go's
      map range does. */
  method Rows(names: NameMap, adj: Adjacency, bases: map<string, seq<string>>) returns (rows: seq<SummaryItem>)
    ensures RowsOf(names, adj, bases, rows)
  {
    var remaining := bases.Keys;
    ghost var done: seq<string> := [];
    rows := [];
    while remaining != {}
      decreases |remaining|
      invariant remaining <= bases.Keys
      invariant |rows| == |done| == |bases.Keys| - |remaining|
      invariant forall k :: 0 <= k < |done| ==> done[k] in bases && rows[k] == RowFor(names, adj, bases, done[k])
      invariant forall b :: b in bases ==> b in remaining || b in done
    {
      var b :| b in remaining;
      var users := JoinUsers(bases[b]);
      var row := SummaryItem(Digest7(b), NamesOfSelfOrUniqueDescendant(names, adj, b), |bases[b]|, users);
      assert row == RowFor(names, adj, bases, b);
      rows := rows + [row];
      done := done + [b];
      remaining := remaining - {b};
    }
    RowsDone(names, adj, bases, done, rows);
  }

  /** Once every base is done, the rows are one per base. */
  lemma RowsDone(names: NameMap, adj: Adjacency, bases: map<string, seq<string>>, done: seq<string>, rows: seq<SummaryItem>)
    requires |rows| == |done| == |bases.Keys|
    requires forall k :: 0 <= k < |done| ==> done[k] in bases && rows[k] == RowFor(names, adj, bases, done[k])
    requires forall b :: b in bases ==> b in done
    ensures RowsOf(names, adj, bases, rows)
  {
    forall b | b in bases ensures RowFor(names, adj, bases, b) in rows {
      var k :| 0 <= k < |done| && done[k] == b;
      assert rows[k] == RowFor(names, adj, bases, b);
    }
    forall k | 0 <= k < |rows| ensures exists b :: b in bases && rows[k] == RowFor(names, adj, bases, b) {
      assert done[k] in bases && rows[k] == RowFor(names, adj, bases, done[k]);
    }
  }

  /** What summary computes, before it is formatted as text. */
  datatype Summary = Summary(
    bases: map<string, seq<string>>,
    adjacency: Adjacency,
    internal: map<string, seq<string>>,
    rows: seq<SummaryItem>)

  /** One image's worth of the three folds. */
  lemma FoldStep(names: NameMap, bases: map<string, seq<string>>, adj: Adjacency, internal: map<string, seq<string>>,
                 infos: seq<ImageInfo>, k: int)
    requires 0 <= k < |infos|
    ensures var info := infos[k];
            var b := BaseLayer(info);
            && AddBases(bases, infos[k..]) == AddBases(bases[b := Stored(bases, b) + [UsageLabel(info)]], infos[k + 1..])
            && AddAllEdges(adj, infos[k..]) == AddAllEdges(AddChainEdges(adj, info.layerDigests), infos[k + 1..])
            && AddAllNames(internal, names, infos[k..])
               == AddAllNames(AddChainNames(internal, names, info.layerDigests, UsageLabel(info)), names, infos[k + 1..])
  {
    assert infos[k..][1..] == infos[k + 1..];
  }

  /** The images checked so far grow by one when the next one has layers;
      one without layers makes the whole list unlayered. */
  lemma LayeredStep(infos: seq<ImageInfo>, k: int)
    requires 0 <= k < |infos|
    ensures infos[k].layerDigests == [] ==> !Layered(infos)
    ensures Layered(infos[..k]) && infos[k].layerDigests != [] ==> Layered(infos[..k + 1])
  {
    var p := infos[..k + 1];
    assert forall j :: 0 <= j < |p| ==> p[j] == infos[j];
  }

  /** The loop of summary over the images: fills `baseLayerMap`,
      `allLayers` and `allInternalKnownLayersSet`.  An image without layers
      panics at `layerDigests[0]`. */
  method BuildMaps(names: NameMap, infos: seq<ImageInfo>)
    returns (r: Result<(map<string, seq<string>>, Adjacency, map<string, seq<string>>)>)
    ensures r.Panic? <==> !Layered(infos)
    ensures !r.Err?
    ensures r.Ok? ==> r.value == (AddBases(map[], infos), AddAllEdges(map[], infos), AddAllNames(map[], names, infos))
  {
    var bases: map<string, seq<string>> := map[];
    var adj: Adjacency := map[];
    var internal: map<string, seq<string>> := map[];
    var k := 0;
    while k < |infos|
      invariant 0 <= k <= |infos|
      invariant Layered(infos[..k])
      invariant AddBases(bases, infos[k..]) == AddBases(map[], infos)
      invariant AddAllEdges(adj, infos[k..]) == AddAllEdges(map[], infos)
      invariant AddAllNames(internal, names, infos[k..]) == AddAllNames(map[], names, infos)
    {
      var info := infos[k];
      LayeredStep(infos, k);
      if info.layerDigests == [] {
        return Panic;
      }
      FoldStep(names, bases, adj, internal, infos, k);
      var lbl := UsageLabel(info);
      var base := info.layerDigests[0];
      bases := bases[base := Stored(bases, base) + [lbl]];
      adj, internal := ChainStep(names, adj, internal, info.layerDigests, lbl);
      k := k + 1;
    }
    assert infos[..k] == infos;
    return Ok((bases, adj, internal));
  }

  /** The inner loop of summary over one image's layers: an edge to the next
      layer unless already recorded, and the layer's names, for every layer
      but the top one. */
  method ChainStep(names: NameMap, adj0: Adjacency, internal0: map<string, seq<string>>, ds: seq<string>, lbl: string)
    returns (adj: Adjacency, internal: map<string, seq<string>>)
    ensures adj == AddChainEdges(adj0, ds)
    ensures internal == AddChainNames(internal0, names, ds, lbl)
  {
    adj, internal := adj0, internal0;
    var idx := 0;
    while idx < |ds|
      invariant 0 <= idx <= |ds|
      invariant AddChainEdges(adj, ds[idx..]) == AddChainEdges(adj0, ds)
      invariant AddChainNames(internal, names, ds[idx..], lbl) == AddChainNames(internal0, names, ds, lbl)
    {
      if idx == |ds| - 1 {
        idx := idx + 1;
        continue;
      }
      var digest, nextLayer := ds[idx], ds[idx + 1];
      ChainLinkStep(names, adj, internal, ds, idx, lbl);
      var children := Children(adj, digest);
      var already := HasChild(children, nextLayer);
      if !already {
        adj := adj[digest := children + [nextLayer]];
      }
      internal := AddNames(internal, NamesForHash(names, digest), lbl);
      idx := idx + 1;
    }
  }

  /** One layer of the chain that is not the top one: its edge to the next
      layer, then its names. */
  lemma ChainLinkStep(names: NameMap, adj: Adjacency, internal: map<string, seq<string>>, ds: seq<string>, idx: int, lbl: string)
    requires 0 <= idx < |ds| - 1
    ensures AddChainEdges(adj, ds[idx..]) == AddChainEdges(AddEdge(adj, ds[idx], ds[idx + 1]), ds[idx + 1..])
    ensures AddChainNames(internal, names, ds[idx..], lbl)
            == AddChainNames(AddInternalNames(internal, NamesForHash(names, ds[idx]), lbl), names, ds[idx + 1..], lbl)
  {
    assert ds[idx..][1..] == ds[idx + 1..];
  }

  /** The `nextLayerAlreadyInChildren` loop. */
  method HasChild(children: seq<string>, next: string) returns (already: bool)
    ensures already <==> next in children
  {
    already := false;
    var j := 0;
    while j < |children|
      invariant 0 <= j <= |children|
      invariant already <==> next in children[..j]
    {
      assert children[..j + 1] == children[..j] + [children[j]];
      if next == children[j] {
        already := true;
      }
      j := j + 1;
    }
    assert children[..j] == children;
  }

  /** The loop over one layer's names: each name but "?" gets the image's
      label. */
  method AddNames(internal0: map<string, seq<string>>, ns: seq<string>, lbl: string)
    returns (internal: map<string, seq<string>>)
    ensures internal == AddInternalNames(internal0, ns, lbl)
  {
    internal := internal0;
    var n := 0;
    while n < |ns|
      invariant 0 <= n <= |ns|
      invariant AddInternalNames(internal, ns[n..], lbl) == AddInternalNames(internal0, ns, lbl)
    {
      assert ns[n..][1..] == ns[n + 1..];
      if ns[n] != Unknown {
        internal := internal[ns[n] := Stored(internal, ns[n]) + [lbl]];
      }
      n := n + 1;
    }
  }

  /** `treeInfo.summary` without its text: the three maps, and the rows,
      one per base layer, in descending order of count and then of
      `digest7`. */
  method Summarize(names: NameMap, infos: seq<ImageInfo>) returns (r: Result<Summary>)
    ensures r.Panic? <==> !Layered(infos)
    ensures !r.Err?
    ensures r.Ok? ==> r.value.bases == AddBases(map[], infos)
    ensures r.Ok? ==> r.value.adjacency == AddAllEdges(map[], infos)
    ensures r.Ok? ==> r.value.internal == AddAllNames(map[], names, infos)
    ensures r.Ok? ==> SortedByCountDescending(r.value.rows)
    ensures r.Ok? ==> RowsOf(names, r.value.adjacency, r.value.bases, r.value.rows)
  {
    var maps := BuildMaps(names, infos);
    if !maps.Ok? {
      return Panic;
    }
    var (bases, adj, internal) := maps.value;
    var rows := Rows(names, adj, bases);
    var sorted := SortByCountDescending(rows);
    RowsPermuted(names, adj, bases, rows, sorted);
    return Ok(Summary(bases, adj, internal, sorted));
  }

  /** Sorting keeps one row per base: a permutation of the rows holds the
      same rows. */
  lemma RowsPermuted(names: NameMap, adj: Adjacency, bases: map<string, seq<string>>,
                     rows: seq<SummaryItem>, sorted: seq<SummaryItem>)
    requires multiset(sorted) == multiset(rows)
    requires RowsOf(names, adj, bases, rows)
    ensures RowsOf(names, adj, bases, sorted)
  {
    forall b | b in bases ensures RowFor(names, adj, bases, b) in sorted {
      assert RowFor(names, adj, bases, b) in multiset(rows);
    }
    forall k | 0 <= k < |sorted|
      ensures exists b :: b in bases && sorted[k] == RowFor(names, adj, bases, b)
    {
      assert sorted[k] in multiset(rows);
      var k' :| 0 <= k' < |rows| && rows[k'] == sorted[k];
    }
    assert |sorted| == |multiset(sorted)| == |multiset(rows)| == |rows|;
  }

  // ---------------------------------------------------------------------
  // Where the resolver as written ends

  /** A digest carries a usable name: two or more names, or one other than
      "?". The resolver stops at such a digest whatever its children. */
  predicate Named(names: NameMap, d: string)
  {
    var ns := NamesForHash(names, d);
    |ns| > 1 || (|ns| == 1 && ns[0] != Unknown)
  }

  /** Loading an image appends its tag under its top layer; any tag other
      than "?", the empty one included, makes that layer named. */
  lemma TagNamesTop(known: NameMap, top: string, tag: string)
    requires tag != Unknown
    ensures Named(WithName(known, top, tag), top)
  {
    assert NamesForHash(WithName(known, top, tag), top) == Stored(known, top) + [tag];
  }

  /** Walking up the layers `ds` of one image from `ds[k]`: a layer the
      resolver does not stop at has exactly one child, which is the next
      layer, so the walk reaches the named top layer within `|ds| - k`
      calls. */
  lemma {:induction false} ChainWalkEnds(names: NameMap, adj: Adjacency, ds: seq<string>, k: nat)
    requires k < |ds|
    requires forall i :: 0 <= i < |ds| - 1 ==> ds[i + 1] in Children(adj, ds[i])
    requires Named(names, ds[|ds| - 1])
    ensures ResolveFuel(|ds| - k, names, adj, ds[k]).Some?
    decreases |ds| - k
  {
    if !Stops(names, adj, ds[k]) {
      assert k + 1 < |ds|;
      assert ds[k + 1] in Children(adj, ds[k]);
      assert Next(adj, ds[k]) == ds[k + 1];
      ChainWalkEnds(names, adj, ds, k + 1);
    }
  }

  /** The resolver as written ends on the base layer of every image whose
      top layer is named, within as many calls as the image has layers, and
      there it returns what the guarded resolver returns. */
  lemma NamedTopResolves(names: NameMap, infos: seq<ImageInfo>, j: int)
    requires 0 <= j < |infos| && infos[j].layerDigests != []
    requires Named(names, infos[j].layerDigests[|infos[j].layerDigests| - 1])
    ensures var ds := infos[j].layerDigests;
            var adj := AddAllEdges(map[], infos);
            ResolveFuel(|ds|, names, adj, ds[0]) == Some(NamesOfSelfOrUniqueDescendant(names, adj, ds[0]))
  {
    var ds := infos[j].layerDigests;
    var adj := AddAllEdges(map[], infos);
    forall i | 0 <= i < |ds| - 1 ensures ds[i + 1] in Children(adj, ds[i]) {
      assert Consecutive(infos[j].layerDigests, ds[i], ds[i + 1]);
      AllEdgesMembers(map[], infos, ds[i], ds[i + 1]);
    }
    ChainWalkEnds(names, adj, ds, 0);
    ResolverAgrees(|ds|, names, adj, ds[0]);
  }

  /** When every image's top layer is named, every summary row holds the
      names the resolver as written returns for its base layer. */
  lemma RowsAsWritten(names: NameMap, infos: seq<ImageInfo>, b: string)
    requires Layered(infos)
    requires forall k :: 0 <= k < |infos| ==> Named(names, infos[k].layerDigests[|infos[k].layerDigests| - 1])
    requires b in AddBases(map[], infos)
    ensures exists fuel: nat :: ResolveFuel(fuel, names, AddAllEdges(map[], infos), b)
                                == Some(RowFor(names, AddAllEdges(map[], infos), AddBases(map[], infos), b).names)
  {
    AddBasesKeys(map[], infos, b);
    var k :| 0 <= k < |infos| && BaseLayer(infos[k]) == b;
    NamedTopResolves(names, infos, k);
    var fuel: nat := |infos[k].layerDigests|;
    assert ResolveFuel(fuel, names, AddAllEdges(map[], infos), b)
           == Some(RowFor(names, AddAllEdges(map[], infos), AddBases(map[], infos), b).names);
  }
}
