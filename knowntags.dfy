/** The layer-name knowledge base: a multi-map from layer digest (without its
    `sha256:` prefix) to the names that layer is known by, with the exact
    lookup, the merge of persisted entries and the tag-grouping shortener. */
module KnownTags {
  import opened GoStrings

  /** One observed association of a layer digest with a name such as
      `repo:tag`. */
  datatype LayerNameEntry = LayerNameEntry(hash: string, name: string)

  type NameMap = map<string, seq<string>>

  /** The marker returned for a digest with no known name. */
  const Unknown := "?"

  /** Go's `m[h]` on a map of slices: the stored list, or the empty (nil)
      slice for a missing key. */
  function Stored(m: NameMap, h: string): seq<string>
  {
    if h in m then m[h] else []
  }

  /** `getNamesForHash`: the stored list when the digest is known, exactly
      `["?"]` otherwise. */
  function NamesForHash(m: NameMap, digest: string): (names: seq<string>)
    ensures digest in m ==> names == m[digest]
    ensures digest !in m ==> names == [Unknown]
  {
    if digest in m then m[digest] else [Unknown]
  }

  /** Every stored list has at least one name.  Appending keeps this. */
  ghost predicate NoEmptyLists(m: NameMap)
  {
    forall h :: h in m ==> m[h] != []
  }

  /** Lookups never come back empty while no stored list is empty, so
      callers can always join and display the result. */
  lemma NamesNeverEmpty(m: NameMap, digest: string)
    requires NoEmptyLists(m)
    ensures NamesForHash(m, digest) != []
  {
  }

  /** `m[h] = append(m[h], name)`. */
  function WithName(m: NameMap, h: string, name: string): (r: NameMap)
    ensures r.Keys == m.Keys + {h}
    ensures Stored(r, h) == Stored(m, h) + [name]
    ensures forall k :: k != h ==> Stored(r, k) == Stored(m, k)
    ensures NoEmptyLists(m) ==> NoEmptyLists(r)
  {
    m[h := Stored(m, h) + [name]]
  }

  /** The merge loop of `setupWellKnownLayerNames`: every entry's name is
      appended to its hash's list, in file order. */
  function Merged(m: NameMap, entries: seq<LayerNameEntry>): NameMap
  {
    if entries == [] then m
    else
      var last := entries[|entries| - 1];
      WithName(Merged(m, entries[..|entries| - 1]), last.hash, last.name)
  }

  /** The names of the entries whose hash is `h`, in order. */
  function NamesOf(entries: seq<LayerNameEntry>, h: string): seq<string>
  {
    if entries == [] then []
    else
      var last := entries[|entries| - 1];
      NamesOf(entries[..|entries| - 1], h) + (if last.hash == h then [last.name] else [])
  }

  /** Merging appends: what was stored stays in front, followed by the new
      names for that hash in file order, duplicates included. */
  lemma {:induction false} MergedLookup(m: NameMap, entries: seq<LayerNameEntry>, h: string)
    ensures Stored(Merged(m, entries), h) == Stored(m, h) + NamesOf(entries, h)
  {
    if entries != [] {
      MergedLookup(m, entries[..|entries| - 1], h);
    }
  }

  /** After merging, the known digests are the old ones and those of the
      entries. */
  lemma {:induction false} MergedKeys(m: NameMap, entries: seq<LayerNameEntry>)
    ensures Merged(m, entries).Keys == m.Keys + set i | 0 <= i < |entries| :: entries[i].hash
  {
    if entries != [] {
      MergedKeys(m, entries[..|entries| - 1]);
      HashesSnoc(entries);
    }
  }

  /** The hashes of a non-empty entry list: those before the last entry and
      the last one's. */
  lemma HashesSnoc(entries: seq<LayerNameEntry>)
    requires entries != []
    ensures var init := entries[..|entries| - 1];
            (set i | 0 <= i < |entries| :: entries[i].hash)
            == (set i | 0 <= i < |init| :: init[i].hash) + {entries[|entries| - 1].hash}
  {
    var init := entries[..|entries| - 1];
    var s := set i | 0 <= i < |entries| :: entries[i].hash;
    var s' := set i | 0 <= i < |init| :: init[i].hash;
    forall x | x in s ensures x in s' + {entries[|entries| - 1].hash} {
      var i :| 0 <= i < |entries| && entries[i].hash == x;
      if i < |init| { assert init[i].hash == x; }
    }
    forall x | x in s' ensures x in s {
      var i :| 0 <= i < |init| && init[i].hash == x;
      assert entries[i].hash == x;
    }
    assert entries[|entries| - 1].hash in s;
  }

  /** Merging never leaves an empty list behind. */
  lemma {:induction false} MergedNoEmptyLists(m: NameMap, entries: seq<LayerNameEntry>)
    requires NoEmptyLists(m)
    ensures NoEmptyLists(Merged(m, entries))
  {
    if entries != [] {
      MergedNoEmptyLists(m, entries[..|entries| - 1]);
    }
  }

  // ---------------------------------------------------------------------
  // The tag-grouping shortener (getShortNamesForHash)

  /** A name split into the tag it is grouped under and the item it
      contributes to that group. */
  datatype Tagged = Tagged(tag: string, item: string)

  /** The last path component is split on EVERY ':'.  Exactly two pieces give
      `(tag, image)`; any other number puts the whole component into the ""
      group. */
  function Classify(name: string): Tagged
  {
    var b := Base(name);
    var ss := Split(b, ':');
    if |ss| == 2 then Tagged(ss[1], ss[0]) else Tagged("", b)
  }

  /** `Classify` applied to every name. */
  function ClassifyAll(names: seq<string>): (ps: seq<Tagged>)
    ensures |ps| == |names|
  {
    if names == [] then [] else ClassifyAll(names[..|names| - 1]) + [Classify(names[|names| - 1])]
  }

  /** Each name is classified on its own. */
  lemma {:induction false} ClassifyAllAt(names: seq<string>, i: int)
    requires 0 <= i < |names|
    ensures ClassifyAll(names)[i] == Classify(names[i])
  {
    if i < |names| - 1 {
      var init := names[..|names| - 1];
      ClassifyAllAt(init, i);
    }
  }

  /** The distinct tags, in the order they first appear. */
  function TagOrder(ps: seq<Tagged>): seq<string>
  {
    if ps == [] then []
    else
      var prev := TagOrder(ps[..|ps| - 1]);
      var t := ps[|ps| - 1].tag;
      if t in prev then prev else prev + [t]
  }

  /** No tag is listed twice. */
  lemma {:induction false} TagOrderDistinct(ps: seq<Tagged>)
    ensures forall i, j :: 0 <= i < j < |TagOrder(ps)| ==> TagOrder(ps)[i] != TagOrder(ps)[j]
  {
    if ps != [] {
      TagOrderDistinct(ps[..|ps| - 1]);
    }
  }

  /** The listed tags are exactly the tags that occur. */
  lemma {:induction false} TagOrderMembers(ps: seq<Tagged>, t: string)
    ensures t in TagOrder(ps) <==> exists i :: 0 <= i < |ps| && ps[i].tag == t
  {
    if ps != [] {
      var init := ps[..|ps| - 1];
      TagOrderMembers(init, t);
      if exists i :: 0 <= i < |ps| && ps[i].tag == t {
        var i :| 0 <= i < |ps| && ps[i].tag == t;
        if i < |init| { assert init[i] == ps[i]; }
      }
      if exists i :: 0 <= i < |init| && init[i].tag == t {
        var i :| 0 <= i < |init| && init[i].tag == t;
        assert ps[i] == init[i];
      }
    }
  }

  /** The items tagged `tag`, in input order. */
  function Group(ps: seq<Tagged>, tag: string): seq<string>
  {
    if ps == [] then []
    else
      var last := ps[|ps| - 1];
      Group(ps[..|ps| - 1], tag) + (if last.tag == tag then [last.item] else [])
  }

  /** One output string: `{a,b}tag`. */
  function Render(tag: string, items: seq<string>): string
  {
    "{" + Join(items, ",") + "}" + tag
  }

  /** What `getShortNamesForHash` returns for a list of names: the list itself
      when it has exactly one name; otherwise one rendered group per distinct
      tag, in some order (Go iterates a map), and nothing else. */
  ghost predicate IsShortening(names: seq<string>, short: seq<string>)
  {
    if |names| == 1 then short == names else RendersGroups(ClassifyAll(names), short)
  }

  /** No string occurs twice in `ts`. */
  ghost predicate Distinct(ts: seq<string>)
  {
    forall i, j :: 0 <= i < j < |ts| ==> ts[i] != ts[j]
  }

  /** `short` renders the groups of `ps` tag by tag, in an order `ts` that
      lists every distinct tag exactly once: one string per tag, however
      many tags happen to render alike. */
  ghost predicate RendersGroups(ps: seq<Tagged>, short: seq<string>)
  {
    exists ts :: Distinct(ts) && RendersTagsOf(ps, ts, short)
  }

  ghost predicate RendersTagsOf(ps: seq<Tagged>, ts: seq<string>, short: seq<string>)
  {
    && (forall t :: t in TagOrder(ps) <==> t in ts)
    && |short| == |ts|
    && (forall k :: 0 <= k < |short| ==> short[k] == Render(ts[k], Group(ps, ts[k])))
  }

  /** `s` is the rendered group of one of the tags of `ps`. */
  ghost predicate IsGroupOf(ps: seq<Tagged>, s: string)
  {
    exists t :: t in TagOrder(ps) && s == Render(t, Group(ps, t))
  }

  lemma {:induction false} DistinctCard(s: seq<string>)
    requires forall i, j :: 0 <= i < j < |s| ==> s[i] != s[j]
    ensures |set i | 0 <= i < |s| :: s[i]| == |s|
  {
    if s != [] {
      var init := s[..|s| - 1];
      DistinctCard(init);
      var a := set i | 0 <= i < |s| :: s[i];
      var b := set i | 0 <= i < |init| :: init[i];
      assert a == b + {s[|s| - 1]} by {
        forall x | x in a ensures x in b + {s[|s| - 1]} {
          var i :| 0 <= i < |s| && s[i] == x;
          if i < |init| { assert init[i] == x; }
        }
      }
      assert s[|s| - 1] !in b;
    }
  }

  /** A string occurs twice in a shortening only when two different tags
      render to it: one string per tag, never a copy of another tag's. */
  lemma RepeatsNeedTwoTags(ps: seq<Tagged>, short: seq<string>, i: int, j: int)
    requires RendersGroups(ps, short)
    requires 0 <= i < j < |short| && short[i] == short[j]
    ensures exists t, u :: && t != u && t in TagOrder(ps) && u in TagOrder(ps)
                           && Render(t, Group(ps, t)) == short[i] && Render(u, Group(ps, u)) == short[i]
  {
    var ts :| Distinct(ts) && RendersTagsOf(ps, ts, short);
    assert ts[i] in ts && ts[j] in ts;
    assert Render(ts[i], Group(ps, ts[i])) == short[i] && Render(ts[j], Group(ps, ts[j])) == short[i];
  }

  /** Two sequences without repeats and with the same members have the same
      length. */
  lemma DistinctSameLength(a: seq<string>, b: seq<string>)
    requires Distinct(a) && Distinct(b)
    requires forall t :: t in a <==> t in b
    ensures |a| == |b|
  {
    DistinctCard(a);
    DistinctCard(b);
    var sa := set k | 0 <= k < |a| :: a[k];
    var sb := set k | 0 <= k < |b| :: b[k];
    forall x | x in sa ensures x in sb {
      var k :| 0 <= k < |a| && a[k] == x;
      assert x in b;
      var j :| 0 <= j < |b| && b[j] == x;
    }
    forall x | x in sb ensures x in sa {
      var j :| 0 <= j < |b| && b[j] == x;
      assert x in a;
      var k :| 0 <= k < |a| && a[k] == x;
    }
    assert sa == sb;
  }

  /** `groups` is the tag -> items map of the classified names `ps`. */
  ghost predicate GroupsOf(ps: seq<Tagged>, groups: map<string, seq<string>>)
  {
    && (forall t :: t in groups <==> t in TagOrder(ps))
    && (forall t :: t in groups ==> groups[t] == Group(ps, t))
  }

  /** One step of the first loop of the shortener. */
  lemma GroupsOfSnoc(ps: seq<Tagged>, x: Tagged, groups: map<string, seq<string>>)
    requires GroupsOf(ps, groups)
    ensures GroupsOf(ps + [x], groups[x.tag := (if x.tag in groups then groups[x.tag] else []) + [x.item]])
  {
    var s := ps + [x];
    assert s[..|s| - 1] == ps;
    if x.tag !in groups {
      EmptyGroup(ps, x.tag);
    }
  }

  /** `short` renders the entries of `groups` key by key, in an order `ts`
      that lists every key exactly once, as Go's map range visits them. */
  ghost predicate RendersMap(groups: map<string, seq<string>>, short: seq<string>)
  {
    exists ts :: Distinct(ts) && RendersKeysOf(groups, ts, short)
  }

  ghost predicate RendersKeysOf(groups: map<string, seq<string>>, ts: seq<string>, short: seq<string>)
  {
    && (forall t :: t in groups <==> t in ts)
    && |short| == |ts|
    && (forall k :: 0 <= k < |short| ==> ts[k] in groups && short[k] == Render(ts[k], groups[ts[k]]))
  }

  /** Rendering the complete groups map yields a shortening. */
  lemma RenderedGroups(ps: seq<Tagged>, groups: map<string, seq<string>>, short: seq<string>)
    requires GroupsOf(ps, groups)
    requires RendersMap(groups, short)
    ensures RendersGroups(ps, short)
  {
    var ts :| Distinct(ts) && RendersKeysOf(groups, ts, short);
    assert RendersTagsOf(ps, ts, short);
  }

  /** A shortening has one string per distinct tag: every tag's rendered
      group is in it, and each of its strings is some tag's rendered group. */
  lemma RendersGroupsShape(ps: seq<Tagged>, short: seq<string>)
    requires RendersGroups(ps, short)
    ensures |short| == |TagOrder(ps)|
    ensures forall t :: t in TagOrder(ps) ==> Render(t, Group(ps, t)) in short
    ensures forall k :: 0 <= k < |short| ==> IsGroupOf(ps, short[k])
  {
    var ts :| Distinct(ts) && RendersTagsOf(ps, ts, short);
    var order := TagOrder(ps);
    TagOrderDistinct(ps);
    DistinctSameLength(order, ts);
    forall t | t in order ensures Render(t, Group(ps, t)) in short {
      var k :| 0 <= k < |ts| && ts[k] == t;
      assert short[k] == Render(t, Group(ps, t));
    }
    forall k | 0 <= k < |short| ensures IsGroupOf(ps, short[k]) {
      assert ts[k] in ts;
    }
  }

  /** The second loop of the shortener: renders every group once, walking
      the keys in an arbitrary order, as Go's map range does. */
  method RenderGroupsOf(groups: map<string, seq<string>>) returns (short: seq<string>)
    ensures RendersMap(groups, short)
  {
    var remaining := groups.Keys;
    ghost var emitted: seq<string> := [];
    short := [];
    while remaining != {}
      decreases |remaining|
      invariant remaining <= groups.Keys
      invariant |short| == |emitted|
      invariant Distinct(emitted)
      invariant forall k :: 0 <= k < |emitted| ==> emitted[k] in groups && emitted[k] !in remaining
      invariant forall k :: 0 <= k < |emitted| ==> short[k] == Render(emitted[k], groups[emitted[k]])
      invariant forall t :: t in groups ==> t in remaining || t in emitted
    {
      var t :| t in remaining;
      short := short + [Render(t, groups[t])];
      emitted := emitted + [t];
      remaining := remaining - {t};
    }
    assert RendersKeysOf(groups, emitted, short);
  }

  /** One name more of the first loop of the shortener. */
  lemma GroupStep(ps: seq<Tagged>, i: int, groups: map<string, seq<string>>)
    requires 0 <= i < |ps| && GroupsOf(ps[..i], groups)
    ensures GroupsOf(ps[..i + 1],
                     groups[ps[i].tag := (if ps[i].tag in groups then groups[ps[i].tag] else []) + [ps[i].item]])
  {
    assert ps[..i + 1] == ps[..i] + [ps[i]];
    GroupsOfSnoc(ps[..i], ps[i], groups);
  }

  /** The first loop of the shortener: the tag -> items map of `names`. */
  method GroupByTag(names: seq<string>) returns (groups: map<string, seq<string>>)
    ensures GroupsOf(ClassifyAll(names), groups)
  {
    ghost var ps := ClassifyAll(names);
    groups := map[];
    var i := 0;
    while i < |names|
      invariant 0 <= i <= |names|
      invariant GroupsOf(ps[..i], groups)
    {
      var c := Classify(names[i]);
      ClassifyAllAt(names, i);
      GroupStep(ps, i, groups);
      var current := if c.tag in groups then groups[c.tag] else [];
      groups := groups[c.tag := current + [c.item]];
      i := i + 1;
    }
    assert ps[..i] == ps;
  }

  /** `getShortNamesForHash`: a single name is returned as it is; otherwise
      the names are grouped by tag and one string is rendered per group. */
  method ShortNames(names: seq<string>) returns (short: seq<string>)
    ensures IsShortening(names, short)
  {
    if |names| == 1 {
      return names;
    }
    var groups := GroupByTag(names);
    short := RenderGroupsOf(groups);
    RenderedGroups(ClassifyAll(names), groups, short);
  }

  /** A tag that no name carries has an empty group. */
  lemma {:induction false} EmptyGroup(ps: seq<Tagged>, tag: string)
    requires tag !in TagOrder(ps)
    ensures Group(ps, tag) == []
  {
    if ps != [] {
      EmptyGroup(ps[..|ps| - 1], tag);
    }
  }

  /** Total number of items over the groups of `tags`. */
  function GroupSizes(ps: seq<Tagged>, tags: seq<string>): nat
  {
    if tags == [] then 0 else |Group(ps, tags[0])| + GroupSizes(ps, tags[1..])
  }

  lemma {:induction false} GroupSizesSnoc(ps: seq<Tagged>, x: Tagged, tags: seq<string>)
    requires forall i, j :: 0 <= i < j < |tags| ==> tags[i] != tags[j]
    ensures GroupSizes(ps + [x], tags) == GroupSizes(ps, tags) + (if x.tag in tags then 1 else 0)
  {
    var s := ps + [x];
    assert s[..|s| - 1] == ps;
    if tags != [] {
      GroupSizesSnoc(ps, x, tags[1..]);
      assert x.tag in tags <==> x.tag == tags[0] || x.tag in tags[1..];
    }
  }

  lemma {:induction false} GroupSizesAppend(ps: seq<Tagged>, tags: seq<string>, t: string)
    ensures GroupSizes(ps, tags + [t]) == GroupSizes(ps, tags) + |Group(ps, t)|
  {
    if tags != [] {
      assert (tags + [t])[1..] == tags[1..] + [t];
      GroupSizesAppend(ps, tags[1..], t);
    }
  }

  /** Every name lands in exactly one group: the group sizes add up to the
      number of names. */
  lemma {:induction false} GroupsPartitionNames(ps: seq<Tagged>)
    ensures GroupSizes(ps, TagOrder(ps)) == |ps|
  {
    if ps != [] {
      var init := ps[..|ps| - 1];
      var x := ps[|ps| - 1];
      assert init + [x] == ps;
      GroupsPartitionNames(init);
      var prev := TagOrder(init);
      TagOrderDistinct(init);
      GroupSizesSnoc(init, x, prev);
      if x.tag !in prev {
        GroupSizesAppend(ps, prev, x.tag);
        EmptyGroup(init, x.tag);
        assert |Group(ps, x.tag)| == 1;
      }
    }
  }

  /** A last path component that does not hold exactly one ':' goes whole
      into the untagged group, because it is split on every ':'. */
  lemma UntaggedUnlessOneColon(name: string)
    requires Count(Base(name), ':') != 1
    ensures Classify(name) == Tagged("", Base(name))
  {
  }

  /** Two images under one directory with the same tag form the single
      group `{x,y}tag`, the shortening the viewer shows for a layer shared
      by two tagged images. */
  lemma {:induction false} SharedTag(dir: string, x: string, y: string, tag: string)
    requires x != [] && '/' !in x && ':' !in x
    requires y != [] && '/' !in y && ':' !in y
    requires '/' !in tag && ':' !in tag
    ensures TagOrder(ClassifyAll([dir + "/" + x + ":" + tag, dir + "/" + y + ":" + tag])) == [tag]
    ensures Group(ClassifyAll([dir + "/" + x + ":" + tag, dir + "/" + y + ":" + tag]), tag) == [x, y]
    ensures Render(tag, [x, y]) == "{" + x + "," + y + "}" + tag
  {
    var n1, n2 := dir + "/" + x + ":" + tag, dir + "/" + y + ":" + tag;
    var ps := [Tagged(tag, x), Tagged(tag, y)];
    assert ClassifyAll([n1, n2]) == ps by {
      OneTagName(dir, x, tag);
      OneTagName(dir, y, tag);
      ClassifyTwo(n1, n2);
    }
    TwoWithOneTag(ps[0], ps[1]);
    RenderPair(tag, x, y);
  }

  lemma RenderPair(tag: string, x: string, y: string)
    ensures Render(tag, [x, y]) == "{" + x + "," + y + "}" + tag
  {
    var j := Join([x, y], ",");
    assert j == x + "," + y by {
      assert [x, y][1..] == [y];
      assert Join([y], ",") == y;
    }
    calc {
      Render(tag, [x, y]);
      "{" + j + "}" + tag;
      "{" + (x + "," + y) + "}" + tag;
      { assert "{" + (x + "," + y) == "{" + x + "," + y; }
      "{" + x + "," + y + "}" + tag;
    }
  }

  lemma ClassifyTwo(n1: string, n2: string)
    ensures ClassifyAll([n1, n2]) == [Classify(n1), Classify(n2)]
  {
    assert [n1, n2][..1] == [n1];
    assert [n1][..0] == [];
  }

  lemma TwoWithOneTag(a: Tagged, b: Tagged)
    requires a.tag == b.tag
    ensures TagOrder([a, b]) == [a.tag]
    ensures Group([a, b], a.tag) == [a.item, b.item]
  {
    assert [a, b][..1] == [a];
    assert [a][..0] == [];
    assert TagOrder([a]) == [a.tag];
    assert Group([a], a.tag) == [a.item];
  }

  lemma OneTagName(dir: string, image: string, tag: string)
    requires image != [] && '/' !in image && ':' !in image
    requires '/' !in tag && ':' !in tag
    ensures Classify(dir + "/" + image + ":" + tag) == Tagged(tag, image)
  {
    var n := image + ":" + tag;
    assert dir + "/" + image + ":" + tag == dir + "/" + n;
    BaseOfChild(dir, n);
    assert n == image + [':'] + tag;
    SplitPair(image, tag, ':');
  }

  // ---------------------------------------------------------------------
  // The process-wide knowledge base (the LayerNameMap global)

  /** What reading the persisted known-layers file gives. */
  datatype KnownLayersFile = Unreadable | Malformed | Parsed(entries: seq<LayerNameEntry>)

  class KnowledgeBase {
    var names: NameMap

    constructor ()
      ensures names == map[]
    {
      names := map[];
    }

    /** Adds one name to a digest's list (`LayerNameMap[h] = append(...)`). */
    method Append(hash: string, name: string)
      modifies this
      ensures names == WithName(old(names), hash, name)
    {
      names := names[hash := Stored(names, hash) + [name]];
    }

    /** The merge loop: appends every entry's name in file order. */
    method MergeEntries(entries: seq<LayerNameEntry>)
      modifies this
      ensures names == Merged(old(names), entries)
    {
      var i := 0;
      while i < |entries|
        invariant 0 <= i <= |entries|
        invariant names == Merged(old(names), entries[..i])
      {
        assert entries[..i + 1][..i] == entries[..i];
        Append(entries[i].hash, entries[i].name);
        i := i + 1;
      }
      assert entries[..i] == entries;
    }

    /** `setupWellKnownLayerNames`: an unreadable file leaves the map alone
        and is not an error; a malformed one is fatal before anything is
        merged; otherwise every entry is merged in. */
    method SetupWellKnownLayerNames(file: KnownLayersFile) returns (fatal: bool)
      modifies this
      ensures fatal <==> file.Malformed?
      ensures !file.Parsed? ==> names == old(names)
      ensures file.Parsed? ==> names == Merged(old(names), file.entries)
    {
      match file {
        case Unreadable =>
          return false;
        case Malformed =>
          return true;
        case Parsed(entries) =>
          MergeEntries(entries);
          return false;
      }
    }

    /** `getShortNamesForHash`: the shortener applied to the exact lookup. */
    method ShortNamesForHash(digest: string) returns (short: seq<string>)
      ensures IsShortening(NamesForHash(names, digest), short)
    {
      short := ShortNames(NamesForHash(names, digest));
    }
  }
}
