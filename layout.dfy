/** The tree of layouts (`main.go`): every top-level manifest of a layout is
    loaded into the viewer's records, each image gets its referrers as child
    nodes, each nested index its members, and a directory walk collects the
    layouts under a root into a `treeInfo`. */
module Layout {
  import opened Outcomes
  import opened Oci
  import opened GoStrings
  import opened KnownTags
  import opened OciUtils
  import opened OciDist

  /** The `org.opencontainers.image.ref.name` annotation, or "" without
      one. */
  function TagOf(d: Descriptor): string
  {
    if AnnotationRefName in d.annotations then d.annotations[AnnotationRefName] else ""
  }

  /** The reference of a top-level image: no referrer target yet. */
  function RefFor(path: string, d: Descriptor): (r: ImageRef)
    ensures r.layoutPath == path && r.hash == Hex(d.digest) && r.tag == TagOf(d)
    ensures r.targetTag == "" && r.targetHash == ""
  {
    ImageRef(path, TagOf(d), Hex(d.digest), "", "")
  }

  function SubRefFor(path: string, d: Descriptor): SubIndexRef
  {
    SubIndexRef(Hex(d.digest), TagOf(d), path)
  }

  // ---------------------------------------------------------------------
  // The first pass of addContentsOfLayout over the index

  /** The image-manifest entries of an index, in order. */
  function ImageDescriptors(ms: seq<Descriptor>): seq<Descriptor>
  {
    if ms == [] then []
    else
      var last := ms[|ms| - 1];
      ImageDescriptors(ms[..|ms| - 1]) + (if last.mediaType == MediaTypeImageManifest then [last] else [])
  }

  /** No image-manifest entry makes `loadImageManifest` panic. */
  ghost predicate LoadsWithoutPanic(store: Store, path: string, ms: seq<Descriptor>)
  {
    forall i :: 0 <= i < |ms| && ms[i].mediaType == MediaTypeImageManifest ==>
      !ImageInfoFor(store, RefFor(path, ms[i]), ms[i]).Panic?
  }

  /** What one index entry adds to the images: its info when it is an
      image manifest. */
  function EntryImages(store: Store, path: string, d: Descriptor): seq<ImageInfo>
  {
    var r := ImageInfoFor(store, RefFor(path, d), d);
    if d.mediaType == MediaTypeImageManifest && r.Ok? then [r.value] else []
  }

  /** What one index entry adds to the nested indexes. */
  function EntrySubIndexes(store: Store, path: string, d: Descriptor): seq<SubIndexInfo>
  {
    if d.mediaType == MediaTypeImageIndex then [SubIndexInfoFor(store, SubRefFor(path, d), d)] else []
  }

  /** The infos of the image-manifest entries, in index order. */
  function LoadedImages(store: Store, path: string, ms: seq<Descriptor>): seq<ImageInfo>
  {
    if ms == [] then []
    else LoadedImages(store, path, ms[..|ms| - 1]) + EntryImages(store, path, ms[|ms| - 1])
  }

  /** The infos of the nested-index entries, in index order. */
  function LoadedSubIndexes(store: Store, path: string, ms: seq<Descriptor>): seq<SubIndexInfo>
  {
    if ms == [] then []
    else LoadedSubIndexes(store, path, ms[..|ms| - 1]) + EntrySubIndexes(store, path, ms[|ms| - 1])
  }

  /** `ImageInfoMap[hash] = info` for every info in order: a later info of
      the same hash replaces an earlier one. */
  function StoreImages(m: map<string, ImageInfo>, infos: seq<ImageInfo>): map<string, ImageInfo>
  {
    if infos == [] then m
    else
      var last := infos[|infos| - 1];
      StoreImages(m, infos[..|infos| - 1])[last.ref.hash := last]
  }

  function StoreSubIndexes(m: map<string, SubIndexInfo>, subs: seq<SubIndexInfo>): map<string, SubIndexInfo>
  {
    if subs == [] then m
    else
      var last := subs[|subs| - 1];
      StoreSubIndexes(m, subs[..|subs| - 1])[last.ref.hash := last]
  }

  /** The names `loadImageManifest` records, one per loaded image with
      layers, in load order. */
  function TopNames(infos: seq<ImageInfo>): seq<LayerNameEntry>
  {
    if infos == [] then []
    else
      var last := infos[|infos| - 1];
      TopNames(infos[..|infos| - 1]) + (if TopLayerName(last).Some? then [TopLayerName(last).value] else [])
  }

  /** One more index entry's worth of the first pass. */
  lemma LoadStep(store: Store, path: string, ms: seq<Descriptor>, i: int)
    requires 0 <= i < |ms|
    ensures var d := ms[i];
            var r := ImageInfoFor(store, RefFor(path, d), d);
            && LoadedImages(store, path, ms[..i + 1]) == LoadedImages(store, path, ms[..i]) + EntryImages(store, path, d)
            && LoadedSubIndexes(store, path, ms[..i + 1]) == LoadedSubIndexes(store, path, ms[..i]) + EntrySubIndexes(store, path, d)
            && (LoadsWithoutPanic(store, path, ms[..i + 1]) <==>
                LoadsWithoutPanic(store, path, ms[..i]) && (d.mediaType == MediaTypeImageManifest ==> !r.Panic?))
  {
    var p := ms[..i + 1];
    assert p[..i] == ms[..i] && p[i] == ms[i];
    if LoadsWithoutPanic(store, path, ms[..i]) && (ms[i].mediaType == MediaTypeImageManifest ==> !ImageInfoFor(store, RefFor(path, ms[i]), ms[i]).Panic?) {
      forall j | 0 <= j < i + 1 && p[j].mediaType == MediaTypeImageManifest
        ensures !ImageInfoFor(store, RefFor(path, p[j]), p[j]).Panic?
      {
        if j < i { assert p[j] == ms[..i][j]; }
      }
    }
    if LoadsWithoutPanic(store, path, p) {
      forall j | 0 <= j < i && ms[..i][j].mediaType == MediaTypeImageManifest
        ensures !ImageInfoFor(store, RefFor(path, ms[..i][j]), ms[..i][j]).Panic?
      {
        assert p[j] == ms[..i][j];
      }
    }
  }

  lemma {:induction false} StoreImagesAppend(m: map<string, ImageInfo>, a: seq<ImageInfo>, b: seq<ImageInfo>)
    ensures StoreImages(m, a + b) == StoreImages(StoreImages(m, a), b)
  {
    if b != [] {
      assert (a + b)[..|a + b| - 1] == a + b[..|b| - 1];
      StoreImagesAppend(m, a, b[..|b| - 1]);
    } else {
      assert a + b == a;
    }
  }

  lemma {:induction false} StoreSubIndexesAppend(m: map<string, SubIndexInfo>, a: seq<SubIndexInfo>, b: seq<SubIndexInfo>)
    ensures StoreSubIndexes(m, a + b) == StoreSubIndexes(StoreSubIndexes(m, a), b)
  {
    if b != [] {
      assert (a + b)[..|a + b| - 1] == a + b[..|b| - 1];
      StoreSubIndexesAppend(m, a, b[..|b| - 1]);
    } else {
      assert a + b == a;
    }
  }

  lemma {:induction false} TopNamesAppend(a: seq<ImageInfo>, b: seq<ImageInfo>)
    ensures TopNames(a + b) == TopNames(a) + TopNames(b)
  {
    if b != [] {
      assert (a + b)[..|a + b| - 1] == a + b[..|b| - 1];
      TopNamesAppend(a, b[..|b| - 1]);
    } else {
      assert a + b == a;
    }
  }

  lemma {:induction false} MergedAppend(m: NameMap, a: seq<LayerNameEntry>, b: seq<LayerNameEntry>)
    ensures Merged(m, a + b) == Merged(Merged(m, a), b)
  {
    if b != [] {
      assert (a + b)[..|a + b| - 1] == a + b[..|b| - 1];
      MergedAppend(m, a, b[..|b| - 1]);
    } else {
      assert a + b == a;
    }
  }

  /** Without a panic, the images are loaded one per image-manifest entry,
      in index order, each under the entry's own reference. */
  lemma {:induction false} LoadedImagesInOrder(store: Store, path: string, ms: seq<Descriptor>)
    requires LoadsWithoutPanic(store, path, ms)
    ensures |LoadedImages(store, path, ms)| == |ImageDescriptors(ms)|
    ensures forall k :: 0 <= k < |ImageDescriptors(ms)| ==>
      var d := ImageDescriptors(ms)[k];
      ImageInfoFor(store, RefFor(path, d), d) == Ok(LoadedImages(store, path, ms)[k])
  {
    if ms != [] {
      var init := ms[..|ms| - 1];
      assert LoadsWithoutPanic(store, path, init) by {
        forall i | 0 <= i < |init| && init[i].mediaType == MediaTypeImageManifest
          ensures !ImageInfoFor(store, RefFor(path, init[i]), init[i]).Panic?
        {
          assert init[i] == ms[i];
        }
      }
      LoadedImagesInOrder(store, path, init);
      var last := ms[|ms| - 1];
      var a, b := LoadedImages(store, path, init), EntryImages(store, path, last);
      var da := ImageDescriptors(init);
      var db := if last.mediaType == MediaTypeImageManifest then [last] else [];
      assert LoadedImages(store, path, ms) == a + b;
      assert ImageDescriptors(ms) == da + db;
      if last.mediaType == MediaTypeImageManifest {
        assert !ImageInfoFor(store, RefFor(path, last), last).Panic?;
        assert b == [ImageInfoFor(store, RefFor(path, last), last).value];
      }
      forall k | 0 <= k < |da + db|
        ensures ImageInfoFor(store, RefFor(path, (da + db)[k]), (da + db)[k]) == Ok((a + b)[k])
      {
        if k < |da| {
          assert (a + b)[k] == a[k] && (da + db)[k] == da[k];
        } else {
          assert (a + b)[k] == b[0] && (da + db)[k] == last;
        }
      }
    }
  }

  lemma {:induction false} LoadedRefsUntargeted(store: Store, path: string, ms: seq<Descriptor>)
    ensures forall info :: info in LoadedImages(store, path, ms) ==>
      info.ref == RefFor(path, info.manifestDescriptor) && info.ref.targetTag == "" && info.ref.targetHash == ""
  {
    if ms != [] {
      LoadedRefsUntargeted(store, path, ms[..|ms| - 1]);
    }
  }

  /** The image map maps each hash to an info of that hash: the last one
      stored, or the one it held before. */
  lemma {:induction false} StoreImagesLookup(m: map<string, ImageInfo>, infos: seq<ImageInfo>, h: string)
    ensures h in StoreImages(m, infos) <==> h in m || exists k :: 0 <= k < |infos| && infos[k].ref.hash == h
    ensures h in StoreImages(m, infos) ==>
      StoreImages(m, infos)[h] in infos || (h in m && StoreImages(m, infos)[h] == m[h])
  {
    if infos != [] {
      var init := infos[..|infos| - 1];
      StoreImagesLookup(m, init, h);
      if exists k :: 0 <= k < |init| && init[k].ref.hash == h {
        var k :| 0 <= k < |init| && init[k].ref.hash == h;
        assert infos[k] == init[k];
      }
      if exists k :: 0 <= k < |infos| && infos[k].ref.hash == h {
        var k :| 0 <= k < |infos| && infos[k].ref.hash == h;
        if k < |init| { assert init[k] == infos[k]; }
      }
      if h in StoreImages(m, init) && StoreImages(m, init)[h] in init {
        var k :| 0 <= k < |init| && init[k] == StoreImages(m, init)[h];
        assert infos[k] == init[k];
      }
    }
  }

  // ---------------------------------------------------------------------
  // The nodes addContentsOfLayout adds

  /** A child node: the label shown and the reference it carries. */
  datatype Leaf = Leaf(lbl: Label, ref: ImageRef)

  /** A node under a layout: an image with its referrers, or a nested index
      with its members. */
  datatype ContentNode =
    | ImageNode(lbl: Label, ref: ImageRef, referrers: seq<Leaf>)
    | SubIndexNode(lbl: Label, subRef: SubIndexRef, members: seq<Leaf>)

  /** `ImageInfoMap[hash]`: the stored info's label and reference, or Go's
      zero value's (no label, empty reference). */
  function LookupLeaf(images: map<string, ImageInfo>, d: Descriptor): (l: Leaf)
    ensures Hex(d.digest) in images ==> l == Leaf(images[Hex(d.digest)].displayLabel, images[Hex(d.digest)].ref)
    ensures Hex(d.digest) !in images ==> l == Leaf(NoLabel, ZeroRef)
  {
    var h := Hex(d.digest);
    if h in images then Leaf(images[h].displayLabel, images[h].ref) else Leaf(NoLabel, ZeroRef)
  }

  /** A referrer's node: the looked-up info, on a copy of whose reference
      the target's tag and hash are set. */
  function ReferrerLeaf(images: map<string, ImageInfo>, d: Descriptor, target: ImageRef): (l: Leaf)
    ensures l.ref.targetTag == target.tag && l.ref.targetHash == target.hash
    ensures l.lbl == LookupLeaf(images, d).lbl
    ensures l.ref.(targetTag := "", targetHash := "") == LookupLeaf(images, d).ref.(targetTag := "", targetHash := "")
  {
    var l := LookupLeaf(images, d);
    Leaf(l.lbl, l.ref.(targetTag := target.tag, targetHash := target.hash))
  }

  /** The children of an image's node, one per referrer, in order. */
  function ReferrerLeaves(images: map<string, ImageInfo>, ds: seq<Descriptor>, target: ImageRef): (ls: seq<Leaf>)
    ensures |ls| == |ds|
    ensures forall i :: 0 <= i < |ds| ==> ls[i] == ReferrerLeaf(images, ds[i], target)
  {
    if ds == [] then [] else ReferrerLeaves(images, ds[..|ds| - 1], target) + [ReferrerLeaf(images, ds[|ds| - 1], target)]
  }

  /** The children of a nested index's node, one per member, in order. */
  function MemberLeaves(images: map<string, ImageInfo>, ds: seq<Descriptor>): (ls: seq<Leaf>)
    ensures |ls| == |ds|
    ensures forall i :: 0 <= i < |ds| ==> ls[i] == LookupLeaf(images, ds[i])
  {
    if ds == [] then [] else MemberLeaves(images, ds[..|ds| - 1]) + [LookupLeaf(images, ds[|ds| - 1])]
  }

  /** The referrer lookup failed for an image: the layout's index is
      unavailable or an examined blob does not decode. */
  ghost predicate ReferrersFail(layout: LayoutData, path: string, image: Descriptor)
  {
    layout.index.None? || !AllReadable(layout.files, path, layout.index.value, image)
  }

  /** The referrers of every image can be listed. */
  ghost predicate ReferrersListable(layout: LayoutData, path: string, infos: seq<ImageInfo>)
  {
    forall k :: 0 <= k < |infos| ==> !ReferrersFail(layout, path, infos[k].manifestDescriptor)
  }

  lemma OneFailureSuffices(layout: LayoutData, path: string, infos: seq<ImageInfo>, k: int)
    requires 0 <= k < |infos| && ReferrersFail(layout, path, infos[k].manifestDescriptor)
    ensures !ReferrersListable(layout, path, infos)
  {
  }

  lemma ListableStep(layout: LayoutData, path: string, infos: seq<ImageInfo>, k: int)
    requires 0 <= k < |infos|
    requires ReferrersListable(layout, path, infos[..k]) && !ReferrersFail(layout, path, infos[k].manifestDescriptor)
    ensures ReferrersListable(layout, path, infos[..k + 1])
  {
    var done := infos[..k + 1];
    forall j | 0 <= j < k + 1 ensures !ReferrersFail(layout, path, done[j].manifestDescriptor) {
      if j < k { assert done[j] == infos[..k][j]; }
    }
  }

  /** The node of one loaded image. */
  function ImageNodeFor(layout: LayoutData, path: string, images: map<string, ImageInfo>, info: ImageInfo): ContentNode
    requires layout.index.Some?
  {
    var refs := Referrers(layout.files, path, layout.index.value, info.manifestDescriptor);
    ImageNode(info.displayLabel, info.ref, ReferrerLeaves(images, refs, info.ref))
  }

  /** The node of one nested index. */
  function SubIndexNodeFor(images: map<string, ImageInfo>, sub: SubIndexInfo): ContentNode
  {
    SubIndexNode(sub.displayLabel, sub.ref, MemberLeaves(images, sub.manifestDescriptors))
  }

  /** The nodes of the loaded images, in order. */
  function ImageNodesFor(layout: LayoutData, path: string, images: map<string, ImageInfo>, infos: seq<ImageInfo>): seq<ContentNode>
    requires layout.index.Some?
  {
    if infos == [] then []
    else ImageNodesFor(layout, path, images, infos[..|infos| - 1]) + [ImageNodeFor(layout, path, images, infos[|infos| - 1])]
  }

  lemma NodesStep(layout: LayoutData, path: string, images: map<string, ImageInfo>, infos: seq<ImageInfo>, k: int)
    requires layout.index.Some? && 0 <= k < |infos|
    ensures ImageNodesFor(layout, path, images, infos[..k + 1])
            == ImageNodesFor(layout, path, images, infos[..k]) + [ImageNodeFor(layout, path, images, infos[k])]
  {
    assert infos[..k + 1][..k] == infos[..k];
  }

  /** The nodes of the nested indexes, in order. */
  function SubIndexNodesFor(images: map<string, ImageInfo>, subs: seq<SubIndexInfo>): seq<ContentNode>
  {
    if subs == [] then []
    else SubIndexNodesFor(images, subs[..|subs| - 1]) + [SubIndexNodeFor(images, subs[|subs| - 1])]
  }

  /** What addContentsOfLayout returns, with the nodes it adds. */
  datatype Contents = Contents(imageInfos: seq<ImageInfo>, subIndexInfos: seq<SubIndexInfo>, nodes: seq<ContentNode>)

  /** The directory tree the walk sees: a directory is either an OCI layout
      (not descended into) or a directory whose entries are listed; listing
      it can fail. */
  datatype Dir = Dir(isLayout: bool, layout: LayoutData, listable: bool, entries: seq<DirEntry>)
  datatype DirEntry = FileEntry(name: string) | SubDir(name: string, dir: Dir)

  /** The number of layouts the walk finds under a directory: one for a
      layout, otherwise the sum over its subdirectories. */
  function LayoutCount(d: Dir): nat
    decreases d, |d.entries| + 1
  {
    if d.isLayout then 1 else EntriesCount(d, |d.entries|)
  }

  function EntriesCount(d: Dir, n: nat): nat
    requires n <= |d.entries|
    decreases d, n
  {
    if n == 0 then 0
    else
      var e := d.entries[n - 1];
      EntriesCount(d, n - 1) + (if e.SubDir? then LayoutCount(e.dir) else 0)
  }

  /** The images a layout contributes: none when it cannot be opened or its
      index cannot be read. */
  function LayoutImages(layout: LayoutData, path: string): seq<ImageInfo>
  {
    if !layout.opens || layout.index.None? then [] else LoadedImages(layout.store, path, layout.index.value)
  }

  function LayoutSubIndexes(layout: LayoutData, path: string): seq<SubIndexInfo>
  {
    if !layout.opens || layout.index.None? then [] else LoadedSubIndexes(layout.store, path, layout.index.value)
  }

  /** `addContentsOfLayout` panics on an opened layout with an index when
      loading one of its images panics or the referrers of one of its
      images cannot be listed. */
  ghost predicate LayoutPanics(layout: LayoutData, path: string)
  {
    && layout.opens && layout.index.Some?
    && (!LoadsWithoutPanic(layout.store, path, layout.index.value)
        || !ReferrersListable(layout, path, LayoutImages(layout, path)))
  }

  /** The images the walk collects under `root`, layout by layout in
      directory order. */
  function ImagesUnder(d: Dir, root: string): seq<ImageInfo>
    decreases d, |d.entries| + 1
  {
    if d.isLayout then LayoutImages(d.layout, root) else EntriesImages(d, root, |d.entries|)
  }

  function EntriesImages(d: Dir, root: string, n: nat): seq<ImageInfo>
    requires n <= |d.entries|
    decreases d, n
  {
    if n == 0 then []
    else
      var e := d.entries[n - 1];
      EntriesImages(d, root, n - 1) + (if e.SubDir? then ImagesUnder(e.dir, JoinPath(root, e.name)) else [])
  }

  /** The nested indexes the walk records under `root`, layout by layout in
      directory order. */
  function SubIndexesUnder(d: Dir, root: string): seq<SubIndexInfo>
    decreases d, |d.entries| + 1
  {
    if d.isLayout then LayoutSubIndexes(d.layout, root) else EntriesSubIndexes(d, root, |d.entries|)
  }

  function EntriesSubIndexes(d: Dir, root: string, n: nat): seq<SubIndexInfo>
    requires n <= |d.entries|
    decreases d, n
  {
    if n == 0 then []
    else
      var e := d.entries[n - 1];
      EntriesSubIndexes(d, root, n - 1) + (if e.SubDir? then SubIndexesUnder(e.dir, JoinPath(root, e.name)) else [])
  }

  /** The walk panics on a layout that panics, on a directory that cannot be
      listed, or when the walk of one of its subdirectories panics. */
  ghost predicate WalkPanics(d: Dir, root: string)
    decreases d, |d.entries| + 1
  {
    if d.isLayout then LayoutPanics(d.layout, root) else !d.listable || EntriesPanic(d, root, |d.entries|)
  }

  ghost predicate EntriesPanic(d: Dir, root: string, n: nat)
    requires n <= |d.entries|
    decreases d, n
  {
    && n > 0
    && (|| EntriesPanic(d, root, n - 1)
        || (d.entries[n - 1].SubDir? && WalkPanics(d.entries[n - 1].dir, JoinPath(root, d.entries[n - 1].name))))
  }

  /** A subdirectory that panics makes the rest of the walk panic too. */
  lemma {:induction false} EntriesPanicGrows(d: Dir, root: string, i: nat, n: nat)
    requires i <= n <= |d.entries| && EntriesPanic(d, root, i)
    ensures EntriesPanic(d, root, n)
    decreases n - i
  {
    if i < n {
      EntriesPanicGrows(d, root, i + 1, n);
    }
  }

  /** One more directory entry's worth of the walk. */
  lemma EntriesStep(d: Dir, root: string, i: nat)
    requires i < |d.entries|
    ensures var e := d.entries[i];
            && EntriesCount(d, i + 1) == EntriesCount(d, i) + (if e.SubDir? then LayoutCount(e.dir) else 0)
            && EntriesImages(d, root, i + 1)
               == EntriesImages(d, root, i) + (if e.SubDir? then ImagesUnder(e.dir, JoinPath(root, e.name)) else [])
            && EntriesSubIndexes(d, root, i + 1)
               == EntriesSubIndexes(d, root, i) + (if e.SubDir? then SubIndexesUnder(e.dir, JoinPath(root, e.name)) else [])
  {
  }

  /** A layout counts once whatever it holds, and its nested directories are
      never searched: a layout inside a layout is not counted. */
  lemma LayoutNotDescended(d: Dir, root: string)
    requires d.isLayout
    ensures LayoutCount(d) == 1
    ensures ImagesUnder(d, root) == LayoutImages(d.layout, root)
    ensures SubIndexesUnder(d, root) == LayoutSubIndexes(d.layout, root)
    ensures WalkPanics(d, root) == LayoutPanics(d.layout, root)
  {
  }

  /** The viewer's records after loading `xs` and `xsubs` from the records
      `images0`, `subs0` and `names0`: each info stored under its hash, the
      later one winning, and each image's top-layer name added. */
  ghost predicate Registered(images0: map<string, ImageInfo>, subs0: map<string, SubIndexInfo>, names0: NameMap,
                           images: map<string, ImageInfo>, subs: map<string, SubIndexInfo>, names: NameMap,
                           xs: seq<ImageInfo>, xsubs: seq<SubIndexInfo>)
  {
    && images == StoreImages(images0, xs)
    && subs == StoreSubIndexes(subs0, xsubs)
    && names == Merged(names0, TopNames(xs))
  }

  /** Recording `xs` and then `ys` is recording `xs + ys`. */
  lemma ComposeRecords(images0: map<string, ImageInfo>, subs0: map<string, SubIndexInfo>, names0: NameMap,
                       images1: map<string, ImageInfo>, subs1: map<string, SubIndexInfo>, names1: NameMap,
                       images2: map<string, ImageInfo>, subs2: map<string, SubIndexInfo>, names2: NameMap,
                       xs: seq<ImageInfo>, xsubs: seq<SubIndexInfo>, ys: seq<ImageInfo>, ysubs: seq<SubIndexInfo>)
    requires Registered(images0, subs0, names0, images1, subs1, names1, xs, xsubs)
    requires Registered(images1, subs1, names1, images2, subs2, names2, ys, ysubs)
    ensures Registered(images0, subs0, names0, images2, subs2, names2, xs + ys, xsubs + ysubs)
  {
    StoreImagesAppend(images0, xs, ys);
    StoreSubIndexesAppend(subs0, xsubs, ysubs);
    TopNamesAppend(xs, ys);
    MergedAppend(names0, TopNames(xs), TopNames(ys));
  }

  /** A listed directory's walk is that of all its entries. */
  lemma WalkDone(d: Dir, root: string)
    requires !d.isLayout && d.listable
    ensures LayoutCount(d) == EntriesCount(d, |d.entries|)
    ensures ImagesUnder(d, root) == EntriesImages(d, root, |d.entries|)
    ensures SubIndexesUnder(d, root) == EntriesSubIndexes(d, root, |d.entries|)
    ensures WalkPanics(d, root) == EntriesPanic(d, root, |d.entries|)
  {
  }

  /** A directory tree with no layout in it contributes no image. */
  lemma {:induction false} NoLayoutNoImages(d: Dir, root: string)
    requires LayoutCount(d) == 0
    ensures ImagesUnder(d, root) == []
    decreases d, |d.entries| + 1
  {
    EntriesNoImages(d, root, |d.entries|);
  }

  lemma {:induction false} EntriesNoImages(d: Dir, root: string, n: nat)
    requires !d.isLayout && n <= |d.entries| && EntriesCount(d, n) == 0
    ensures EntriesImages(d, root, n) == []
    decreases d, n
  {
    if n > 0 {
      var e := d.entries[n - 1];
      EntriesNoImages(d, root, n - 1);
      if e.SubDir? {
        NoLayoutNoImages(e.dir, JoinPath(root, e.name));
      }
    }
  }

  /** A node of the layout tree: a layout with the nodes of its contents,
      or a directory with the nodes of its subdirectories. */
  datatype TreeNode =
    | LayoutNode(name: string, images: nat, contents: seq<ContentNode>)
    | DirNode(name: string, layouts: nat, children: seq<TreeNode>)

  /** `treeInfo`: what the walk found under `path`. */
  class TreeInfo {
    var path: string
    var numLayouts: int
    var imageInfos: seq<ImageInfo>
    var subIndexInfos: seq<SubIndexInfo>

    constructor (path: string, numLayouts: int, imageInfos: seq<ImageInfo>, subIndexInfos: seq<SubIndexInfo>)
      ensures this.path == path && this.numLayouts == numLayouts
      ensures this.imageInfos == imageInfos && this.subIndexInfos == subIndexInfos
    {
      this.path := path;
      this.numLayouts := numLayouts;
      this.imageInfos := imageInfos;
      this.subIndexInfos := subIndexInfos;
    }

    /** `update`: adds the other tree's layouts and images; the path and the
        nested indexes stay this tree's own. */
    method Update(other: TreeInfo)
      modifies this
      ensures numLayouts == old(numLayouts) + old(other.numLayouts)
      ensures imageInfos == old(imageInfos) + old(other.imageInfos)
      ensures path == old(path) && subIndexInfos == old(subIndexInfos)
    {
      numLayouts := numLayouts + other.numLayouts;
      imageInfos := imageInfos + other.imageInfos;
    }
  }

  /** The viewer's process-wide records: `ImageInfoMap`, `SubIndexInfoMap`
      and the layer-name knowledge base. */
  class Viewer {
    var images: map<string, ImageInfo>
    var subIndexes: map<string, SubIndexInfo>
    const kb: KnowledgeBase

    constructor (kb: KnowledgeBase)
      ensures images == map[] && subIndexes == map[] && this.kb == kb
    {
      images := map[];
      subIndexes := map[];
      this.kb := kb;
    }

    /** The first pass of addContentsOfLayout: loads every image manifest
        and nested index of the index, records each by hash and appends it
        to the result; other media types are skipped. */
    method LoadTopLevel(store: Store, path: string, ms: seq<Descriptor>)
      returns (r: Result<(seq<ImageInfo>, seq<SubIndexInfo>)>)
      modifies this, kb
      ensures r.Panic? <==> !LoadsWithoutPanic(store, path, ms)
      ensures !r.Err?
      ensures r.Ok? ==> r.value == (LoadedImages(store, path, ms), LoadedSubIndexes(store, path, ms))
      ensures r.Ok? ==> images == StoreImages(old(images), r.value.0)
      ensures r.Ok? ==> subIndexes == StoreSubIndexes(old(subIndexes), r.value.1)
      ensures r.Ok? ==> kb.names == Merged(old(kb.names), TopNames(r.value.0))
    {
      var infos: seq<ImageInfo> := [];
      var subs: seq<SubIndexInfo> := [];
      var i := 0;
      while i < |ms|
        invariant 0 <= i <= |ms|
        invariant LoadsWithoutPanic(store, path, ms[..i])
        invariant infos == LoadedImages(store, path, ms[..i])
        invariant subs == LoadedSubIndexes(store, path, ms[..i])
        invariant images == StoreImages(old(images), infos)
        invariant subIndexes == StoreSubIndexes(old(subIndexes), subs)
        invariant kb.names == Merged(old(kb.names), TopNames(infos))
      {
        LoadStep(store, path, ms, i);
        var step := LoadEntry(store, path, ms[i]);
        if !step.Ok? {
          return Panic;
        }
        StoreImagesAppend(old(images), infos, step.value.0);
        StoreSubIndexesAppend(old(subIndexes), subs, step.value.1);
        TopNamesAppend(infos, step.value.0);
        MergedAppend(old(kb.names), TopNames(infos), TopNames(step.value.0));
        infos := infos + step.value.0;
        subs := subs + step.value.1;
        i := i + 1;
      }
      assert ms[..i] == ms;
      return Ok((infos, subs));
    }

    /** One entry of the first pass. */
    method LoadEntry(store: Store, path: string, d: Descriptor) returns (r: Result<(seq<ImageInfo>, seq<SubIndexInfo>)>)
      modifies this, kb
      ensures r.Panic? <==> d.mediaType == MediaTypeImageManifest && ImageInfoFor(store, RefFor(path, d), d).Panic?
      ensures !r.Err?
      ensures r.Ok? ==> r.value == (EntryImages(store, path, d), EntrySubIndexes(store, path, d))
      ensures r.Ok? ==> images == StoreImages(old(images), r.value.0)
      ensures r.Ok? ==> subIndexes == StoreSubIndexes(old(subIndexes), r.value.1)
      ensures r.Ok? ==> kb.names == Merged(old(kb.names), TopNames(r.value.0))
    {
      var ref := RefFor(path, d);
      if d.mediaType == MediaTypeImageManifest {
        var loaded := LoadImageManifest(kb, store, ref, d);
        if !loaded.Ok? {
          return Panic;
        }
        var info := loaded.value;
        images := images[ref.hash := info];
        assert StoreImages(old(images), [info]) == StoreImages(old(images), [])[info.ref.hash := info];
        assert TopNames([info]) == TopNames([]) + (if TopLayerName(info).Some? then [TopLayerName(info).value] else []);
        return Ok(([info], []));
      } else if d.mediaType == MediaTypeImageIndex {
        var subRef := SubIndexRef(ref.hash, ref.tag, path);
        var sub := SubIndexInfoFor(store, subRef, d);
        subIndexes := subIndexes[subRef.hash := sub];
        assert StoreSubIndexes(old(subIndexes), [sub]) == StoreSubIndexes(old(subIndexes), [])[sub.ref.hash := sub];
        return Ok(([], [sub]));
      }
      return Ok(([], []));
    }

    /** The second pass of addContentsOfLayout: a node per image with a
        child per referrer.  A failed referrer lookup leaves a nil index,
        whose manifests the code then reads: a panic. */
    method ImageNodes(layout: LayoutData, path: string, infos: seq<ImageInfo>) returns (r: Result<seq<ContentNode>>)
      requires layout.index.Some?
      ensures r.Panic? <==> !ReferrersListable(layout, path, infos)
      ensures !r.Err?
      ensures r.Ok? ==> r.value == ImageNodesFor(layout, path, images, infos)
    {
      var nodes: seq<ContentNode> := [];
      var k := 0;
      while k < |infos|
        invariant 0 <= k <= |infos|
        invariant ReferrersListable(layout, path, infos[..k])
        invariant nodes == ImageNodesFor(layout, path, images, infos[..k])
      {
        var node := ImageNodeOf(layout, path, infos[k]);
        if !node.Ok? {
          OneFailureSuffices(layout, path, infos, k);
          return Panic;
        }
        ListableStep(layout, path, infos, k);
        NodesStep(layout, path, images, infos, k);
        nodes := nodes + [node.value];
        k := k + 1;
      }
      assert infos[..k] == infos;
      return Ok(nodes);
    }

    /** The node of one image: a panic when its referrers cannot be listed. */
    method ImageNodeOf(layout: LayoutData, path: string, info: ImageInfo) returns (r: Result<ContentNode>)
      requires layout.index.Some?
      ensures r.Panic? <==> ReferrersFail(layout, path, info.manifestDescriptor)
      ensures !r.Err?
      ensures r.Ok? ==> r.value == ImageNodeFor(layout, path, images, info)
    {
      var referrers := GetReferrersForImage(layout, path, info.manifestDescriptor);
      if !referrers.Ok? {
        return Panic;
      }
      var children := ReferrerNodes(referrers.value.manifests, info.ref);
      return Ok(ImageNode(info.displayLabel, info.ref, children));
    }

    /** The children of one image's node: for each referrer, the looked-up
        info with the image set as the target of a copy of its reference. */
    method ReferrerNodes(ds: seq<Descriptor>, target: ImageRef) returns (children: seq<Leaf>)
      ensures children == ReferrerLeaves(images, ds, target)
    {
      children := [];
      var j := 0;
      while j < |ds|
        invariant 0 <= j <= |ds|
        invariant children == ReferrerLeaves(images, ds[..j], target)
      {
        assert ds[..j + 1][..j] == ds[..j];
        var h := Hex(ds[j].digest);
        var found := if h in images then Leaf(images[h].displayLabel, images[h].ref) else Leaf(NoLabel, ZeroRef);
        var copy := found.ref.(targetTag := target.tag, targetHash := target.hash);
        children := children + [Leaf(found.lbl, copy)];
        j := j + 1;
      }
      assert ds[..j] == ds;
    }

    /** The third pass of addContentsOfLayout: a node per nested index with
        a child per member, looked up in the image map. */
    method SubIndexNodes(subs: seq<SubIndexInfo>) returns (nodes: seq<ContentNode>)
      ensures nodes == SubIndexNodesFor(images, subs)
    {
      nodes := [];
      var k := 0;
      while k < |subs|
        invariant 0 <= k <= |subs|
        invariant nodes == SubIndexNodesFor(images, subs[..k])
      {
        var ds := subs[k].manifestDescriptors;
        var members: seq<Leaf> := [];
        var j := 0;
        while j < |ds|
          invariant 0 <= j <= |ds|
          invariant |members| == j
          invariant forall x :: 0 <= x < j ==> members[x] == LookupLeaf(images, ds[x])
        {
          var h := Hex(ds[j].digest);
          var member := if h in images then Leaf(images[h].displayLabel, images[h].ref) else Leaf(NoLabel, ZeroRef);
          members := members + [member];
          j := j + 1;
        }
        assert members == MemberLeaves(images, ds);
        assert subs[..k + 1][..k] == subs[..k];
        nodes := nodes + [SubIndexNode(subs[k].displayLabel, subs[k].ref, members)];
        k := k + 1;
      }
      assert subs[..k] == subs;
    }

    /** `addContentsOfLayout`: a layout that cannot be opened, or whose index
        cannot be read, contributes nothing; otherwise its images, then its
        nested indexes, each with their child nodes. */
    method AddContentsOfLayout(layout: LayoutData, path: string) returns (r: Result<Contents>)
      modifies this, kb
      ensures !r.Err?
      ensures r.Panic? <==> LayoutPanics(layout, path)
      ensures !layout.opens || layout.index.None? ==>
        r == Ok(Contents([], [], [])) && images == old(images) && subIndexes == old(subIndexes)
        && kb.names == old(kb.names)
      ensures r.Ok? ==> r.value.imageInfos == LayoutImages(layout, path)
      ensures r.Ok? ==> r.value.subIndexInfos == LayoutSubIndexes(layout, path)
      ensures r.Ok? ==> images == StoreImages(old(images), r.value.imageInfos)
      ensures r.Ok? ==> subIndexes == StoreSubIndexes(old(subIndexes), r.value.subIndexInfos)
      ensures r.Ok? ==> kb.names == Merged(old(kb.names), TopNames(r.value.imageInfos))
      ensures r.Ok? && layout.opens && layout.index.Some? ==>
        r.value.nodes == ImageNodesFor(layout, path, images, r.value.imageInfos) + SubIndexNodesFor(images, r.value.subIndexInfos)
    {
      if !layout.opens || layout.index.None? {
        return Ok(Contents([], [], []));
      }
      var loaded := LoadTopLevel(layout.store, path, layout.index.value);
      if !loaded.Ok? {
        return Panic;
      }
      var (infos, subs) := loaded.value;
      var imageNodes := ImageNodes(layout, path, infos);
      if !imageNodes.Ok? {
        return Panic;
      }
      var subNodes := SubIndexNodes(subs);
      r := Ok(Contents(infos, subs, imageNodes.value + subNodes));
    }

    /** `addOCILayoutNodes`: a layout is loaded and counts once; any other
        directory is listed (a listing error panics) and its subdirectories
        walked in order, their counts and images added up; plain files are
        skipped.  A node is added for a layout, and for a directory only
        when some layout lies under it. */
    method AddOCILayoutNodes(root: string, dir: Dir) returns (r: Result<(TreeInfo, Option<TreeNode>)>)
      modifies this, kb
      decreases dir, 2
      ensures !r.Err?
      ensures r.Ok? ==> fresh(r.value.0)
      ensures r.Ok? ==> r.value.0.path == root
      ensures r.Ok? ==> r.value.0.numLayouts == LayoutCount(dir)
      ensures r.Ok? ==> r.value.0.imageInfos == ImagesUnder(dir, root)
      ensures r.Ok? ==> r.value.0.subIndexInfos == if dir.isLayout then LayoutSubIndexes(dir.layout, root) else []
      ensures r.Ok? ==> (r.value.1.Some? <==> LayoutCount(dir) > 0)
      ensures r.Panic? <==> WalkPanics(dir, root)
      ensures r.Ok? ==> Registered(old(images), old(subIndexes), old(kb.names), images, subIndexes, kb.names,
                                 ImagesUnder(dir, root), SubIndexesUnder(dir, root))
    {
      if dir.isLayout {
        var contents := AddContentsOfLayout(dir.layout, root);
        if !contents.Ok? {
          return Panic;
        }
        var c := contents.value;
        LayoutNotDescended(dir, root);
        var ti := new TreeInfo(root, 1, c.imageInfos, c.subIndexInfos);
        return Ok((ti, Some(LayoutNode(Base(root), |c.imageInfos|, c.nodes))));
      }
      if !dir.listable {
        return Panic;
      }
      WalkDone(dir, root);
      var walked := AddEntries(root, dir);
      if !walked.Ok? {
        return Panic;
      }
      var (ti, children) := walked.value;
      var node := if ti.numLayouts > 0 then Some(DirNode(Base(root), ti.numLayouts, children)) else None;
      return Ok((ti, node));
    }

    /** The listing loop of addOCILayoutNodes: the entries of a directory in
        order, each subdirectory walked and its counts and images added to
        the directory's; the first walk that panics ends it. */
    method AddEntries(root: string, dir: Dir) returns (r: Result<(TreeInfo, seq<TreeNode>)>)
      modifies this, kb
      decreases dir, 1
      ensures !r.Err?
      ensures r.Ok? ==> fresh(r.value.0)
      ensures r.Ok? ==> r.value.0.path == root && r.value.0.subIndexInfos == []
      ensures r.Ok? ==> r.value.0.numLayouts == EntriesCount(dir, |dir.entries|)
      ensures r.Ok? ==> r.value.0.imageInfos == EntriesImages(dir, root, |dir.entries|)
      ensures r.Panic? <==> EntriesPanic(dir, root, |dir.entries|)
      ensures r.Ok? ==> Registered(old(images), old(subIndexes), old(kb.names), images, subIndexes, kb.names,
                                 EntriesImages(dir, root, |dir.entries|), EntriesSubIndexes(dir, root, |dir.entries|))
    {
      var ti := new TreeInfo(root, 0, [], []);
      var children: seq<TreeNode> := [];
      var i := 0;
      while i < |dir.entries|
        invariant 0 <= i <= |dir.entries|
        invariant fresh(ti)
        invariant ti.path == root && ti.subIndexInfos == []
        invariant ti.numLayouts == EntriesCount(dir, i)
        invariant ti.imageInfos == EntriesImages(dir, root, i)
        invariant !EntriesPanic(dir, root, i)
        invariant Registered(old(images), old(subIndexes), old(kb.names), images, subIndexes, kb.names,
                           EntriesImages(dir, root, i), EntriesSubIndexes(dir, root, i))
      {
        var found := WalkEntry(root, dir, i, ti, old(images), old(subIndexes), old(kb.names));
        if !found.Ok? {
          EntriesPanicGrows(dir, root, i + 1, |dir.entries|);
          return Panic;
        }
        if found.value.Some? {
          children := children + [found.value.value];
        }
        i := i + 1;
      }
      return Ok((ti, children));
    }

    /** One entry of the listing loop: a subdirectory is walked and its
        counts, images and records are added to the directory's; a plain
        file changes nothing. */
    method WalkEntry(root: string, dir: Dir, i: nat, ti: TreeInfo,
                     ghost images0: map<string, ImageInfo>, ghost subs0: map<string, SubIndexInfo>, ghost names0: NameMap)
      returns (r: Result<Option<TreeNode>>)
      requires i < |dir.entries|
      requires ti.numLayouts == EntriesCount(dir, i) && ti.imageInfos == EntriesImages(dir, root, i)
      requires Registered(images0, subs0, names0, images, subIndexes, kb.names, EntriesImages(dir, root, i), EntriesSubIndexes(dir, root, i))
      requires !EntriesPanic(dir, root, i)
      modifies this, kb, ti
      decreases dir, 0
      ensures !r.Err?
      ensures r.Panic? <==> EntriesPanic(dir, root, i + 1)
      ensures r.Ok? ==> ti.path == old(ti.path) && ti.subIndexInfos == old(ti.subIndexInfos)
      ensures r.Ok? ==> ti.numLayouts == EntriesCount(dir, i + 1) && ti.imageInfos == EntriesImages(dir, root, i + 1)
      ensures r.Ok? ==> Registered(images0, subs0, names0, images, subIndexes, kb.names,
                                   EntriesImages(dir, root, i + 1), EntriesSubIndexes(dir, root, i + 1))
      ensures r.Ok? ==> (r.value.Some? <==> dir.entries[i].SubDir? && LayoutCount(dir.entries[i].dir) > 0)
    {
      var e := dir.entries[i];
      EntriesStep(dir, root, i);
      if e.FileEntry? {
        ComposeRecords(images0, subs0, names0, images, subIndexes, kb.names, images, subIndexes, kb.names,
                       EntriesImages(dir, root, i), EntriesSubIndexes(dir, root, i), [], []);
        return Ok(None);
      }
      ghost var images1, subs1, names1 := images, subIndexes, kb.names;
      var sub := AddOCILayoutNodes(JoinPath(root, e.name), e.dir);
      if !sub.Ok? {
        return Panic;
      }
      ComposeRecords(images0, subs0, names0, images1, subs1, names1, images, subIndexes, kb.names,
                     EntriesImages(dir, root, i), EntriesSubIndexes(dir, root, i),
                     ImagesUnder(e.dir, JoinPath(root, e.name)), SubIndexesUnder(e.dir, JoinPath(root, e.name)));
      var (info, found) := sub.value;
      ti.Update(info);
      return Ok(found);
    }
  }
}
