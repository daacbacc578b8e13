/** Loading one top-level entry of a layout into the records the viewer keeps
    about it (`ociutils.go`): image manifests become `ImageInfo`s, nested
    indexes become `SubIndexInfo`s, and every image's top layer is recorded in
    the knowledge base under the image's tag. */
module OciUtils {
  import opened Outcomes
  import opened Oci
  import opened GoStrings
  import KnownTags

  /** Identifies one manifest of a layout; a referrer also carries the tag
      and hash of the image it refers to. */
  datatype ImageRef = ImageRef(
    layoutPath: string,
    tag: string,
    hash: string,
    targetTag: string,
    targetHash: string)

  /** Go's zero `imageref`, what a lookup of a missing hash yields. */
  const ZeroRef := ImageRef("", "", "", "", "")

  datatype SubIndexRef = SubIndexRef(hash: string, tag: string, layoutPath: string)

  /** The label shown for a node, by the case that produced it.  (The
      on-screen text with its icons and quoting is presentation.) */
  datatype Label =
    | NoLabel
    | TaggedImage(tag: string)
    | UntaggedImage(hash: string)
    | Artifact(filename: string, artifactType: string)
    | NotarySignature(hash: string)
    | NotarySignatureIndex
    | UnknownMediaType(mediaType: string, hash: string)
    | SubIndexLabel(tag: string, manifests: nat)

  /** One decoded image manifest.  `manifest` and `configBlob` are None where
      Go leaves the zero value. */
  datatype ImageInfo = ImageInfo(
    ref: ImageRef,
    displayName: string,
    displayLabel: Label,
    manifestDescriptor: Descriptor,
    manifest: Option<Manifest>,
    configBlob: Option<Blob>,
    config: ImageConfig,
    layerDigests: seq<string>,
    filename: string,
    err: Option<Error>)

  datatype SubIndexInfo = SubIndexInfo(
    ref: SubIndexRef,
    displayName: string,
    displayLabel: Label,
    manifestDescriptors: seq<Descriptor>,
    err: Option<Error>)


  /** `displayStringForMediaType`: a readable name for the three OCI layer
      media types; any other media type is shown as it is. */
  function DisplayStringForMediaType(mediaType: string): (s: string)
    ensures mediaType == MediaTypeImageLayer ==> s == "Tar Image Layer"
    ensures mediaType == MediaTypeImageLayerGzip ==> s == "tgz Image Layer"
    ensures mediaType == MediaTypeImageLayerZstd ==> s == "zstd Image Layer"
    ensures mediaType !in {MediaTypeImageLayer, MediaTypeImageLayerGzip, MediaTypeImageLayerZstd} ==> s == mediaType
  {
    if mediaType == MediaTypeImageLayer then "Tar Image Layer"
    else if mediaType == MediaTypeImageLayerGzip then "tgz Image Layer"
    else if mediaType == MediaTypeImageLayerZstd then "zstd Image Layer"
    else mediaType
  }

  /** The hex digests of the layers, bottom to top. */
  function LayerHexes(layers: seq<Descriptor>): (hs: seq<string>)
    ensures |hs| == |layers|
    ensures forall i :: 0 <= i < |layers| ==> hs[i] == Hex(layers[i].digest)
  {
    if layers == [] then [] else LayerHexes(layers[..|layers| - 1]) + [Hex(layers[|layers| - 1].digest)]
  }

  /** The info every early return of `loadImageManifest` yields: only the
      reference, the descriptor, what was decoded so far and the error. */
  function Failed(ref: ImageRef, desc: Descriptor, manifest: Option<Manifest>, e: Error): ImageInfo
  {
    ImageInfo(ref, "", NoLabel, desc, manifest, None, ZeroConfig, [], "", Some(e))
  }

  /** The file name shown for an artifact: the base of the title annotation
      of its only layer (Go's `Base("")` is "."), or "" when it has several
      layers. */
  function ArtifactFilename(m: Manifest): string
  {
    if |m.layers| == 1 then
      Base(if AnnotationTitle in m.layers[0].annotations then m.layers[0].annotations[AnnotationTitle] else "")
    else ""
  }

  /** The `filename` field of a loaded image: only an untagged image whose
      config is the empty descriptor is an artifact with a file name; every
      other image keeps the zero value "". */
  function FilenameFor(ref: ImageRef, m: Manifest): (f: string)
    ensures f != "" ==> ref.tag == "" && m.config.mediaType == MediaTypeEmpty && |m.layers| == 1
    ensures ref.tag == "" && m.config.mediaType == MediaTypeEmpty ==> f == ArtifactFilename(m)
  {
    if ref.tag == "" && m.config.mediaType == MediaTypeEmpty then ArtifactFilename(m) else ""
  }

  /** The display name and label of a decoded image (`loadImageManifest`,
      its last step).  `top` is the hex digest of the top layer, which the
      code reuses as the name of untagged images and artifacts. */
  function Naming(ref: ImageRef, m: Manifest, top: string): (nl: (string, Label))
    ensures ref.tag != "" ==> nl == (ref.tag, TaggedImage(ref.tag))
  {
    if ref.tag != "" then (ref.tag, TaggedImage(ref.tag))
    else
      var mt := m.config.mediaType;
      if mt == MediaTypeImageConfig then (top, UntaggedImage(ref.hash))
      else if mt == MediaTypeEmpty then (top, Artifact(ArtifactFilename(m), m.artifactType))
      else if mt == MediaTypeNotarySignature then ("Notary Signature " + ref.hash, NotarySignature(ref.hash))
      else if mt == MediaTypeImageIndex then ("Notary Signature Index", NotarySignatureIndex)
      else (mt, UnknownMediaType(mt, ref.hash))
  }

  /** What `loadImageManifest` returns for a descriptor of a layout whose
      content store is `store`.  Decode failures are recorded in `err`; an
      image manifest with no layers makes the code index an empty slice,
      which panics. */
  function ImageInfoFor(store: Store, ref: ImageRef, desc: Descriptor): (r: Result<ImageInfo>)
    ensures !r.Err?
    ensures r.Ok? ==> r.value.ref == ref && r.value.manifestDescriptor == desc
    ensures r.Ok? && r.value.err.Some? ==> r.value.layerDigests == [] && r.value.configBlob.None?
    ensures r.Ok? && r.value.err.None? ==>
      r.value.manifest.Some? && r.value.layerDigests == LayerHexes(r.value.manifest.value.layers) && r.value.layerDigests != []
      && (r.value.displayName, r.value.displayLabel) == Naming(ref, r.value.manifest.value, r.value.layerDigests[|r.value.layerDigests| - 1])
      && r.value.filename == FilenameFor(ref, r.value.manifest.value)
    ensures r.Ok? && r.value.filename != "" ==>
      ref.tag == "" && r.value.manifest.Some? && r.value.manifest.value.config.mediaType == MediaTypeEmpty
  {
    if desc.mediaType != MediaTypeImageManifest then
      Ok(Failed(ref, desc, None, NotImageManifest(desc.mediaType)))
    else
      match FromDescriptor(store, desc)
      case Err(e) => Ok(Failed(ref, desc, None, e))
      case Panic => Panic
      case Ok(blob) =>
        if !blob.data.ManifestData? then Ok(Failed(ref, desc, None, NotAManifest))
        else
          var m := blob.data.manifest;
          match FromDescriptor(store, m.config)
          case Err(e) => Ok(Failed(ref, desc, Some(m), e))
          case Panic => Panic
          case Ok(configBlob) =>
            var config := if configBlob.data.ImageData? then configBlob.data.config else ZeroConfig;
            if m.layers == [] then Panic
            else
              var top := Hex(m.layers[|m.layers| - 1].digest);
              var (name, lbl) := Naming(ref, m, top);
              Ok(ImageInfo(ref, name, lbl, desc, Some(m), Some(configBlob), config,
                           LayerHexes(m.layers), FilenameFor(ref, m), None))
  }

  /** The name `loadImageManifest` records in the knowledge base for a
      loaded image: its tag (even when empty) under its top layer's digest. */
  function TopLayerName(info: ImageInfo): (e: Option<KnownTags.LayerNameEntry>)
    ensures e.Some? <==> info.err.None? && info.layerDigests != []
    ensures e.Some? ==> e.value == KnownTags.LayerNameEntry(info.layerDigests[|info.layerDigests| - 1], info.ref.tag)
  {
    if info.err.None? && info.layerDigests != [] then
      Some(KnownTags.LayerNameEntry(info.layerDigests[|info.layerDigests| - 1], info.ref.tag))
    else None
  }

  /** `loadImageManifest`: decodes the manifest and config of `desc`, fills in
      the info field by field, appends the image's tag to the names of its
      top layer and copies the layer digests in a loop. */
  method LoadImageManifest(kb: KnownTags.KnowledgeBase, store: Store, ref: ImageRef, desc: Descriptor)
    returns (r: Result<ImageInfo>)
    modifies kb
    ensures r == ImageInfoFor(store, ref, desc)
    ensures r.Ok? && TopLayerName(r.value).Some? ==>
      kb.names == KnownTags.WithName(old(kb.names), TopLayerName(r.value).value.hash, ref.tag)
    ensures r.Ok? && TopLayerName(r.value).None? ==> kb.names == old(kb.names)
  {
    if desc.mediaType != MediaTypeImageManifest {
      return Ok(Failed(ref, desc, None, NotImageManifest(desc.mediaType)));
    }
    var fetched := FromDescriptor(store, desc);
    if fetched.Err? {
      return Ok(Failed(ref, desc, None, fetched.error));
    }
    if !fetched.Ok? || !fetched.value.data.ManifestData? {
      return Ok(Failed(ref, desc, None, NotAManifest));
    }
    var m := fetched.value.data.manifest;
    var configFetched := FromDescriptor(store, m.config);
    if configFetched.Err? {
      return Ok(Failed(ref, desc, Some(m), configFetched.error));
    }
    var configBlob := configFetched.value;
    var config := ZeroConfig;
    if configBlob.data.ImageData? {
      config := configBlob.data.config;
    }
    if m.layers == [] {
      return Panic;
    }
    var top := Hex(m.layers[|m.layers| - 1].digest);
    kb.Append(top, ref.tag);
    var layerDigests := [];
    var i := 0;
    while i < |m.layers|
      invariant 0 <= i <= |m.layers|
      invariant layerDigests == LayerHexes(m.layers[..i])
    {
      assert m.layers[..i + 1][..i] == m.layers[..i];
      layerDigests := layerDigests + [Hex(m.layers[i].digest)];
      i := i + 1;
    }
    assert m.layers[..i] == m.layers;
    var (name, lbl) := Naming(ref, m, top);
    var filename := "";
    if ref.tag == "" && m.config.mediaType == MediaTypeEmpty {
      filename := ArtifactFilename(m);
    }
    r := Ok(ImageInfo(ref, name, lbl, desc, Some(m), Some(configBlob), config,
                      layerDigests, filename, None));
  }

  /** A descriptor that is not an image manifest yields an info carrying
      the error, with no layers, and (by LoadImageManifest) no new name. */
  lemma NotAnImageManifest(store: Store, ref: ImageRef, desc: Descriptor)
    requires desc.mediaType != MediaTypeImageManifest
    ensures ImageInfoFor(store, ref, desc) == Ok(Failed(ref, desc, None, NotImageManifest(desc.mediaType)))
    ensures TopLayerName(ImageInfoFor(store, ref, desc).value).None?
  {
  }

  /** A manifest or config that cannot be fetched, or a manifest blob that
      is not a manifest, sets `err` before any layer digest is recorded. */
  lemma DecodeFailures(store: Store, ref: ImageRef, desc: Descriptor)
    requires desc.mediaType == MediaTypeImageManifest
    requires || desc.digest !in store
             || !store[desc.digest].ManifestData?
             || store[desc.digest].manifest.config.digest !in store
    ensures ImageInfoFor(store, ref, desc).Ok?
    ensures ImageInfoFor(store, ref, desc).value.err.Some?
    ensures ImageInfoFor(store, ref, desc).value.layerDigests == []
  {
  }

  /** A config that is not an image configuration leaves `config` at its
      zero value without setting `err`. */
  lemma NonImageConfig(store: Store, ref: ImageRef, desc: Descriptor)
    requires desc.mediaType == MediaTypeImageManifest
    requires desc.digest in store && store[desc.digest].ManifestData?
    requires store[desc.digest].manifest.layers != []
    requires store[desc.digest].manifest.config.digest in store
    requires !store[store[desc.digest].manifest.config.digest].ImageData?
    ensures ImageInfoFor(store, ref, desc).Ok?
    ensures ImageInfoFor(store, ref, desc).value.err.None?
    ensures ImageInfoFor(store, ref, desc).value.config == ZeroConfig
  {
  }

  /** A decodable image manifest with at least one layer: its layer digests
      are those of the manifest without the `sha256:` prefix, in order, and
      its top one is named with the image's tag. */
  lemma LoadedLayers(store: Store, ref: ImageRef, desc: Descriptor)
    requires desc.mediaType == MediaTypeImageManifest
    requires desc.digest in store && store[desc.digest].ManifestData?
    requires store[desc.digest].manifest.layers != []
    requires store[desc.digest].manifest.config.digest in store
    ensures ImageInfoFor(store, ref, desc).Ok?
    ensures ImageInfoFor(store, ref, desc).value.err.None?
    ensures var layers := store[desc.digest].manifest.layers;
            var ds := ImageInfoFor(store, ref, desc).value.layerDigests;
            && |ds| == |layers|
            && (forall i :: 0 <= i < |layers| ==> ds[i] == Hex(layers[i].digest))
            && TopLayerName(ImageInfoFor(store, ref, desc).value)
               == Some(KnownTags.LayerNameEntry(Hex(layers[|layers| - 1].digest), ref.tag))
  {
  }

  /** A decodable image manifest without layers panics at the top-layer
      lookup. */
  lemma NoLayersPanics(store: Store, ref: ImageRef, desc: Descriptor)
    requires desc.mediaType == MediaTypeImageManifest
    requires desc.digest in store && store[desc.digest].ManifestData?
    requires store[desc.digest].manifest.layers == []
    requires store[desc.digest].manifest.config.digest in store
    ensures ImageInfoFor(store, ref, desc).Panic?
  {
  }

  /** An untagged image is named by its config media type: an image config
      or an empty config give the top layer's hex digest, a notary signature
      a name with the manifest hash, an index config the fixed signature
      index name, and anything else the media type itself. */
  lemma UntaggedNaming(ref: ImageRef, m: Manifest, top: string)
    requires ref.tag == ""
    ensures var mt := m.config.mediaType;
            var (name, lbl) := Naming(ref, m, top);
            && (mt == MediaTypeImageConfig ==> name == top && lbl == UntaggedImage(ref.hash))
            && (mt == MediaTypeEmpty ==> name == top && lbl.Artifact?)
            && (mt == MediaTypeNotarySignature ==> name == "Notary Signature " + ref.hash)
            && (mt == MediaTypeImageIndex ==> name == "Notary Signature Index")
            && (mt !in {MediaTypeImageConfig, MediaTypeEmpty, MediaTypeNotarySignature, MediaTypeImageIndex}
                ==> name == mt && lbl == UnknownMediaType(mt, ref.hash))
  {
  }

  /** `loadSubIndexManifest`: the child descriptors of a nested index, not
      decoded further.  Its media type is not checked. */
  function SubIndexInfoFor(store: Store, ref: SubIndexRef, desc: Descriptor): (info: SubIndexInfo)
    ensures info.ref == ref
    ensures info.err.None? <==> desc.digest in store && store[desc.digest].IndexData?
    ensures info.err.None? ==> info.manifestDescriptors == store[desc.digest].manifests
                               && info.displayLabel == SubIndexLabel(ref.tag, |info.manifestDescriptors|)
    ensures info.err.Some? ==> info.manifestDescriptors == [] && info.displayLabel == NoLabel
  {
    match FromDescriptor(store, desc)
    case Err(e) => SubIndexInfo(ref, "", NoLabel, [], Some(e))
    case Panic => SubIndexInfo(ref, "", NoLabel, [], Some(NotAnIndex))
    case Ok(blob) =>
      if !blob.data.IndexData? then SubIndexInfo(ref, "", NoLabel, [], Some(NotAnIndex))
      else
        var ms := blob.data.manifests;
        SubIndexInfo(ref, "subindex '" + ref.tag + "'", SubIndexLabel(ref.tag, |ms|), ms, None)
  }

  /** The name `getSubjectInfo` gives a subject. */
  datatype SubjectName = NoName | Dash | LabelOf(of: Label)

  /** `getSubjectInfo`: nothing for an image without a subject; otherwise the
      subject's hex digest and, if the viewer holds an info for it, its
      label, else "-". */
  function SubjectInfo(info: ImageInfo, images: map<string, ImageInfo>): (r: (string, SubjectName))
    ensures (info.manifest.None? || info.manifest.value.subject.None?) ==> r == ("", NoName)
    ensures info.manifest.Some? && info.manifest.value.subject.Some? ==>
      var h := Hex(info.manifest.value.subject.value.digest);
      && r.0 == h
      && (h in images ==> r.1 == LabelOf(images[h].displayLabel))
      && (h !in images ==> r.1 == Dash)
  {
    if info.manifest.None? || info.manifest.value.subject.None? then ("", NoName)
    else
      var h := Hex(info.manifest.value.subject.value.digest);
      if h in images then (h, LabelOf(images[h].displayLabel)) else (h, Dash)
  }

  // ---------------------------------------------------------------------
  // The config-history table of getImageInfoString

  /** One row of the history table: an empty-layer entry on its own, or an
      entry paired with the manifest layer it created. */
  datatype HistoryRow = EmptyRow(entry: HistoryEntry) | LayerRow(entry: HistoryEntry, layer: Descriptor)

  /** Number of history entries that created a layer. */
  function NonEmptyCount(history: seq<HistoryEntry>): nat
  {
    if history == [] then 0
    else NonEmptyCount(history[..|history| - 1]) + (if history[|history| - 1].emptyLayer then 0 else 1)
  }

  lemma {:induction false} NonEmptyCountBound(history: seq<HistoryEntry>, k: nat)
    requires k <= |history|
    ensures NonEmptyCount(history[..k]) <= NonEmptyCount(history)
  {
    if k < |history| {
      assert history[..|history| - 1][..k] == history[..k];
      NonEmptyCountBound(history[..|history| - 1], k);
    } else {
      assert history[..k] == history;
    }
  }

  /** The walk over the config history: the k-th entry that is not an empty
      layer is paired with manifest layer k; empty entries do not advance
      the layer index.  More non-empty entries than layers make the code
      index past the end of the layer list, a panic. */
  /** Row `j` is the row the history entry `j` gets: empty, or paired with the next layer. */
  ghost predicate RowMatches(history: seq<HistoryEntry>, layers: seq<Descriptor>, j: nat, row: HistoryRow)
    requires j < |history|
  {
    if history[j].emptyLayer then row == EmptyRow(history[j])
    else NonEmptyCount(history[..j]) < |layers| && row == LayerRow(history[j], layers[NonEmptyCount(history[..j])])
  }

  method HistoryRows(history: seq<HistoryEntry>, layers: seq<Descriptor>) returns (r: Result<seq<HistoryRow>>)
    ensures r.Panic? <==> NonEmptyCount(history) > |layers|
    ensures !r.Err?
    ensures r.Ok? ==> |r.value| == |history|
    ensures r.Ok? ==> forall k :: 0 <= k < |history| ==> RowMatches(history, layers, k, r.value[k])
  {
    var rows := [];
    var layerIdx := 0;
    var k := 0;
    while k < |history|
      invariant 0 <= k <= |history|
      invariant layerIdx == NonEmptyCount(history[..k]) <= |layers|
      invariant |rows| == k
      invariant forall j :: 0 <= j < k ==> RowMatches(history, layers, j, rows[j])
    {
      assert history[..k + 1][..k] == history[..k];
      var entry := history[k];
      if entry.emptyLayer {
        rows := rows + [EmptyRow(entry)];
      } else {
        if layerIdx >= |layers| {
          NonEmptyCountBound(history, k + 1);
          return Panic;
        }
        rows := rows + [LayerRow(entry, layers[layerIdx])];
        layerIdx := layerIdx + 1;
      }
      assert RowMatches(history, layers, k, rows[k]);
      k := k + 1;
    }
    assert history[..k] == history;
    return Ok(rows);
  }
}
