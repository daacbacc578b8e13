/** The parts of the OCI image specification and of the OCI layout library
    that the viewer consumes, as plain values.

    Decoding JSON and reading blobs is the library's job; here a layout is
    given by what the library would return for each request. */
module Oci {
  import opened Outcomes

  // Media types and annotation keys of the OCI image specification.
  const MediaTypeImageManifest := "application/vnd.oci.image.manifest.v1+json"
  const MediaTypeImageIndex := "application/vnd.oci.image.index.v1+json"
  const MediaTypeImageConfig := "application/vnd.oci.image.config.v1+json"
  const MediaTypeImageLayer := "application/vnd.oci.image.layer.v1.tar"
  const MediaTypeImageLayerGzip := "application/vnd.oci.image.layer.v1.tar+gzip"
  const MediaTypeImageLayerZstd := "application/vnd.oci.image.layer.v1.tar+zstd"
  const MediaTypeEmpty := "application/vnd.oci.empty.v1+json"
  const MediaTypeNotarySignature := "application/vnd.cncf.notary.signature"
  const AnnotationRefName := "org.opencontainers.image.ref.name"
  const AnnotationTitle := "org.opencontainers.image.title"

  /** A digest in its `algorithm:hex` form.  The code strips the algorithm by
      dropping the first seven characters (the length of `sha256:`), which
      panics on anything shorter; digests handed out by the library are never
      that short. */
  type DigestString = s: string | 7 <= |s| witness "sha256:"

  /** The digest with its first seven characters (`sha256:`) removed. */
  function Hex(d: DigestString): (h: string)
    ensures |h| + 7 == |d|
    ensures "sha256:" <= d ==> "sha256:" + h == d
  {
    d[7..]
  }

  datatype Descriptor = Descriptor(
    mediaType: string,
    digest: DigestString,
    size: int,
    annotations: map<string, string>,
    artifactType: string)

  datatype Manifest = Manifest(
    config: Descriptor,
    layers: seq<Descriptor>,
    subject: Option<Descriptor>,
    artifactType: string)

  datatype HistoryEntry = HistoryEntry(emptyLayer: bool, createdBy: string)

  /** The part of an image configuration the model reads. */
  datatype ImageConfig = ImageConfig(history: seq<HistoryEntry>)

  /** Go's zero value of an image configuration. */
  const ZeroConfig := ImageConfig([])

  /** What the layout library decodes a blob into, by the media type it was
      asked for. */
  datatype BlobData =
    | ManifestData(manifest: Manifest)
    | IndexData(manifests: seq<Descriptor>)
    | ImageData(config: ImageConfig)
    | OtherData

  /** A decoded blob together with the descriptor it was fetched by. */
  datatype Blob = Blob(descriptor: Descriptor, data: BlobData)

  /** The content store of a layout, by full digest. */
  type Store = map<string, BlobData>

  /** `FromDescriptor`: the blob the descriptor names, or an error if the
      store cannot produce it. */
  function FromDescriptor(store: Store, d: Descriptor): (r: Result<Blob>)
    ensures r.Ok? <==> d.digest in store
    ensures r.Ok? || r.Err?
    ensures r.Ok? ==> r.value == Blob(d, store[d.digest])
    ensures r.Err? ==> r.error == FetchFailed(d.digest)
  {
    if d.digest in store then Ok(Blob(d, store[d.digest])) else Err(FetchFailed(d.digest))
  }

  /** A blob file read directly from disk and decoded as a manifest. */
  datatype RawFile = Unparsable | ManifestJson(manifest: Manifest)

  /** One directory that holds an OCI layout, as the library sees it:
      whether it opens, its top-level index (None when reading it fails),
      its content store and the blob files under it by path. */
  datatype LayoutData = LayoutData(
    opens: bool,
    index: Option<seq<Descriptor>>,
    store: Store,
    files: map<string, RawFile>)

  /** `filepath.Join` of two clean path elements. */
  function JoinPath(a: string, b: string): string
  {
    a + "/" + b
  }
}
