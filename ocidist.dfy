/** Referrer discovery (`ocidist.go`).  The layout library does not index
    manifests by their `subject`, so the viewer reads every other image
    manifest blob of the layout itself and keeps those whose subject is the
    image. */
module OciDist {
  import opened Outcomes
  import opened Oci
  import opened GoStrings

  /** A decoded index: its media type and its manifest descriptors. */
  datatype Index = Index(mediaType: string, manifests: seq<Descriptor>)

  /** The path `getBlob` reads for a descriptor: the digest is cut at its
      first ':' into algorithm and hex, giving `layout/blobs/algo/hex`; a
      digest with no ':' is an error. */
  function BlobPath(layoutPath: string, d: Descriptor): (r: Result<string>)
    ensures r.Ok? <==> ':' in d.digest
    ensures r.Err? ==> r.error == DigestWithoutColon(d.digest)
  {
    var c := Cut(d.digest, ':');
    if !c.found then Err(DigestWithoutColon(d.digest))
    else Ok(JoinPath(JoinPath(JoinPath(layoutPath, "blobs"), c.before), c.after))
  }

  /** The path is `layout/blobs/algo/hex` where `algo` is the digest up to
      its first ':' and `hex` the rest. */
  lemma BlobPathSplitsDigest(layoutPath: string, d: Descriptor, algo: string, hex: string)
    requires ':' !in algo && d.digest == algo + ":" + hex
    ensures BlobPath(layoutPath, d) == Ok(layoutPath + "/blobs/" + algo + "/" + hex)
  {
    assert d.digest[|algo|] == ':';
    var c := Cut(d.digest, ':');
    CutUnique(algo, hex, c.before, c.after);
    var blobs := JoinPath(layoutPath, "blobs");
    assert blobs + "/" == layoutPath + "/blobs/";
  }

  /** `getBlob` followed by decoding the blob as a manifest. */
  function ManifestBlob(files: map<string, RawFile>, layoutPath: string, d: Descriptor): (r: Result<Manifest>)
    ensures !r.Panic?
  {
    match BlobPath(layoutPath, d)
    case Err(e) => Err(e)
    case Panic => Err(DigestWithoutColon(d.digest))
    case Ok(path) =>
      if path !in files then Err(BlobReadFailed(path))
      else match files[path]
        case Unparsable => Err(BlobDecodeFailed(path))
        case ManifestJson(m) => Ok(m)
  }

  /** An index entry is examined when it is an image manifest other than the
      image itself. */
  predicate Examined(d: Descriptor, image: Descriptor)
  {
    d.mediaType == MediaTypeImageManifest && d.digest != image.digest
  }

  /** A decoded manifest refers to the image when its subject's digest is
      the image's. */
  predicate RefersTo(m: Manifest, image: Descriptor)
  {
    m.subject.Some? && m.subject.value.digest == image.digest
  }

  /** The descriptor recorded for a referrer: media type, digest and size
      from the index entry, artifact type from the decoded manifest. */
  function Match(d: Descriptor, m: Manifest): (md: Descriptor)
    ensures md.mediaType == d.mediaType && md.digest == d.digest && md.size == d.size
    ensures md.artifactType == m.artifactType
  {
    Descriptor(d.mediaType, d.digest, d.size, map[], m.artifactType)
  }

  /** Every examined entry's blob can be read and decoded. */
  ghost predicate AllReadable(files: map<string, RawFile>, layoutPath: string, ms: seq<Descriptor>, image: Descriptor)
  {
    forall i :: 0 <= i < |ms| && Examined(ms[i], image) ==> ManifestBlob(files, layoutPath, ms[i]).Ok?
  }

  /** What the scan records for one index entry: the referrer descriptor
      when the entry is examined and its manifest's subject is the image. */
  function Recorded(files: map<string, RawFile>, layoutPath: string, d: Descriptor, image: Descriptor): (x: Option<Descriptor>)
    ensures x.Some? <==> Examined(d, image) && ManifestBlob(files, layoutPath, d).Ok?
                         && RefersTo(ManifestBlob(files, layoutPath, d).value, image)
    ensures x.Some? ==> x.value == Match(d, ManifestBlob(files, layoutPath, d).value)
  {
    var b := ManifestBlob(files, layoutPath, d);
    if Examined(d, image) && b.Ok? && RefersTo(b.value, image) then Some(Match(d, b.value)) else None
  }

  /** The referrers of `image` among `ms`, in index order, when every
      examined blob decodes. */
  function Referrers(files: map<string, RawFile>, layoutPath: string, ms: seq<Descriptor>, image: Descriptor): seq<Descriptor>
  {
    if ms == [] then []
    else
      var x := Recorded(files, layoutPath, ms[|ms| - 1], image);
      Referrers(files, layoutPath, ms[..|ms| - 1], image) + (if x.Some? then [x.value] else [])
  }

  /** `getReferrersForImage`: scans the layout's index once.  A missing index
      or any examined blob that cannot be read or decoded is an error and no
      partial list is returned. */
  method GetReferrersForImage(layout: LayoutData, layoutPath: string, image: Descriptor) returns (r: Result<Index>)
    ensures !r.Panic?
    ensures layout.index.None? ==> r == Err(IndexUnavailable)
    ensures layout.index.Some? ==>
      (r.Ok? <==> AllReadable(layout.files, layoutPath, layout.index.value, image))
    ensures r.Ok? ==> r.value == Index(MediaTypeImageIndex, Referrers(layout.files, layoutPath, layout.index.value, image))
  {
    if layout.index.None? {
      return Err(IndexUnavailable);
    }
    var ms := layout.index.value;
    var refs: seq<Descriptor> := [];
    var i := 0;
    while i < |ms|
      invariant 0 <= i <= |ms|
      invariant AllReadable(layout.files, layoutPath, ms[..i], image)
      invariant refs == Referrers(layout.files, layoutPath, ms[..i], image)
    {
      var e := ScanEntry(layout.files, layoutPath, ms[i], image);
      ScanStep(layout.files, layoutPath, ms, image, i);
      if e.Err? {
        UnreadableAt(layout.files, layoutPath, ms, image, i);
        return Err(e.error);
      }
      if e.value.Some? {
        refs := refs + [e.value.value];
      }
      ReadableStep(layout.files, layoutPath, ms, image, i);
      i := i + 1;
    }
    assert ms[..i] == ms;
    return Ok(Index(MediaTypeImageIndex, refs));
  }

  /** One step of the scan: an examined entry's blob is read and decoded,
      and the entry is recorded when its subject is the image. */
  method ScanEntry(files: map<string, RawFile>, layoutPath: string, d: Descriptor, image: Descriptor) returns (e: Result<Option<Descriptor>>)
    ensures !e.Panic?
    ensures e.Err? <==> Examined(d, image) && !ManifestBlob(files, layoutPath, d).Ok?
    ensures e.Err? ==> e.error == ManifestBlob(files, layoutPath, d).error
    ensures e.Ok? ==> e.value == Recorded(files, layoutPath, d, image)
  {
    if d.mediaType == MediaTypeImageManifest && d.digest != image.digest {
      var b := ManifestBlob(files, layoutPath, d);
      if !b.Ok? {
        return Err(b.error);
      }
      if b.value.subject.Some? && b.value.subject.value.digest == image.digest {
        return Ok(Some(Match(d, b.value)));
      }
    }
    return Ok(None);
  }

  /** One index entry more of the scan adds that entry's record. */
  lemma ScanStep(files: map<string, RawFile>, layoutPath: string, ms: seq<Descriptor>, image: Descriptor, i: int)
    requires 0 <= i < |ms|
    ensures var x := Recorded(files, layoutPath, ms[i], image);
            Referrers(files, layoutPath, ms[..i + 1], image)
            == Referrers(files, layoutPath, ms[..i], image) + (if x.Some? then [x.value] else [])
  {
    var p := ms[..i + 1];
    assert p[..|p| - 1] == ms[..i];
    assert p[|p| - 1] == ms[i];
  }

  /** The scanned prefix stays readable when the next entry is not examined
      or decodes. */
  lemma ReadableStep(files: map<string, RawFile>, layoutPath: string, ms: seq<Descriptor>, image: Descriptor, i: int)
    requires 0 <= i < |ms|
    requires AllReadable(files, layoutPath, ms[..i], image)
    requires Examined(ms[i], image) ==> ManifestBlob(files, layoutPath, ms[i]).Ok?
    ensures AllReadable(files, layoutPath, ms[..i + 1], image)
  {
    var p := ms[..i + 1];
    forall j | 0 <= j < |p| && Examined(p[j], image)
      ensures ManifestBlob(files, layoutPath, p[j]).Ok?
    {
      if j < i {
        assert p[j] == ms[..i][j];
      }
    }
  }

  /** An examined entry that does not decode makes the index unreadable. */
  lemma UnreadableAt(files: map<string, RawFile>, layoutPath: string, ms: seq<Descriptor>, image: Descriptor, i: int)
    requires 0 <= i < |ms| && Examined(ms[i], image) && !ManifestBlob(files, layoutPath, ms[i]).Ok?
    ensures !AllReadable(files, layoutPath, ms, image)
  {
  }

  /** A descriptor is listed as a referrer exactly when some examined index
      entry decodes to a manifest whose subject is the image, and it is that
      entry with the manifest's artifact type. */
  lemma ReferrersMembers(files: map<string, RawFile>, layoutPath: string, ms: seq<Descriptor>, image: Descriptor, x: Descriptor)
    ensures x in Referrers(files, layoutPath, ms, image) <==>
      exists i :: 0 <= i < |ms| && Recorded(files, layoutPath, ms[i], image) == Some(x)
  {
    var rec := d => Recorded(files, layoutPath, d, image);
    ReferrersKept(files, layoutPath, ms, image);
    KeptMembers(ms, rec, x);
  }

  /** The entries `rec` keeps, in order. */
  function Kept(ms: seq<Descriptor>, rec: Descriptor -> Option<Descriptor>): seq<Descriptor>
  {
    if ms == [] then []
    else
      var x := rec(ms[|ms| - 1]);
      Kept(ms[..|ms| - 1], rec) + (if x.Some? then [x.value] else [])
  }

  /** A descriptor is kept exactly when `rec` gives it for some entry. */
  lemma {:induction false} KeptMembers(ms: seq<Descriptor>, rec: Descriptor -> Option<Descriptor>, x: Descriptor)
    ensures x in Kept(ms, rec) <==> exists i :: 0 <= i < |ms| && rec(ms[i]) == Some(x)
  {
    if ms != [] {
      var n := |ms| - 1;
      var init := ms[..n];
      KeptMembers(init, rec, x);
      if exists i :: 0 <= i < |ms| && rec(ms[i]) == Some(x) {
        var i :| 0 <= i < |ms| && rec(ms[i]) == Some(x);
        if i < n { assert init[i] == ms[i]; }
      }
      if exists i :: 0 <= i < n && rec(init[i]) == Some(x) {
        var i :| 0 <= i < n && rec(init[i]) == Some(x);
        assert ms[i] == init[i];
      }
    }
  }

  /** The referrer scan keeps what `Recorded` gives. */
  lemma {:induction false} ReferrersKept(files: map<string, RawFile>, layoutPath: string, ms: seq<Descriptor>, image: Descriptor)
    ensures Referrers(files, layoutPath, ms, image) == Kept(ms, d => Recorded(files, layoutPath, d, image))
  {
    if ms != [] {
      ReferrersKept(files, layoutPath, ms[..|ms| - 1], image);
    }
  }

  /** The image itself is never among its referrers, even if its own
      manifest names itself as subject. */
  lemma {:induction false} NotItsOwnReferrer(files: map<string, RawFile>, layoutPath: string, ms: seq<Descriptor>, image: Descriptor)
    ensures forall x :: x in Referrers(files, layoutPath, ms, image) ==> x.digest != image.digest
  {
    if ms != [] {
      NotItsOwnReferrer(files, layoutPath, ms[..|ms| - 1], image);
    }
  }

  /** An index holding image `m` and an image `r` whose manifest's subject is
      `m` gives `r` as the one referrer of `m`. */
  lemma OneReferrer(files: map<string, RawFile>, layoutPath: string, m: Descriptor, r: Descriptor, rm: Manifest)
    requires r.mediaType == MediaTypeImageManifest && r.digest != m.digest
    requires ManifestBlob(files, layoutPath, r) == Ok(rm)
    requires RefersTo(rm, m)
    ensures Referrers(files, layoutPath, [m, r], m) == [Match(r, rm)]
  {
    assert [m, r][..1] == [m];
    assert [m][..0] == [];
    assert Referrers(files, layoutPath, [m], m) == [];
  }
}
