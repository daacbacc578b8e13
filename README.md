# oci-viewer core, modelled in Dafny

oci-viewer inspects OCI image layouts. It walks a directory forest and finds
the layout roots. It loads each layout's index, with its image manifests and
nested indexes, and links every image to the referrers whose `subject` names
it. It also keeps a knowledge base from layer digests to the image names that
end in them, and uses it to name the layers and to summarise which base
layers the images of a tree share. A companion crawler (`fetch-tags` in Go,
`get-published-layers.py` in Python) fills that knowledge base from a
container registry's catalog, tag and manifest endpoints.

The project models this core, one Dafny module per source file:

| module | file | form |
|---|---|---|
| `Outcomes`, `Oci`, `GoStrings` | shared data, OCI descriptors and digests, Go `strings`/`filepath` helpers | datatypes and functions |
| `KnownTags` | `knowntags.go` | class `KnowledgeBase` over the global name map; grouping by tag as methods with loops |
| `OciUtils` | `ociutils.go` | manifest loading as a spec function and a method that updates the knowledge base; the history walk as a loop |
| `OciDist` | `ocidist.go` | the referrer scan as a loop proved against a spec function |
| `Layout` | `main.go` (`addContentsOfLayout`, `treeInfo`, `addOCILayoutNodes`) | classes `Viewer` and `TreeInfo`; a directory walk over a `Dir` value |
| `BaseLayers` | `main.go` (`summary` and the descendant-name resolver) | map-building loops, insertion sort, resolver as a function |
| `Registry` | `reg.go` | persistence over a `Disk` value; HTTP replies as `Reply` values; the prefix filter as nested loops |
| `Crawl` | `fetch.go`, `reg.go:186-230` | the goroutine fan-out as request sequences delivered in some order; the channel drains as loops |
| `Published` | `get-published-layers.py` | the Python crawler as functions and loops; the file rewrite as class `Files` |

Every result of a source operation is an `Outcomes.Result`: `Ok(value)`,
`Err(error)` for a Go `error` return, and `Panic` for a Go runtime panic
(index out of range, nil dereference, `log.Fatal`) or an uncaught Python
exception. Panics are modelled as outcomes, not excluded by preconditions.

Points where the code behaves in a way a reader might not expect, and
which the model follows:

- The summary rows are sorted by `sort.Reverse(byCount)`. Equal counts
  therefore come in DESCENDING order of the 7-character digest prefix, not
  ascending order of the full digest (`main.go:161-166, 305`).
- The name shortener splits the last path component on EVERY `:`. Only a
  name with exactly one `:` is tagged; anything else goes to the untagged
  group (`knowntags.go:36-41`).
- Referrer nodes carry the target's tag and hash, but only on a copy of the
  referrer's `ImageRef`; the stored image is not changed (`main.go:103-106`).
- When `getReferrersForImage` fails, the code logs the error and then
  dereferences the nil result. The model turns this into `Panic`
  (`main.go:95-100`).
- `getShortStringForNames` is not part of this model. A summary row holds
  the resolver's names as they are (`main.go:300`).
- The code names untagged images and artifacts by the top layer's hex
  (`dgst`, `ociutils.go:360, 377, 385`).
- Only an untagged image whose config is the empty config gets a file name
  (the title of its single layer); every other image keeps the empty file
  name (`ociutils.go:378-383`).
- `summary()` panics at `info.layerDigests[0]` (`main.go:229`) for any
  image whose load failed. Such an image keeps an empty layer list, yet it
  is still stored and listed (`main.go:73`). `BaseLayers.Summarize` and
  `BaseLayers.BuildMaps` panic exactly when some image has no layers.
- The Go and Python prefix filters differ. Go appends a repository once per
  matching prefix (`reg.go:113-118`). Python keeps it once if any prefix
  matches (`get-published-layers.py:21`). `Published.FiltersDiffer` and
  `Published.SameRepositories` state the difference and what the two
  filters share.

## Model

| member | source | states |
|---|---|---|
| Oci.Hex | main.go:57 | the hex part of a digest is the digest without its 7-character algorithm prefix; for "sha256:" digests, prefix + hex gives back the digest |
| Oci.FromDescriptor | ociutils.go:328-335 | fetching a blob succeeds exactly when its digest is in the store, yields that blob, and otherwise fails with the digest |
| KnownTags.NamesForHash | knowntags.go:52-60 | a known digest gives its stored names, an unknown one gives ["?"] |
| KnownTags.NamesNeverEmpty | knowntags.go:52-60 | while no stored list is empty, every digest resolves to at least one name |
| KnownTags.WithName | knowntags.go:92 | appending a name adds the digest to the keys, appends to that digest's list only, and keeps every list non-empty |
| KnownTags.MergedLookup | knowntags.go:91-93 | after merging entries, each digest's names are the old names followed by the entries' names for it, in entry order |
| KnownTags.MergedKeys | knowntags.go:91-93 | the merged map's keys are the old keys plus every entry's hash |
| KnownTags.MergedNoEmptyLists | knowntags.go:91-93 | merging never creates an empty name list |
| KnownTags.ClassifyAllAt | knowntags.go:34-42 | each name is classified on its own, position by position |
| KnownTags.TagOrderDistinct | knowntags.go:38-44 | the group keys are pairwise distinct |
| KnownTags.TagOrderMembers | knowntags.go:38-44 | a tag is a group key exactly when some name carries it |
| KnownTags.GroupsPartitionNames | knowntags.go:34-47 | the groups together hold every name exactly once: their sizes add up to the number of names |
| KnownTags.UntaggedUnlessOneColon | knowntags.go:35-41 | a base name with no ':' or with two or more goes, whole, into the untagged group |
| KnownTags.OneTagName | knowntags.go:35-38 | "dir/image:tag" is filed under tag as "image" |
| KnownTags.SharedTag | knowntags.go:34-47 | two images with the same tag form one group, rendered "{x,y}tag" |
| KnownTags.GroupByTag | knowntags.go:34-43 | the loop builds exactly the tag groups of the classified names, each in name order |
| KnownTags.RenderGroupsOf | knowntags.go:44-47 | the loop renders the groups key by key, in an order that visits every key exactly once, each as "{names joined by ','}tag" |
| KnownTags.ShortNames | knowntags.go:25-50 | one name is returned unchanged; otherwise the result renders the distinct tags' groups, each tag exactly once, in some order |
| KnownTags.RendersGroupsShape | knowntags.go:38-47 | a shortening has as many strings as distinct tags, holds every tag's rendered group, and nothing else |
| KnownTags.RepeatsNeedTwoTags | knowntags.go:44-47 | a string repeats in a shortening only when two different tags render to it |
| KnownTags.KnowledgeBase.constructor | knowntags.go:20 | the name map starts empty |
| KnownTags.KnowledgeBase.Append | knowntags.go:92 | the map becomes WithName of the old map |
| KnownTags.KnowledgeBase.MergeEntries | knowntags.go:91-93 | the map becomes the old map merged with the entries in order |
| KnownTags.KnowledgeBase.SetupWellKnownLayerNames | knowntags.go:74-94 | an unreadable file leaves the map unchanged; malformed JSON is fatal; parsed entries are merged |
| KnownTags.KnowledgeBase.ShortNamesForHash | knowntags.go:25-50 | the result is a shortening of the digest's names: the single name, or each distinct tag's rendered group exactly once |
| OciUtils.DisplayStringForMediaType | ociutils.go:129-140 | the three layer media types get their short labels, any other type is shown as is |
| OciUtils.LayerHexes | ociutils.go:363-366 | one hex digest per layer, in layer order |
| OciUtils.Naming | ociutils.go:368-396 | a tagged image is displayed and labelled by its tag |
| OciUtils.UntaggedNaming | ociutils.go:373-395 | an untagged image is named by its config media type: an image config or empty config gives the top layer's hex (image or artifact label), a Notary signature gives "Notary Signature <hash>", an index gives "Notary Signature Index", anything else its media type |
| OciUtils.FilenameFor | ociutils.go:378-383 | a file name is set only for an untagged image with the empty config and a single layer, and then it is the layer's title |
| OciUtils.ImageInfoFor | ociutils.go:315-399 | loading never returns an error value; the info keeps the ref and descriptor; a failed load has no layers and no config; a loaded image has its layers' hexes, is named and labelled from its tag or top layer, and has a file name only when untagged with the empty config |
| OciUtils.NotAnImageManifest | ociutils.go:322-326 | a non-manifest descriptor gives a failed info and tags no layer |
| OciUtils.DecodeFailures | ociutils.go:328-347 | a missing or undecodable manifest or config gives a failed info with no layers |
| OciUtils.NonImageConfig | ociutils.go:351-356 | a config that is not an image config is kept as the zero config, without failing |
| OciUtils.LoadedLayers | ociutils.go:358-366 | a loaded manifest's layers become the info's layer digests in order |
| OciUtils.NoLayersPanics | ociutils.go:359 | a manifest without layers makes the loader panic |
| OciUtils.TopLayerName | ociutils.go:358-361 | a loaded image with layers names its top layer with its tag; otherwise nothing is recorded |
| OciUtils.LoadImageManifest | ociutils.go:315-399 | the method returns ImageInfoFor and appends the top-layer name to the knowledge base exactly when there is one |
| OciUtils.SubIndexInfoFor | ociutils.go:289-313 | a readable nested index lists its manifests and is labelled with its tag and their number; otherwise the error is recorded and the list is empty |
| OciUtils.SubjectInfo | ociutils.go:90-102 | no subject gives nothing; a subject gives its hex digest with the label of the image it names when the viewer holds that image, otherwise "-" |
| OciUtils.NonEmptyCountBound | ociutils.go:215-241 | a prefix of the history has no more layer-making entries than the whole |
| OciUtils.HistoryRows | ociutils.go:215-242 | the walk panics exactly when more history entries make layers than there are layers; otherwise one row per entry, paired with the right layer |
| OciDist.BlobPath | ocidist.go:19-25 | a blob path exists exactly when the digest has a ':'; otherwise the error names the digest |
| OciDist.BlobPathSplitsDigest | ocidist.go:20-25 | "algo:hex" maps to layout/blobs/algo/hex |
| OciDist.ManifestBlob | ocidist.go:49-57 | reading a candidate manifest never panics |
| OciDist.Match | ocidist.go:64-69 | a referrer descriptor keeps the media type, digest and size and takes the manifest's artifact type |
| OciDist.Recorded | ocidist.go:44-71 | a descriptor is recorded exactly when it is another image manifest whose decoded manifest has the image as subject |
| OciDist.GetReferrersForImage | ocidist.go:35-76 | no index gives an error; otherwise the scan returns an image index of exactly the recorded referrers, in index order |
| OciDist.ScanEntry | ocidist.go:45-71 | an examined entry whose blob cannot be read or decoded is an error; otherwise the entry's record, which is a referrer exactly when the subject is the image |
| OciDist.ReferrersMembers | ocidist.go:44-71 | a descriptor is among the referrers exactly when some index entry is recorded as it |
| OciDist.NotItsOwnReferrer | ocidist.go:45 | an image is never listed among its own referrers |
| OciDist.OneReferrer | ocidist.go:44-71 | an index of an image and one manifest referring to it yields exactly that referrer |
| Layout.RefFor | main.go:57-66 | a top-level image's ref has the layout path, the digest's hex and the annotated tag, and no target |
| Layout.LoadedImagesInOrder | main.go:56-87 | the loaded images are the image descriptors' infos, one per descriptor, in index order |
| Layout.LoadedRefsUntargeted | main.go:104-106 | no loaded image's ref carries a referrer target |
| Layout.StoreImagesLookup | main.go:71 | an image hash is stored exactly when it was stored before or some loaded image has it; the last such image wins |
| Layout.LookupLeaf | main.go:124-125 | a descriptor shows the stored image's label and ref, or an empty leaf when the image is unknown |
| Layout.ReferrerLeaf | main.go:103-106 | a referrer leaf is the stored image's leaf with the target's tag and hash filled in |
| Layout.ReferrerLeaves | main.go:100-113 | one referrer leaf per descriptor, in order |
| Layout.MemberLeaves | main.go:123-131 | one leaf per sub-index member, in order |
| Layout.OneFailureSuffices | main.go:95-100 | one image whose referrers cannot be listed makes the whole node list unbuildable |
| Layout.LayoutNotDescended | main.go:323-335 | a layout directory counts as one layout and contributes only its own images |
| Layout.NoLayoutNoImages | main.go:342-359 | a tree without layouts yields no images |
| Layout.TreeInfo.constructor | main.go:138-143 | the fields are the given ones |
| Layout.TreeInfo.Update | main.go:145-149 | counts add up, image lists concatenate, path and sub-indexes stay |
| Layout.Viewer.constructor | ociutils.go:125-127 | the image and sub-index tables start empty |
| Layout.Viewer.LoadEntry | main.go:57-85 | one index entry is loaded as an image or a nested index, stored, and its top layer named |
| Layout.Viewer.LoadTopLevel | main.go:56-87 | the loop panics exactly when some image load panics; otherwise it returns all loaded images and nested indexes, stores them, and merges their top-layer names |
| Layout.Viewer.ImageNodeOf | main.go:92-114 | an image node panics exactly when the image's referrers cannot be listed |
| Layout.Viewer.ImageNodes | main.go:89-116 | the node list panics exactly when some image's referrers cannot be listed; otherwise it is the nodes of all images in order |
| Layout.Viewer.ReferrerNodes | main.go:100-113 | the referrer children are ReferrerLeaves |
| Layout.Viewer.SubIndexNodes | main.go:118-133 | the sub-index nodes list each nested index with its member leaves |
| Layout.Viewer.AddContentsOfLayout | main.go:37-136 | an unopenable layout or unreadable index yields nothing; it panics exactly when an image load panics or an image's referrers cannot be listed; otherwise the layout's images and nested indexes are loaded, stored and named |
| Layout.Viewer.AddOCILayoutNodes | main.go:319-361 | the walk panics exactly when some layout below panics or some directory below cannot be listed; otherwise the tree info has the root path, the number of layouts below, exactly the images found under it, and a node only when a layout was found, and the viewer has stored every image and nested index found and named every image's top layer |
| Layout.Viewer.AddEntries | main.go:342-353 | the loop over a listed directory's entries panics exactly when some subdirectory's walk panics; otherwise it sums the entries' layout counts, concatenates their images and records everything found, in entry order |
| Layout.Viewer.WalkEntry | main.go:347-352 | a file entry changes nothing; a subdirectory adds its walk's count, images and records, and yields a node exactly when a layout lies below it |
| Layout.EntriesPanicGrows | main.go:346-353 | once one subdirectory's walk panics, the walk of the whole directory panics |
| Layout.ComposeRecords | main.go:352 | recording one batch of images and nested indexes and then another is recording the two batches in sequence |
| Layout.WalkDone | main.go:337-359 | a listed directory's count, images, nested indexes and panics are those of its entries in order |
| BaseLayers.ResolverStops | main.go:186-209 | several names come back unchanged, one real name gets an asterisk, an unknown digest with zero or several children gives ["?"] |
| BaseLayers.ResolverFollowsUniqueChild | main.go:199-204 | an unnamed digest with exactly one other child resolves through that child |
| BaseLayers.CycleNeverEnds | main.go:199-204 | the resolver as written never ends on a cycle of unnamed single-child digests |
| BaseLayers.WalkBackNeverEnds | main.go:199-204 | a walk that comes back to a digest it passed never ends |
| BaseLayers.GuardAgrees | main.go:199-204 | the guarded walk equals the unguarded walk when that one ends |
| BaseLayers.ResolverAgrees | main.go:168-211 | wherever the resolver as written ends, the guarded resolver returns the same names |
| BaseLayers.RepeatedLayerLoops | main.go:199-204 | once an image tagged "?" with layers [a, a] is loaded and nothing else names a, the resolver as written loops on a; the guarded one returns ["?"] |
| BaseLayers.TagNamesTop | ociutils.go:358-361 | loading an image with any tag other than "?", the empty one included, leaves its top layer named |
| BaseLayers.ChainWalkEnds | main.go:199-204 | from any layer of an image whose top layer is named, the resolver as written ends within as many calls as there are layers above |
| BaseLayers.NamedTopResolves | main.go:186-209 | for an image whose top layer is named, the resolver as written ends on its base layer and agrees there with the guarded one |
| BaseLayers.RowsAsWritten | main.go:280-300 | when every image's top layer is named, each summary row holds the names the resolver as written returns for its base |
| BaseLayers.AddBasesUsers | main.go:227-230 | each base layer's users are exactly the labels of the images starting from it, in image order |
| BaseLayers.AddBasesKeys | main.go:229-230 | a digest is a base exactly when some image starts with it |
| BaseLayers.ChainEdgesNoDuplicates | main.go:237-247 | adding an image's consecutive layer pairs never duplicates a child |
| BaseLayers.AllEdgesNoDuplicates | main.go:231-248 | no child list of the adjacency holds a digest twice |
| BaseLayers.ChainEdgesMembers | main.go:231-248 | c becomes a child of d exactly when it already was or d is followed by c in the chain |
| BaseLayers.AllEdgesMembers | main.go:231-248 | c is a child of d exactly when d is followed by c in some image |
| BaseLayers.InternalNamesKeys | main.go:249-254 | every name other than "?" of a layer is recorded |
| BaseLayers.ChainNamesKeys | main.go:231-254 | a name is recorded exactly when some non-top layer of the image carries it |
| BaseLayers.AllNamesKeys | main.go:226-256 | a name is recorded exactly when some non-top layer of some image carries it |
| BaseLayers.Digest7 | main.go:281-285 | the displayed digest is a prefix of at most 7 characters |
| BaseLayers.ByCountLessTransitive | main.go:161-166 | the row order is transitive |
| BaseLayers.ByCountLessTotal | main.go:161-166 | rows neither less than the other have equal counts and digest prefixes |
| BaseLayers.Insert | main.go:305 | insertion keeps the rows as a multiset |
| BaseLayers.InsertSorted | main.go:305 | insertion keeps the rows sorted |
| BaseLayers.SortByCountDescending | main.go:305 | the result is sorted by descending count and then descending digest prefix, and is a permutation of the input |
| BaseLayers.SortedOrder | main.go:161-166 | in sorted rows, counts do not increase, and equal counts have non-increasing digest prefixes |
| BaseLayers.JoinUsers | main.go:287-293 | the users are joined with ", " |
| BaseLayers.Rows | main.go:280-304 | one row per base layer, each row the row of some base, and every base's row present |
| BaseLayers.BuildMaps | main.go:226-256 | the loop panics exactly when some image has no layers; otherwise it builds the base map, the adjacency and the internal names |
| BaseLayers.ChainStep | main.go:231-255 | one image's chain adds its edges and internal names |
| BaseLayers.HasChild | main.go:237-243 | the flag is set exactly when the next layer is already among the children |
| BaseLayers.AddNames | main.go:249-254 | the loop appends the image's label under each of the layer's names except "?", as AddInternalNames does |
| BaseLayers.Summarize | main.go:213-317 | the summary's maps are those of the images, and the rows are one per base, sorted |
| Registry.WriteFile | reg.go:40 | writing a read-only file fails; otherwise only that file changes |
| Registry.Save | reg.go:26-41 | no entries is an error, checked before an empty file name; otherwise the entries are written |
| Registry.Load | reg.go:43-56 | an empty name, an unreadable file or undecodable contents are errors; a success returns what the file holds |
| Registry.SaveThenLoad | reg.go:26-56 | loading what was saved gives back the same entries; merging them appends each digest's names |
| Registry.ImageNames | reg.go:58-64 | the loop yields exactly the set of the entries' names |
| Registry.ImageNamesMembers | reg.go:58-64 | a name is in that set exactly when some entry has it |
| Registry.Fetch | reg.go:124-143 | a reply is decoded only when the status is 200 and the body decodes; another status is a bad-status error |
| Registry.NewReg | reg.go:80-85 | the prefixes are the comma-separated pieces: one more than the commas, none holding a comma |
| Registry.EmptyPrefixesKeepAll | reg.go:80-85 | an empty prefix argument yields [""], which keeps every repository |
| Registry.FilterMultiplicity | reg.go:113-118 | each repository appears in the filtered list once per prefix it starts with |
| Registry.AppendMatches | reg.go:114-118 | the inner loop appends the repository once per prefix it starts with, in prefix order |
| Registry.GetRepoList | reg.go:87-122 | a failed catalog fetch is returned; no prefixes keep the catalog; otherwise the nested loops keep each repository once per matching prefix |
| Registry.GetLayerNameEntry | reg.go:145-174 | fetch errors are returned; a manifest with no layers panics; otherwise the entry is the top layer's hex under "repo:tag" |
| Registry.EntryNameSplits | reg.go:170 | an entry's name splits back into its repository and tag |
| Crawl.Collected | fetch.go:47-56 | a successful drain holds one value per arrival |
| Crawl.CollectedOk | fetch.go:47-56 | the drain succeeds with values vs exactly when every arrival is Ok with those values in order |
| Crawl.CollectedStopsAtFirstFailure | fetch.go:47-51 | the drain returns the first failed arrival's error |
| Crawl.Drain | fetch.go:47-56 | the receive loop computes Collected of the arrivals |
| Crawl.CollectedPermutation | fetch.go:44-56 | arrival order changes neither whether the drain succeeds nor the multiset of values |
| Crawl.OksPermutation | fetch.go:55 | the same multiset of Ok results holds the same multiset of values |
| Crawl.RepoRequests | reg.go:191-202 | one tag-list request per listed repository |
| Crawl.TagRequestsOf | reg.go:214-224 | one manifest request per tag of a repository |
| Crawl.TagRequests | reg.go:209-230 | one manifest request per tag of all repositories |
| Crawl.TagRequestsPermutation | reg.go:209-230 | the repositories' order changes only the order of the manifest requests |
| Crawl.SumTags | fetch.go:58-61 | the loop counts all tags |
| Crawl.DoFetchTags | fetch.go:11-92 | no registry does nothing; a catalog, tag-list or manifest failure is returned; otherwise exactly one entry per tag is saved, and zero tags is the no-entries error |
| Crawl.CrawlOrderIndependent | fetch.go:44-91 | whatever the arrival order, the saved entries are, as a multiset, those of the requests made in catalog order |
| Published.MatchingRepos | get-published-layers.py:21 | the filtered list is never longer than the catalog |
| Published.MatchingMembers | get-published-layers.py:21 | a repository is kept exactly when it is in the catalog and some prefix matches it |
| Published.MatchingOnce | get-published-layers.py:21 | each matching repository is kept as often as it occurs, however many prefixes match |
| Published.FiltersDiffer | get-published-layers.py:21 | the Python filter keeps ["ab"] under prefixes a and ab where the Go filter gives ["ab","ab"] |
| Published.SameRepositories | get-published-layers.py:21 | the Python and Go filters keep the same set of repositories |
| Published.Slice7 | get-published-layers.py:41 | the slice drops the first 7 characters, and is empty for shorter strings |
| Published.TagInfo | get-published-layers.py:33-42 | known or "commit" tags are skipped; a failed or layerless manifest raises; a tag that is not skipped and whose manifest has layers gives the record of the top layer's hash under "image:tag", and every record is of that form |
| Published.TagInfosComplete | get-published-layers.py:32-42 | when no exception stops a repository's loop, every tag that is not skipped is recorded with its top layer's hash |
| Published.InfosComplete | get-published-layers.py:25-43 | when no exception stops the crawl, every tag that is not skipped, of every matching repository, is recorded |
| Published.InfosNeverErr | get-published-layers.py:16-44 | the crawl either raises or succeeds |
| Published.TagInfosFresh | get-published-layers.py:33-36 | every new entry is an "image:tag" of a listed tag that is neither known nor a "commit" tag |
| Published.InfosFresh | get-published-layers.py:33-36 | no new entry repeats a known image name |
| Published.InfosStop | get-published-layers.py:25-43 | an exception in a repository ends the whole crawl |
| Published.TagInfosStop | get-published-layers.py:32-43 | an exception on a tag ends the repository's crawl |
| Published.GetInfoMatchingPrefixes | get-published-layers.py:16-44 | a failed catalog raises; otherwise the loops compute the infos of the matching repositories |
| Published.TagLoop | get-published-layers.py:32-43 | the tag loop computes TagInfos |
| Published.MatchingReposOf | get-published-layers.py:21 | the comprehension computes MatchingRepos |
| Published.Files.constructor | get-published-layers.py:58 | the files are the given ones |
| Published.Files.Copy | get-published-layers.py:66 | copying to a read-only file fails and changes nothing; otherwise only the destination changes |
| Published.Files.Write | get-published-layers.py:68-69 | writing a read-only file fails and changes nothing; otherwise only that file changes |
| Published.Files.UpdateLayersFile | get-published-layers.py:47-71 | an unreadable input or a failed crawl changes nothing; otherwise the dated backup holds the old contents and the input holds the new entries followed by the old |
| Published.RewriteKeepsOld | get-published-layers.py:60-64 | the rewritten list ends with the old entries, and no new entry shares a name with an old one |

## Left out

- The terminal interface (tview tree, search, key handling), the tables and
  text the summary prints, and the progress bars. They hold no domain logic.
  A progress bar's `Add` error in `fetch.go:52-54, 85-87` is not modelled.
- HTTP and JSON. Each request is a `Reply` value (transport failure, or a
  status and a body that decodes or not). Each file is a `FileContents`
  value. The registry and disk contents are parameters.
- Goroutines, semaphores and channels in `reg.go:186-230`. The requests are
  modelled as sequences, and the environment delivers them in some order
  (`Crawl.Delivered`, a multiset equality). `Crawl.DoFetchTags` requires
  that order. A panic inside a worker goroutine is modelled as a `Panic`
  result arriving in the channel, not as the whole process stopping.
- Crawl.DoFetchTags: the early return on the first error does not model
  the goroutines that are still blocked sending on the channel.
- `filepath.Join` path cleaning. `Oci.JoinPath` concatenates with "/".
- `getKnowLayersFilename`, `makeCacheDir`, `getUserOrSudoUserHomedir`, the
  command line and `main`. The known-layers file is a parameter.
- Go's `[7:]` on a digest shorter than 7 characters would panic. Digests are
  the subtype `Oci.DigestString` (at least 7 characters), so that panic is
  not modelled.
- Logging (`log.Printf`) and Python's `print`.
- Published.RepoInfos: a tag list that is JSON `null`, which the Python
  crawler's loop over the tags (`get-published-layers.py:31-32`) cannot
  iterate, is not modelled; tags are always a list.
- Published.Files.UpdateLayersFile: `date.today()` is a parameter. The
  contents of the JSON written are the entry list, not its bytes.
- BaseLayers.Rows: Go map iteration order is unspecified. The rows are
  stated as one per base in some order, and only the sorted result is
  ordered.
- KnownTags.ShortNames: the order of the groups is unspecified in Go
  (map iteration). The model states which groups there are, not their
  order.
- `getShortStringForNames` is not part of this model.
- BaseLayers.Summarize: the rows use the resolver with a guard against
  walking in a circle, which the code lacks (see Findings). The two agree
  wherever the code's resolver ends (`BaseLayers.ResolverAgrees`), and it
  always ends on the base of an image whose top layer is named
  (`BaseLayers.RowsAsWritten`), which loading guarantees for every tag but
  "?" (`BaseLayers.TagNamesTop`). The name map is a parameter of
  `Summarize`; the model does not derive it from the images' loading.
- Layout.Viewer.AddOCILayoutNodes: a directory's entries are walked in the
  order the `Dir` value lists them. `ioutil.ReadDir` sorts them by name
  (`main.go:337`); the model does not impose that order, and its contracts
  hold for any order, the sorted one included.

## Findings

| source | as written | input that shows it | evidently intended | confidence | as-written member | corrected member |
|---|---|---|---|---|---|---|
| main.go:199-204 | the resolver follows a digest's only child with no record of the digests already visited | an image whose ref-name annotation is "?" and whose layers are [A, A], with no other name for A: loading it records A's names as ["?"], A's only child is A, so the call recurses on A for ever | stop at a digest already visited and return its names | not executed | BaseLayers.RepeatedLayerLoops | BaseLayers.ResolverAgrees |
