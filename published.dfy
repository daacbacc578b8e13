/** The maintenance script `get-published-layers.py`: it crawls a registry
    for the top layers of images whose repository starts with one of the
    prefixes, skipping images already in the layers file and `commit*`
    tags, and rewrites the file with the new records in front of the old
    ones after keeping a dated copy.  Replies are given as values; any
    exception ends the script. */
module Published {
  import opened Outcomes
  import opened GoStrings
  import opened KnownTags
  import opened Registry

  /** What a request and `.json()` plus the key lookups give: a value, or an
      exception (a reply that is not JSON, a missing key). */
  datatype Py<T> = Raises | Value(v: T)

  /** A tags-list reply: the image name it reports and its tags. */
  datatype TagsReply = TagsReply(name: string, tags: seq<string>)

  // ---------------------------------------------------------------------
  // Matching repositories

  /** The comprehension `[r for r in repos if any(r.startswith(p) ...)]`. */
  function MatchingRepos(repos: seq<string>, prefixes: seq<string>): (m: seq<string>)
    ensures |m| <= |repos|
  {
    if repos == [] then []
    else
      var last := repos[|repos| - 1];
      MatchingRepos(repos[..|repos| - 1], prefixes) + (if MatchCount(last, prefixes) > 0 then [last] else [])
  }

  /** `any` keeps each catalog entry at most once, however many prefixes it
      starts with. */
  lemma {:induction false} MatchingOnce(repos: seq<string>, prefixes: seq<string>, x: string)
    ensures Occurrences(MatchingRepos(repos, prefixes), x) == if MatchCount(x, prefixes) > 0 then Occurrences(repos, x) else 0
  {
    if repos != [] {
      var n := |repos| - 1;
      MatchingOnce(repos[..n], prefixes, x);
      assert repos == repos[..n] + [repos[n]];
      OnceStep(MatchingRepos(repos[..n], prefixes), MatchingRepos(repos, prefixes), repos[..n], repos[n],
               MatchCount(repos[n], prefixes) > 0, x, MatchCount(x, prefixes) > 0);
    }
  }

  /** A repository is kept exactly when it is in the catalog and some prefix
      matches it. */
  lemma MatchingMembers(repos: seq<string>, prefixes: seq<string>, x: string)
    ensures x in MatchingRepos(repos, prefixes) <==> x in repos && MatchCount(x, prefixes) > 0
  {
    MatchingOnce(repos, prefixes, x);
    assert x in repos <==> Occurrences(repos, x) > 0;
    assert x in MatchingRepos(repos, prefixes) <==> Occurrences(MatchingRepos(repos, prefixes), x) > 0;
  }

  /** The induction step of `MatchingOnce`, over any kept list `m0` of
      `r0` and one more entry `y`. */
  lemma OnceStep(m0: seq<string>, m: seq<string>, r0: seq<string>, y: string, keep: bool, x: string, c: bool)
    requires Occurrences(m0, x) == if c then Occurrences(r0, x) else 0
    requires m == m0 + (if keep then [y] else [])
    requires y == x ==> (keep <==> c)
    ensures Occurrences(m, x) == if c then Occurrences(r0 + [y], x) else 0
  {
    OccurrencesAppend(m0, y, keep, x);
    OccurrencesAppend(r0, y, true, x);
  }

  /** Appending `y` (when `keep`) adds one occurrence of `x` exactly when
      `y` is `x`. */
  lemma OccurrencesAppend(s: seq<string>, y: string, keep: bool, x: string)
    ensures Occurrences(s + (if keep then [y] else []), x) == Occurrences(s, x) + (if keep && y == x then 1 else 0)
  {
    if keep {
      assert multiset(s + [y]) == multiset(s) + multiset{y};
    } else {
      assert s + [] == s;
    }
  }

  /** The script and the viewer's crawl keep the same repositories, but the
      viewer keeps one copy per matching prefix: with prefixes `a` and `ab`
      it lists `ab` twice where the script lists it once. */
  lemma FiltersDiffer()
    ensures MatchingRepos(["ab"], ["a", "ab"]) == ["ab"]
    ensures FilterByPrefixes(["ab"], ["a", "ab"]) == ["ab", "ab"]
  {
    assert ["a", "ab"][..1] == ["a"];
    assert ["a"][..0] == [];
    assert "a" <= "ab";
    assert MatchCount("ab", ["a"]) == 1;
    assert MatchCount("ab", ["a", "ab"]) == 2;
    assert ["ab"][..0] == [];
    assert Matches("ab", ["a"]) == ["ab"];
    assert Matches("ab", ["a", "ab"]) == ["ab", "ab"];
  }

  /** Both filters keep the same set of repositories. */
  lemma SameRepositories(repos: seq<string>, prefixes: seq<string>, x: string)
    ensures x in MatchingRepos(repos, prefixes) <==> x in FilterByPrefixes(repos, prefixes)
  {
    FilterMultiplicity(repos, prefixes, x);
    MatchingOnce(repos, prefixes, x);
    ProductPositive(Occurrences(repos, x), MatchCount(x, prefixes));
    assert x in repos <==> Occurrences(repos, x) > 0;
    assert x in MatchingRepos(repos, prefixes) <==> Occurrences(MatchingRepos(repos, prefixes), x) > 0;
    assert x in FilterByPrefixes(repos, prefixes) <==> Occurrences(FilterByPrefixes(repos, prefixes), x) > 0;
  }

  lemma ProductPositive(a: nat, b: nat)
    ensures a * b > 0 <==> a > 0 && b > 0
  {
    if a > 0 && b > 0 {
      assert a * b >= b;
    }
  }

  // ---------------------------------------------------------------------
  // Records

  /** Python's `digest[7:]`: never raises; a digest of seven characters or
      fewer gives the empty string. */
  function Slice7(d: string): (h: string)
    ensures |d| <= 7 ==> h == ""
    ensures 7 < |d| ==> d == d[..7] + h
  {
    if |d| <= 7 then "" else d[7..]
  }

  /** A tag is skipped when the image is already in the file or the tag
      names a commit build. */
  predicate Skipped(imageName: string, tag: string, existing: set<string>)
  {
    imageName + ":" + tag in existing || "commit" <= tag
  }

  /** The inner loop body for one tag: skipped, a record for the top layer,
      or an exception (an unreadable manifest, an empty layer list). */
  function TagInfo(manifests: (string, string) -> Py<seq<string>>, repo: string, imageName: string,
                   tag: string, existing: set<string>): (r: Result<Option<LayerNameEntry>>)
    ensures Skipped(imageName, tag, existing) ==> r == Ok(None)
    ensures !Skipped(imageName, tag, existing) && manifests(repo, tag).Raises? ==> r.Panic?
    ensures !Skipped(imageName, tag, existing) && manifests(repo, tag).Value? && manifests(repo, tag).v == [] ==> r.Panic?
    ensures r.Ok? && r.value.Some? ==>
      var layers := manifests(repo, tag).v;
      !Skipped(imageName, tag, existing) && layers != []
      && r.value.value == LayerNameEntry(Slice7(layers[|layers| - 1]), imageName + ":" + tag)
    ensures !Skipped(imageName, tag, existing) && manifests(repo, tag).Value? && manifests(repo, tag).v != [] ==>
      var layers := manifests(repo, tag).v;
      r == Ok(Some(LayerNameEntry(Slice7(layers[|layers| - 1]), imageName + ":" + tag)))
    ensures !r.Err?
  {
    if Skipped(imageName, tag, existing) then Ok(None)
    else match manifests(repo, tag)
      case Raises => Panic
      case Value(layers) =>
        if layers == [] then Panic
        else Ok(Some(LayerNameEntry(Slice7(layers[|layers| - 1]), imageName + ":" + tag)))
  }

  /** The records of one repository's tags, in tag order, or the exception
      that stopped the loop. */
  function TagInfos(manifests: (string, string) -> Py<seq<string>>, repo: string, imageName: string,
                    tags: seq<string>, existing: set<string>): Result<seq<LayerNameEntry>>
  {
    if tags == [] then Ok([])
    else
      var prev := TagInfos(manifests, repo, imageName, tags[..|tags| - 1], existing);
      var x := TagInfo(manifests, repo, imageName, tags[|tags| - 1], existing);
      if !prev.Ok? then prev
      else if !x.Ok? then Panic
      else if x.value.Some? then Ok(prev.value + [x.value.value])
      else prev
  }

  /** The records of a repository: its tags list, then each tag. */
  function RepoInfos(tagsList: string -> Py<TagsReply>, manifests: (string, string) -> Py<seq<string>>,
                     repo: string, existing: set<string>): Result<seq<LayerNameEntry>>
  {
    match tagsList(repo)
    case Raises => Panic
    case Value(t) => TagInfos(manifests, repo, t.name, t.tags, existing)
  }

  /** The records of all the matching repositories, in order. */
  function Infos(tagsList: string -> Py<TagsReply>, manifests: (string, string) -> Py<seq<string>>,
                 repos: seq<string>, existing: set<string>): Result<seq<LayerNameEntry>>
  {
    if repos == [] then Ok([])
    else
      var prev := Infos(tagsList, manifests, repos[..|repos| - 1], existing);
      if !prev.Ok? then prev
      else
        var more := RepoInfos(tagsList, manifests, repos[|repos| - 1], existing);
        if !more.Ok? then more else Ok(prev.value + more.value)
  }

  /** Only an exception stops the crawl: it never ends in an ordinary
      error. */
  lemma {:induction false} InfosNeverErr(tagsList: string -> Py<TagsReply>, manifests: (string, string) -> Py<seq<string>>,
                                         repos: seq<string>, existing: set<string>)
    ensures !Infos(tagsList, manifests, repos, existing).Err?
  {
    if repos != [] {
      InfosNeverErr(tagsList, manifests, repos[..|repos| - 1], existing);
      var r := repos[|repos| - 1];
      if tagsList(r).Value? {
        TagInfosNeverErr(manifests, r, tagsList(r).v.name, tagsList(r).v.tags, existing);
      }
    }
  }

  lemma {:induction false} TagInfosNeverErr(manifests: (string, string) -> Py<seq<string>>, repo: string, imageName: string,
                                            tags: seq<string>, existing: set<string>)
    ensures !TagInfos(manifests, repo, imageName, tags, existing).Err?
  {
    if tags != [] {
      TagInfosNeverErr(manifests, repo, imageName, tags[..|tags| - 1], existing);
    }
  }

  /** No record is emitted for an image already in the file or for a
      `commit*` tag, so a rerun never repeats a name that is already
      there. */
  lemma {:induction false} TagInfosFresh(manifests: (string, string) -> Py<seq<string>>, repo: string, imageName: string,
                                         tags: seq<string>, existing: set<string>)
    requires TagInfos(manifests, repo, imageName, tags, existing).Ok?
    ensures forall e :: e in TagInfos(manifests, repo, imageName, tags, existing).value ==>
      e.name !in existing && exists t :: t in tags && e.name == imageName + ":" + t && !("commit" <= t)
  {
    if tags != [] {
      var n := |tags| - 1;
      TagInfosFresh(manifests, repo, imageName, tags[..n], existing);
      forall e | e in TagInfos(manifests, repo, imageName, tags, existing).value
        ensures e.name !in existing && exists t :: t in tags && e.name == imageName + ":" + t && !("commit" <= t)
      {
        if e in TagInfos(manifests, repo, imageName, tags[..n], existing).value {
          var t :| t in tags[..n] && e.name == imageName + ":" + t && !("commit" <= t);
          assert t in tags;
        } else {
          assert tags[n] in tags;
        }
      }
    }
  }

  /** Conversely, when no exception stops the loop, every tag that is not
      skipped gets the record of its manifest's top layer. */
  lemma {:induction false} TagInfosComplete(manifests: (string, string) -> Py<seq<string>>, repo: string, imageName: string,
                                            tags: seq<string>, existing: set<string>, t: string)
    requires TagInfos(manifests, repo, imageName, tags, existing).Ok?
    requires t in tags && !Skipped(imageName, t, existing)
    ensures manifests(repo, t).Value? && manifests(repo, t).v != []
    ensures var layers := manifests(repo, t).v;
            LayerNameEntry(Slice7(layers[|layers| - 1]), imageName + ":" + t)
              in TagInfos(manifests, repo, imageName, tags, existing).value
  {
    var n := |tags| - 1;
    var prev := TagInfos(manifests, repo, imageName, tags[..n], existing);
    var x := TagInfo(manifests, repo, imageName, tags[n], existing);
    assert prev.Ok? && x.Ok?;
    if t in tags[..n] {
      TagInfosComplete(manifests, repo, imageName, tags[..n], existing, t);
    } else {
      assert t == tags[n];
    }
  }

  /** Every tag that is not skipped, of every matching repository whose
      tags list was read, is recorded when no exception stops the crawl. */
  lemma {:induction false} InfosComplete(tagsList: string -> Py<TagsReply>, manifests: (string, string) -> Py<seq<string>>,
                                         repos: seq<string>, existing: set<string>, repo: string, t: string)
    requires Infos(tagsList, manifests, repos, existing).Ok?
    requires repo in repos
    ensures tagsList(repo).Value?
    ensures var tr := tagsList(repo).v;
            t in tr.tags && !Skipped(tr.name, t, existing) ==>
              manifests(repo, t).Value? && manifests(repo, t).v != []
              && var layers := manifests(repo, t).v;
                 LayerNameEntry(Slice7(layers[|layers| - 1]), tr.name + ":" + t)
                   in Infos(tagsList, manifests, repos, existing).value
  {
    var n := |repos| - 1;
    var prev := Infos(tagsList, manifests, repos[..n], existing);
    var more := RepoInfos(tagsList, manifests, repos[n], existing);
    assert prev.Ok? && more.Ok?;
    if repo in repos[..n] {
      InfosComplete(tagsList, manifests, repos[..n], existing, repo, t);
    } else {
      assert repo == repos[n];
      var tr := tagsList(repo).v;
      if t in tr.tags && !Skipped(tr.name, t, existing) {
        TagInfosComplete(manifests, repo, tr.name, tr.tags, existing, t);
      }
    }
  }

  lemma {:induction false} InfosFresh(tagsList: string -> Py<TagsReply>, manifests: (string, string) -> Py<seq<string>>,
                                      repos: seq<string>, existing: set<string>)
    requires Infos(tagsList, manifests, repos, existing).Ok?
    ensures forall e :: e in Infos(tagsList, manifests, repos, existing).value ==> e.name !in existing
  {
    if repos != [] {
      var r := repos[|repos| - 1];
      InfosFresh(tagsList, manifests, repos[..|repos| - 1], existing);
      var t := tagsList(r).v;
      TagInfosFresh(manifests, r, t.name, t.tags, existing);
    }
  }

  /** `getInfoMatchingPrefixes` after the catalog is read: the loop over
      the matching repositories, appending each one's records to `infos`;
      an exception stops it. */
  method GetInfoMatchingPrefixes(catalog: Py<seq<string>>, tagsList: string -> Py<TagsReply>,
                                 manifests: (string, string) -> Py<seq<string>>,
                                 prefixes: seq<string>, existing: set<string>)
    returns (r: Result<seq<LayerNameEntry>>)
    ensures catalog.Raises? ==> r.Panic?
    ensures catalog.Value? ==> r == Infos(tagsList, manifests, MatchingRepos(catalog.v, prefixes), existing)
  {
    if catalog.Raises? {
      return Panic;
    }
    var matching := MatchingReposOf(catalog.v, prefixes);
    var infos: seq<LayerNameEntry> := [];
    var i := 0;
    while i < |matching|
      invariant 0 <= i <= |matching|
      invariant Infos(tagsList, manifests, matching[..i], existing) == Ok(infos)
    {
      assert matching[..i + 1][..i] == matching[..i];
      var repo := matching[i];
      var tr := tagsList(repo);
      var more: Result<seq<LayerNameEntry>>;
      if tr.Raises? {
        more := Panic;
      } else {
        more := TagLoop(manifests, repo, tr.v.name, tr.v.tags, existing);
        TagInfosNeverErr(manifests, repo, tr.v.name, tr.v.tags, existing);
      }
      assert more == RepoInfos(tagsList, manifests, repo, existing);
      assert matching[..i + 1][..i] == matching[..i] && matching[..i + 1][i] == repo;
      assert Infos(tagsList, manifests, matching[..i + 1], existing)
          == if more.Ok? then Ok(infos + more.value) else more;
      if !more.Ok? {
        InfosStop(tagsList, manifests, matching, existing, i + 1);
        return Panic;
      }
      infos := infos + more.value;
      i := i + 1;
    }
    assert matching[..i] == matching;
    return Ok(infos);
  }

  /** The inner loop over one repository's tags. */
  method TagLoop(manifests: (string, string) -> Py<seq<string>>, repo: string, imageName: string,
                 tags: seq<string>, existing: set<string>) returns (r: Result<seq<LayerNameEntry>>)
    ensures r == TagInfos(manifests, repo, imageName, tags, existing)
  {
    var infos: seq<LayerNameEntry> := [];
    var j := 0;
    while j < |tags|
      invariant 0 <= j <= |tags|
      invariant TagInfos(manifests, repo, imageName, tags[..j], existing) == Ok(infos)
    {
      assert tags[..j + 1][..j] == tags[..j];
      var x := TagInfo(manifests, repo, imageName, tags[j], existing);
      if !x.Ok? {
        TagInfosStop(manifests, repo, imageName, tags, existing, j + 1);
        return Panic;
      }
      if x.value.Some? {
        infos := infos + [x.value.value];
      }
      j := j + 1;
    }
    assert tags[..j] == tags;
    return Ok(infos);
  }

  /** The comprehension, written as the loop it stands for. */
  method MatchingReposOf(repos: seq<string>, prefixes: seq<string>) returns (m: seq<string>)
    ensures m == MatchingRepos(repos, prefixes)
  {
    m := [];
    var i := 0;
    while i < |repos|
      invariant 0 <= i <= |repos|
      invariant m == MatchingRepos(repos[..i], prefixes)
    {
      assert repos[..i + 1][..i] == repos[..i];
      var any := false;
      var k := 0;
      while k < |prefixes|
        invariant 0 <= k <= |prefixes|
        invariant any <==> MatchCount(repos[i], prefixes[..k]) > 0
      {
        assert prefixes[..k + 1][..k] == prefixes[..k];
        any := any || prefixes[k] <= repos[i];
        k := k + 1;
      }
      assert prefixes[..k] == prefixes;
      if any {
        m := m + [repos[i]];
      }
      i := i + 1;
    }
    assert repos[..i] == repos;
  }

  /** An exception among the first `j` repositories ends the whole crawl
      with it. */
  lemma {:induction false} InfosStop(tagsList: string -> Py<TagsReply>, manifests: (string, string) -> Py<seq<string>>,
                                     repos: seq<string>, existing: set<string>, j: nat)
    requires j <= |repos| && Infos(tagsList, manifests, repos[..j], existing).Panic?
    ensures Infos(tagsList, manifests, repos, existing).Panic?
    decreases |repos| - j
  {
    if j < |repos| {
      assert repos[..|repos| - 1][..j] == repos[..j];
      InfosStop(tagsList, manifests, repos[..|repos| - 1], existing, j);
    } else {
      assert repos[..j] == repos;
    }
  }

  lemma {:induction false} TagInfosStop(manifests: (string, string) -> Py<seq<string>>, repo: string, imageName: string,
                                        tags: seq<string>, existing: set<string>, j: nat)
    requires j <= |tags| && TagInfos(manifests, repo, imageName, tags[..j], existing).Panic?
    ensures TagInfos(manifests, repo, imageName, tags, existing).Panic?
    decreases |tags| - j
  {
    if j < |tags| {
      assert tags[..|tags| - 1][..j] == tags[..j];
      TagInfosStop(manifests, repo, imageName, tags[..|tags| - 1], existing, j);
    } else {
      assert tags[..j] == tags;
    }
  }

  // ---------------------------------------------------------------------
  // The script's main block

  /** The files the script touches; a read-only path can be read but not
      written. */
  class Files {
    var contents: map<string, FileContents>
    const readOnly: set<string>

    constructor (contents: map<string, FileContents>, readOnly: set<string>)
      ensures this.contents == contents && this.readOnly == readOnly
    {
      this.contents := contents;
      this.readOnly := readOnly;
    }

    /** `shutil.copyfile`. */
    method Copy(src: string, dst: string) returns (ok: bool)
      requires src in contents
      modifies this
      ensures ok <==> dst !in readOnly
      ensures ok ==> contents == old(contents)[dst := old(contents)[src]]
      ensures !ok ==> contents == old(contents)
    {
      if dst in readOnly {
        return false;
      }
      contents := contents[dst := contents[src]];
      return true;
    }

    /** `open(path, 'w')` and `json.dump`. */
    method Write(path: string, c: FileContents) returns (ok: bool)
      modifies this
      ensures ok <==> path !in readOnly
      ensures ok ==> contents == old(contents)[path := c]
      ensures !ok ==> contents == old(contents)
    {
      if path in readOnly {
        return false;
      }
      contents := contents[path := c];
      return true;
    }

    /** The main block: load the file (an exception if it is missing or not
        a list of entries), crawl with the names already in it as the
        existing set, copy the file to `input-today`, then write the new
        records followed by all the old ones.  A failure part-way leaves
        whatever was already written. */
    method UpdateLayersFile(input: string, today: string, prefixesArg: string, catalog: Py<seq<string>>,
                            tagsList: string -> Py<TagsReply>, manifests: (string, string) -> Py<seq<string>>)
      returns (r: Result<seq<LayerNameEntry>>)
      modifies this
      ensures !(input in old(contents) && old(contents)[input].EntriesJson?) ==> r.Panic? && contents == old(contents)
      ensures input in old(contents) && old(contents)[input].EntriesJson? ==>
        var cur := old(contents)[input].entries;
        var existing := set e | e in cur :: e.name;
        var found := if catalog.Raises? then Panic
                     else Infos(tagsList, manifests, MatchingRepos(catalog.v, Split(prefixesArg, ',')), existing);
        var backup := input + "-" + today;
        && (!found.Ok? ==> r.Panic? && contents == old(contents))
        && (found.Ok? && backup in readOnly ==> r.Panic? && contents == old(contents))
        && (found.Ok? && backup !in readOnly && input in readOnly ==>
              r.Panic? && contents == old(contents)[backup := old(contents)[input]])
        && (found.Ok? && backup !in readOnly && input !in readOnly ==>
              r == Ok(found.value + cur)
              && contents == old(contents)[backup := old(contents)[input]][input := EntriesJson(found.value + cur)])
    {
      if input !in contents || contents[input].Garbage? {
        return Panic;
      }
      var prefixes := Split(prefixesArg, ',');
      var cur := contents[input].entries;
      var existing := ImageNames(cur);
      var layerInfos := GetInfoMatchingPrefixes(catalog, tagsList, manifests, prefixes, existing);
      if !layerInfos.Ok? {
        return Panic;
      }
      var written := layerInfos.value + cur;
      var backup := input + "-" + today;
      var copied := Copy(input, backup);
      if !copied {
        return Panic;
      }
      var saved := Write(input, EntriesJson(written));
      if !saved {
        return Panic;
      }
      return Ok(written);
    }
  }

  /** The rewritten file holds the old entries unchanged after the new
      records, and no new record repeats a name that was already in it. */
  lemma RewriteKeepsOld(tagsList: string -> Py<TagsReply>, manifests: (string, string) -> Py<seq<string>>,
                        repos: seq<string>, cur: seq<LayerNameEntry>)
    requires Infos(tagsList, manifests, repos, set e | e in cur :: e.name).Ok?
    ensures var found := Infos(tagsList, manifests, repos, set e | e in cur :: e.name).value;
      (found + cur)[|found|..] == cur
      && forall i, j :: 0 <= i < |found| && 0 <= j < |cur| ==> found[i].name != cur[j].name
  {
    var existing := set e | e in cur :: e.name;
    var found := Infos(tagsList, manifests, repos, existing).value;
    InfosFresh(tagsList, manifests, repos, existing);
    forall i, j | 0 <= i < |found| && 0 <= j < |cur| ensures found[i].name != cur[j].name {
      assert found[i] in found;
      assert cur[j] in cur;
    }
  }
}
