/** The registry client (`reg.go`): saving and loading the layer-name file,
    the catalog with its prefix filter, a repository's tags, and the layer
    name entry of one tagged image.  HTTP exchanges are given as their
    outcome; the file system as a map from path to contents. */
module Registry {
  import opened Outcomes
  import opened Oci
  import opened GoStrings
  import opened KnownTags

  // ---------------------------------------------------------------------
  // The layer-name file

  /** What a file holds: a JSON list of entries, or something that does not
      decode as one. */
  datatype FileContents = EntriesJson(entries: seq<LayerNameEntry>) | Garbage

  /** The files the crawl reads and writes; writing a read-only path
      fails. */
  datatype Disk = Disk(files: map<string, FileContents>, readOnly: set<string>)

  /** `os.WriteFile`. */
  function WriteFile(disk: Disk, file: string, c: FileContents): (r: Result<Disk>)
    ensures file in disk.readOnly ==> r == Err(WriteFailed(file))
    ensures file !in disk.readOnly ==> r.Ok? && r.value.files == disk.files[file := c] && r.value.readOnly == disk.readOnly
  {
    if file in disk.readOnly then Err(WriteFailed(file)) else Ok(disk.(files := disk.files[file := c]))
  }

  /** `LayerNameHashEntries.Save`: nothing to save is an error, checked
      before the empty file name; otherwise the entries are written as
      JSON. */
  function Save(entries: seq<LayerNameEntry>, file: string, disk: Disk): (r: Result<Disk>)
    ensures entries == [] ==> r == Err(NoEntriesToSave)
    ensures entries != [] && file == "" ==> r == Err(FilenameEmpty)
    ensures entries != [] && file != "" ==> r == WriteFile(disk, file, EntriesJson(entries))
  {
    if entries == [] then Err(NoEntriesToSave)
    else if file == "" then Err(FilenameEmpty)
    else WriteFile(disk, file, EntriesJson(entries))
  }

  /** `Load`: an empty file name is an error before anything is read; a
      missing file and undecodable contents are errors. */
  function Load(file: string, disk: Disk): (r: Result<seq<LayerNameEntry>>)
    ensures file == "" ==> r == Err(FilenameEmpty)
    ensures file != "" && file !in disk.files ==> r == Err(ReadFailed(file))
    ensures file != "" && file in disk.files && disk.files[file].Garbage? ==> r == Err(DecodeFailed)
    ensures r.Ok? ==> file in disk.files && disk.files[file] == EntriesJson(r.value)
  {
    if file == "" then Err(FilenameEmpty)
    else if file !in disk.files then Err(ReadFailed(file))
    else match disk.files[file]
      case Garbage => Err(DecodeFailed)
      case EntriesJson(entries) => Ok(entries)
  }

  /** What is saved loads back unchanged, and merging it into the viewer's
      names adds every saved name under its hash. */
  lemma SaveThenLoad(entries: seq<LayerNameEntry>, file: string, disk: Disk, names: NameMap, h: string)
    requires Save(entries, file, disk).Ok?
    ensures Load(file, Save(entries, file, disk).value) == Ok(entries)
    ensures Stored(Merged(names, entries), h) == Stored(names, h) + NamesOf(entries, h)
  {
    MergedLookup(names, entries, h);
  }

  /** `ImageNames`: the set of the entries' names, built up one entry at a
      time. */
  method ImageNames(entries: seq<LayerNameEntry>) returns (names: set<string>)
    ensures names == set e | e in entries :: e.name
  {
    names := {};
    var i := 0;
    while i < |entries|
      invariant 0 <= i <= |entries|
      invariant names == set e | e in entries[..i] :: e.name
    {
      assert entries[..i + 1] == entries[..i] + [entries[i]];
      names := names + {entries[i].name};
      i := i + 1;
    }
    assert entries[..i] == entries;
  }

  /** An entry's name is in the set exactly when some entry has that name. */
  lemma ImageNamesMembers(entries: seq<LayerNameEntry>, n: string)
    ensures n in (set e | e in entries :: e.name) <==> exists i :: 0 <= i < |entries| && entries[i].name == n
  {
    if exists i :: 0 <= i < |entries| && entries[i].name == n {
      var i :| 0 <= i < |entries| && entries[i].name == n;
      assert entries[i] in entries;
    }
  }

  // ---------------------------------------------------------------------
  // HTTP

  /** The outcome of one GET: a transport failure, or a status with a body
      that could not be read, did not decode, or decoded to a value. */
  datatype Body<T> = Unreadable(message: string) | Undecodable | Decoded(value: T)
  datatype Reply<T> = TransportFailure(message: string) | Response(status: int, body: Body<T>)

  const StatusOK := 200

  /** The shared shape of the three requests: a transport error, a status
      other than 200, an unreadable body and an undecodable body are all
      errors. */
  function Fetch<T>(reply: Reply<T>): (r: Result<T>)
    ensures !r.Panic?
    ensures reply.Response? && reply.status != StatusOK ==> r == Err(BadStatus(reply.status))
    ensures r.Ok? <==> reply.Response? && reply.status == StatusOK && reply.body.Decoded?
    ensures r.Ok? ==> r.value == reply.body.value
  {
    match reply
    case TransportFailure(m) => Err(Transport(m))
    case Response(status, body) =>
      if status != StatusOK then Err(BadStatus(status))
      else match body
        case Unreadable(m) => Err(Transport(m))
        case Undecodable => Err(DecodeFailed)
        case Decoded(v) => Ok(v)
  }

  /** `Reg`: the registry URL and the repository prefixes. */
  datatype Reg = Reg(url: string, prefixes: seq<string>)

  /** `NewReg`: the prefixes are the comma-separated pieces of the
      argument. */
  function NewReg(url: string, prefixes: string): (r: Reg)
    ensures r.url == url && |r.prefixes| == Count(prefixes, ',') + 1
    ensures forall i :: 0 <= i < |r.prefixes| ==> ',' !in r.prefixes[i]
  {
    SplitPieces(prefixes, ',');
    Reg(url, Split(prefixes, ','))
  }

  /** An empty prefix argument yields the single empty prefix, with which
      the filter keeps every repository once. */
  lemma EmptyPrefixesKeepAll(url: string, repos: seq<string>)
    ensures NewReg(url, "").prefixes == [""]
    ensures FilterByPrefixes(repos, [""]) == repos
  {
    EmptyPrefixMatchesAll(repos);
  }

  lemma {:induction false} EmptyPrefixMatchesAll(repos: seq<string>)
    ensures FilterByPrefixes(repos, [""]) == repos
  {
    if repos != [] {
      EmptyPrefixMatchesAll(repos[..|repos| - 1]);
      assert [""][..0] == [];
      assert Matches(repos[|repos| - 1], [""]) == [repos[|repos| - 1]];
      assert repos[..|repos| - 1] + [repos[|repos| - 1]] == repos;
    }
  }

  /** The copies of `repo` the inner loop of the filter appends: one per
      prefix it starts with. */
  function Matches(repo: string, prefixes: seq<string>): seq<string>
  {
    if prefixes == [] then []
    else
      var p := prefixes[|prefixes| - 1];
      Matches(repo, prefixes[..|prefixes| - 1]) + (if p <= repo then [repo] else [])
  }

  /** The filtered catalog: each repository, in catalog order, once per
      prefix it starts with. */
  function FilterByPrefixes(repos: seq<string>, prefixes: seq<string>): seq<string>
  {
    if repos == [] then []
    else FilterByPrefixes(repos[..|repos| - 1], prefixes) + Matches(repos[|repos| - 1], prefixes)
  }

  /** How many of the prefixes `repo` starts with (a prefix listed twice
      counts twice). */
  function MatchCount(repo: string, prefixes: seq<string>): nat
  {
    if prefixes == [] then 0
    else MatchCount(repo, prefixes[..|prefixes| - 1]) + (if prefixes[|prefixes| - 1] <= repo then 1 else 0)
  }

  lemma {:induction false} MatchesCount(repo: string, prefixes: seq<string>)
    ensures |Matches(repo, prefixes)| == MatchCount(repo, prefixes)
    ensures forall x :: x in Matches(repo, prefixes) ==> x == repo
  {
    if prefixes != [] {
      MatchesCount(repo, prefixes[..|prefixes| - 1]);
    }
  }

  /** Number of occurrences of `x` in `s`. */
  function Occurrences(s: seq<string>, x: string): nat
  {
    multiset(s)[x]
  }

  /** A repository appears in the filtered list once for every time it is in
      the catalog and every prefix it starts with. */
  lemma {:induction false} FilterMultiplicity(repos: seq<string>, prefixes: seq<string>, x: string)
    ensures Occurrences(FilterByPrefixes(repos, prefixes), x) == Occurrences(repos, x) * MatchCount(x, prefixes)
  {
    if repos != [] {
      var n := |repos| - 1;
      var c := MatchCount(x, prefixes);
      FilterMultiplicity(repos[..n], prefixes, x);
      FilterStep(repos, prefixes, x);
      MatchesOccurrences(repos[n], prefixes, x);
      if repos[n] == x {
        MulSucc(Occurrences(repos[..n], x), c);
      }
    }
  }

  lemma MulSucc(k: nat, c: nat)
    ensures (k + 1) * c == k * c + c
  {
  }

  /** One more repository adds its own copies to the filtered list and one
      occurrence of itself to the catalog. */
  lemma FilterStep(repos: seq<string>, prefixes: seq<string>, x: string)
    requires repos != []
    ensures var n := |repos| - 1;
      Occurrences(FilterByPrefixes(repos, prefixes), x)
        == Occurrences(FilterByPrefixes(repos[..n], prefixes), x) + multiset(Matches(repos[n], prefixes))[x]
    ensures var n := |repos| - 1;
      Occurrences(repos, x) == Occurrences(repos[..n], x) + (if repos[n] == x then 1 else 0)
  {
    var n := |repos| - 1;
    var f := FilterByPrefixes(repos[..n], prefixes);
    var ms := Matches(repos[n], prefixes);
    assert FilterByPrefixes(repos, prefixes) == f + ms;
    assert multiset(f + ms) == multiset(f) + multiset(ms);
    assert repos == repos[..n] + [repos[n]];
    assert multiset(repos) == multiset(repos[..n]) + multiset{repos[n]};
  }

  /** The copies one repository contributes: all of it, one per matching
      prefix. */
  lemma MatchesOccurrences(repo: string, prefixes: seq<string>, x: string)
    ensures multiset(Matches(repo, prefixes))[x] == if x == repo then MatchCount(repo, prefixes) else 0
  {
    MatchesCount(repo, prefixes);
    var ms := Matches(repo, prefixes);
    if x == repo {
      MultisetOfOne(ms, x);
    } else {
      assert x !in ms;
    }
  }

  lemma {:induction false} MultisetOfOne(s: seq<string>, x: string)
    requires forall y :: y in s ==> y == x
    ensures multiset(s)[x] == |s|
  {
    if s != [] {
      var n := |s| - 1;
      assert s == s[..n] + [s[n]];
      assert multiset(s) == multiset(s[..n]) + multiset{s[n]};
      assert s[n] in s;
      assert forall y :: y in s[..n] ==> y in s;
      MultisetOfOne(s[..n], x);
    }
  }

  /** The list `GetRepoList` produces from the catalog reply. */
  function RepoList(reg: Reg, catalog: Reply<seq<string>>): Result<seq<string>>
  {
    var all := Fetch(catalog);
    if !all.Ok? || reg.prefixes == [] then all else Ok(FilterByPrefixes(all.value, reg.prefixes))
  }

  /** `GetRepoList`: the catalog, filtered by the prefixes when there are
      any.  The filter appends a repository once per prefix it starts
      with. */
  method GetRepoList(reg: Reg, catalog: Reply<seq<string>>) returns (r: Result<seq<string>>)
    ensures r == RepoList(reg, catalog)
    ensures !r.Panic?
    ensures !Fetch(catalog).Ok? ==> r == Fetch(catalog)
    ensures Fetch(catalog).Ok? && reg.prefixes == [] ==> r == Fetch(catalog)
    ensures Fetch(catalog).Ok? && reg.prefixes != [] ==> r == Ok(FilterByPrefixes(Fetch(catalog).value, reg.prefixes))
  {
    var all := Fetch(catalog);
    if !all.Ok? || |reg.prefixes| == 0 {
      return all;
    }
    var repos := all.value;
    var kept: seq<string> := [];
    var i := 0;
    while i < |repos|
      invariant 0 <= i <= |repos|
      invariant kept == FilterByPrefixes(repos[..i], reg.prefixes)
    {
      assert repos[..i + 1][..i] == repos[..i];
      kept := AppendMatches(kept, repos[i], reg.prefixes);
      i := i + 1;
    }
    assert repos[..i] == repos;
    return Ok(kept);
  }

  /** The inner loop of the filter: `repo` is appended once for each
      prefix it starts with, in prefix order. */
  method AppendMatches(kept0: seq<string>, repo: string, prefixes: seq<string>) returns (kept: seq<string>)
    ensures kept == kept0 + Matches(repo, prefixes)
  {
    kept := kept0;
    var j := 0;
    while j < |prefixes|
      invariant 0 <= j <= |prefixes|
      invariant kept == kept0 + Matches(repo, prefixes[..j])
    {
      assert prefixes[..j + 1][..j] == prefixes[..j];
      if prefixes[j] <= repo {
        kept := kept + [repo];
      }
      j := j + 1;
    }
    assert prefixes[..j] == prefixes;
  }

  /** `Repo`: a repository's name and tags, as `tags/list` reports them. */
  datatype Repo = Repo(name: string, tags: seq<string>)

  /** `GetLayerNameEntry`: the entry naming the top layer of `repo:tag`.
      A manifest without layers indexes an empty slice: a panic. */
  function GetLayerNameEntry(repo: string, tag: string, reply: Reply<Manifest>): (r: Result<LayerNameEntry>)
    ensures Fetch(reply).Err? ==> r == Err(Fetch(reply).error)
    ensures Fetch(reply).Ok? && Fetch(reply).value.layers == [] ==> r.Panic?
    ensures r.Ok? ==> var layers := Fetch(reply).value.layers;
      layers != [] && r.value.hash == Hex(layers[|layers| - 1].digest) && r.value.name == repo + ":" + tag
  {
    match Fetch(reply)
    case Err(e) => Err(e)
    case Panic => Panic
    case Ok(m) =>
      if m.layers == [] then Panic
      else Ok(LayerNameEntry(Hex(m.layers[|m.layers| - 1].digest), repo + ":" + tag))
  }

  /** The name of an entry splits back into the repository and the tag when
      the tag holds no ':'. */
  lemma EntryNameSplits(repo: string, tag: string, reply: Reply<Manifest>)
    requires GetLayerNameEntry(repo, tag, reply).Ok?
    requires ':' !in repo && ':' !in tag
    ensures Split(GetLayerNameEntry(repo, tag, reply).value.name, ':') == [repo, tag]
  {
    assert repo + ":" + tag == repo + [':'] + tag;
    SplitPair(repo, tag, ':');
  }
}
