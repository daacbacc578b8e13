/** The registry crawl of `fetch.go`.  The workers of `FetchRepoInfos` and
    `FetchLayerEntries` send one result per request over a channel; the
    order in which they arrive is given as a sequence, which is a
    permutation of the requests' results. */
module Crawl {
  import opened Outcomes
  import opened Oci
  import opened KnownTags
  import opened Registry

  /** A failure carried over to a result of another type. */
  function Fail<T, U>(r: Result<T>): (f: Result<U>)
    requires !r.Ok?
    ensures r.Err? ==> f == Err(r.error)
    ensures r.Panic? ==> f.Panic?
  {
    if r.Err? then Err(r.error) else Panic
  }

  // ---------------------------------------------------------------------
  // Draining a channel

  /** Draining results in arrival order: the first failure, or every value
      in arrival order when there is none. */
  function Collected<T>(rs: seq<Result<T>>): (c: Result<seq<T>>)
    ensures c.Ok? ==> |c.value| == |rs|
  {
    if rs == [] then Ok([])
    else
      var c := Collected(rs[..|rs| - 1]);
      var last := rs[|rs| - 1];
      if !c.Ok? then c
      else if last.Ok? then Ok(c.value + [last.value])
      else Fail(last)
  }

  /** Successful results, one per value. */
  function Oks<T>(vs: seq<T>): (rs: seq<Result<T>>)
    ensures |rs| == |vs|
    ensures forall i :: 0 <= i < |vs| ==> rs[i] == Ok(vs[i])
  {
    if vs == [] then [] else Oks(vs[..|vs| - 1]) + [Ok(vs[|vs| - 1])]
  }

  /** Draining succeeds with `vs` exactly when every result arrived was a
      success, carrying the values `vs` in that order. */
  lemma {:induction false} CollectedOk<T>(rs: seq<Result<T>>, vs: seq<T>)
    ensures Collected(rs) == Ok(vs) <==> rs == Oks(vs)
  {
    if rs != [] && vs != [] {
      CollectedOk(rs[..|rs| - 1], vs[..|vs| - 1]);
      assert rs == rs[..|rs| - 1] + [rs[|rs| - 1]];
      assert vs == vs[..|vs| - 1] + [vs[|vs| - 1]];
      if Collected(rs) == Ok(vs) {
        assert Collected(rs[..|rs| - 1]) == Ok(vs[..|vs| - 1]);
      }
    } else if rs != [] {
      assert Oks(vs) == [];
    }
  }

  /** Once a prefix of the arrivals has failed, the rest is never looked
      at. */
  lemma {:induction false} CollectedPrefixFailure<T>(rs: seq<Result<T>>, j: nat)
    requires j <= |rs| && !Collected(rs[..j]).Ok?
    ensures Collected(rs) == Collected(rs[..j])
    decreases |rs| - j
  {
    if j < |rs| {
      var n := |rs| - 1;
      assert rs[..n][..j] == rs[..j];
      CollectedPrefixFailure(rs[..n], j);
    } else {
      assert rs[..j] == rs;
    }
  }

  /** The outcome is the failure of the first result that is not a success,
      whatever arrives after it. */
  lemma CollectedStopsAtFirstFailure<T>(rs: seq<Result<T>>, k: nat)
    requires k < |rs| && !rs[k].Ok?
    requires forall i :: 0 <= i < k ==> rs[i].Ok?
    ensures Collected(rs) == Fail(rs[k])
  {
    var before := rs[..k];
    var vs := seq(k, i requires 0 <= i < k => rs[i].value);
    assert before == Oks(vs);
    CollectedOk(before, vs);
    assert rs[..k + 1][..k] == before;
    CollectedPrefixFailure(rs, k + 1);
  }

  /** The channel loops of `doFetchTags`: a failure ends the loop and is
      returned at once; successes are appended in arrival order. */
  method Drain<T>(arrivals: seq<Result<T>>) returns (r: Result<seq<T>>)
    ensures r == Collected(arrivals)
  {
    var vs: seq<T> := [];
    var i := 0;
    while i < |arrivals|
      invariant 0 <= i <= |arrivals|
      invariant Collected(arrivals[..i]) == Ok(vs)
    {
      assert arrivals[..i + 1][..i] == arrivals[..i];
      if !arrivals[i].Ok? {
        CollectedPrefixFailure(arrivals, i + 1);
        return Fail(arrivals[i]);
      }
      vs := vs + [arrivals[i].value];
      i := i + 1;
    }
    assert arrivals[..i] == arrivals;
    return Ok(vs);
  }

  /** Draining succeeds on every arrival order of the same results or on
      none, and when it succeeds the values are the same up to order. */
  lemma CollectedPermutation<T>(rs: seq<Result<T>>, rs': seq<Result<T>>)
    requires multiset(rs) == multiset(rs')
    ensures Collected(rs).Ok? <==> Collected(rs').Ok?
    ensures Collected(rs).Ok? ==> multiset(Collected(rs).value) == multiset(Collected(rs').value)
  {
    if Collected(rs).Ok? {
      AllOkOrNone(rs, rs');
      var vs := Collected(rs).value;
      var vs' := Collected(rs').value;
      CollectedOk(rs, vs);
      CollectedOk(rs', vs');
      OksPermutation(vs, vs');
    } else if Collected(rs').Ok? {
      AllOkOrNone(rs', rs);
    }
  }

  lemma OksPermutation<T>(vs: seq<T>, vs': seq<T>)
    requires multiset(Oks(vs)) == multiset(Oks(vs'))
    ensures multiset(vs) == multiset(vs')
  {
    forall v ensures multiset(vs)[v] == multiset(vs')[v] {
      OksCount(vs, v);
      OksCount(vs', v);
    }
  }

  lemma AllOkOrNone<T>(rs: seq<Result<T>>, rs': seq<Result<T>>)
    requires multiset(rs) == multiset(rs')
    requires Collected(rs).Ok?
    ensures Collected(rs').Ok?
  {
    var vs := Collected(rs).value;
    CollectedOk(rs, vs);
    forall i | 0 <= i < |rs'| ensures rs'[i].Ok? {
      assert rs'[i] in multiset(rs');
      assert rs'[i] in rs;
    }
    var vs' := seq(|rs'|, i requires 0 <= i < |rs'| => rs'[i].value);
    assert rs' == Oks(vs');
    CollectedOk(rs', vs');
  }

  lemma {:induction false} OksCount<T>(vs: seq<T>, v: T)
    ensures multiset(Oks(vs))[Ok(v)] == multiset(vs)[v]
  {
    if vs != [] {
      var n := |vs| - 1;
      OksCount(vs[..n], v);
      assert vs == vs[..n] + [vs[n]];
      assert Oks(vs) == Oks(vs[..n]) + [Ok(vs[n])];
    }
  }

  // ---------------------------------------------------------------------
  // The requests the workers make

  /** `FetchRepoInfos`: one tags-list request per catalog repository. */
  function RepoRequests(tagsList: string -> Reply<Repo>, names: seq<string>): (rs: seq<Result<Repo>>)
    ensures |rs| == |names|
    ensures forall i :: 0 <= i < |names| ==> rs[i] == Fetch(tagsList(names[i]))
  {
    if names == [] then []
    else RepoRequests(tagsList, names[..|names| - 1]) + [Fetch(tagsList(names[|names| - 1]))]
  }

  /** The manifest requests for one repository, one per tag, under the name
      the tags list reported. */
  function TagRequestsOf(manifests: (string, string) -> Reply<Manifest>, name: string, tags: seq<string>): (rs: seq<Result<LayerNameEntry>>)
    ensures |rs| == |tags|
    ensures forall i :: 0 <= i < |tags| ==> rs[i] == GetLayerNameEntry(name, tags[i], manifests(name, tags[i]))
  {
    if tags == [] then []
    else
      var t := tags[|tags| - 1];
      TagRequestsOf(manifests, name, tags[..|tags| - 1]) + [GetLayerNameEntry(name, t, manifests(name, t))]
  }

  /** The number of tags over all repositories (`totalTags`). */
  function TotalTags(repos: seq<Repo>): nat
  {
    if repos == [] then 0 else TotalTags(repos[..|repos| - 1]) + |repos[|repos| - 1].tags|
  }

  /** `FetchLayerEntries`: one manifest request per (repository, tag) pair,
      as many as there are tags in all. */
  function TagRequests(manifests: (string, string) -> Reply<Manifest>, repos: seq<Repo>): (rs: seq<Result<LayerNameEntry>>)
    ensures |rs| == TotalTags(repos)
  {
    if repos == [] then []
    else
      var last := repos[|repos| - 1];
      TagRequests(manifests, repos[..|repos| - 1]) + TagRequestsOf(manifests, last.name, last.tags)
  }

  lemma {:induction false} TagRequestsAppend(manifests: (string, string) -> Reply<Manifest>, a: seq<Repo>, b: seq<Repo>)
    ensures TagRequests(manifests, a + b) == TagRequests(manifests, a) + TagRequests(manifests, b)
  {
    if b != [] {
      var n := |b| - 1;
      var ab := a + b;
      assert ab[..|ab| - 1] == a + b[..n];
      assert ab[|ab| - 1] == b[n];
      TagRequestsAppend(manifests, a, b[..n]);
      assert TagRequests(manifests, ab)
          == TagRequests(manifests, a + b[..n]) + TagRequestsOf(manifests, b[n].name, b[n].tags);
    } else {
      assert a + b == a;
    }
  }

  /** The manifest requests made for the repositories do not depend on the
      order the repositories arrived in, up to order. */
  lemma {:induction false} TagRequestsPermutation(manifests: (string, string) -> Reply<Manifest>, repos: seq<Repo>, repos': seq<Repo>)
    requires multiset(repos) == multiset(repos')
    ensures multiset(TagRequests(manifests, repos)) == multiset(TagRequests(manifests, repos'))
    decreases |repos|
  {
    if repos == [] {
      assert |repos'| == |multiset(repos')| == 0;
    } else {
      var n := |repos| - 1;
      var x := repos[n];
      var a, b := RemoveLast(repos, repos');
      TagRequestsPermutation(manifests, repos[..n], a + b);
      TagRequestsAppend(manifests, a, b);
      TagRequestsAppend(manifests, a + [x], b);
      TagRequestsAppend(manifests, a, [x]);
      assert [x][..0] == [];
      var own := TagRequestsOf(manifests, x.name, x.tags);
      assert TagRequests(manifests, [x]) == own;
      assert TagRequests(manifests, repos) == TagRequests(manifests, repos[..n]) + own;
      assert TagRequests(manifests, repos') == TagRequests(manifests, a) + own + TagRequests(manifests, b);
    }
  }

  /** Where the last element of `s` sits in a permutation of it, and what
      remains on either side. */
  lemma RemoveLast<X>(s: seq<X>, s': seq<X>) returns (a: seq<X>, b: seq<X>)
    requires s != [] && multiset(s) == multiset(s')
    ensures s' == a + [s[|s| - 1]] + b
    ensures multiset(s[..|s| - 1]) == multiset(a + b)
  {
    var n := |s| - 1;
    var x := s[n];
    assert s == s[..n] + [x];
    assert x in multiset(s');
    var j :| 0 <= j < |s'| && s'[j] == x;
    a, b := s'[..j], s'[j + 1..];
    assert s' == a + [x] + b;
    var before, rest := multiset(s[..n]), multiset(a + b);
    assert multiset(s) == before + multiset{x};
    assert a + [x] + b == (a + b)[..|a|] + [x] + (a + b)[|a|..];
    assert multiset(s') == rest + multiset{x};
    assert before == before + multiset{x} - multiset{x};
    assert rest == rest + multiset{x} - multiset{x};
  }

  /** The accumulator loop computing `totalTags`. */
  method SumTags(repos: seq<Repo>) returns (total: nat)
    ensures total == TotalTags(repos)
  {
    total := 0;
    var i := 0;
    while i < |repos|
      invariant 0 <= i <= |repos|
      invariant total == TotalTags(repos[..i])
    {
      assert repos[..i + 1][..i] == repos[..i];
      total := total + |repos[i].tags|;
      i := i + 1;
    }
    assert repos[..i] == repos;
  }

  // ---------------------------------------------------------------------
  // doFetchTags

  /** The arrivals are the results of the requests, in some order: the
      tags lists of the listed repositories, then the manifests of the
      repositories collected from them. */
  predicate Delivered(listed: Result<seq<string>>, tagsList: string -> Reply<Repo>,
                      manifests: (string, string) -> Reply<Manifest>,
                      repoArrivals: seq<Result<Repo>>, tagArrivals: seq<Result<LayerNameEntry>>)
  {
    && (listed.Ok? ==> multiset(repoArrivals) == multiset(RepoRequests(tagsList, listed.value)))
    && (Collected(repoArrivals).Ok? ==>
          multiset(tagArrivals) == multiset(TagRequests(manifests, Collected(repoArrivals).value)))
  }

  /** `doFetchTags`: nothing happens without a registry.  Otherwise the
      catalog is listed, the first failing tags list or manifest ends the
      crawl with its error, and only a crawl that got every result saves
      the entries, in arrival order. */
  method DoFetchTags(registry: string, prefixes: string, out: string, catalog: Reply<seq<string>>,
                     tagsList: string -> Reply<Repo>, manifests: (string, string) -> Reply<Manifest>,
                     repoArrivals: seq<Result<Repo>>, tagArrivals: seq<Result<LayerNameEntry>>,
                     disk: Disk)
    returns (r: Result<Disk>)
    requires Delivered(RepoList(NewReg(registry, prefixes), catalog), tagsList, manifests, repoArrivals, tagArrivals)
    ensures registry == "" ==> r == Ok(disk)
    ensures registry != "" && !RepoList(NewReg(registry, prefixes), catalog).Ok? ==>
      r == Fail(RepoList(NewReg(registry, prefixes), catalog))
    ensures registry != "" && RepoList(NewReg(registry, prefixes), catalog).Ok? && !Collected(repoArrivals).Ok? ==>
      r == Fail(Collected(repoArrivals))
    ensures registry != "" && RepoList(NewReg(registry, prefixes), catalog).Ok? && Collected(repoArrivals).Ok?
              && !Collected(tagArrivals).Ok? ==>
      r == Fail(Collected(tagArrivals))
    ensures registry != "" && RepoList(NewReg(registry, prefixes), catalog).Ok? && Collected(repoArrivals).Ok?
              && Collected(tagArrivals).Ok? ==>
      r == Save(Collected(tagArrivals).value, out, disk)
      && |Collected(tagArrivals).value| == TotalTags(Collected(repoArrivals).value)
      && (TotalTags(Collected(repoArrivals).value) == 0 ==> r == Err(NoEntriesToSave))
  {
    if registry == "" {
      return Ok(disk);
    }
    var reg := NewReg(registry, prefixes);
    var listed := GetRepoList(reg, catalog);
    if !listed.Ok? {
      return Fail(listed);
    }
    var repos := Drain(repoArrivals);
    if !repos.Ok? {
      return Fail(repos);
    }
    var total := SumTags(repos.value);
    var entries := Drain(tagArrivals);
    if !entries.Ok? {
      return Fail(entries);
    }
    assert |entries.value| == total by {
      assert |multiset(tagArrivals)| == |multiset(TagRequests(manifests, repos.value))|;
    }
    r := Save(entries.value, out, disk);
  }

  /** What a successful crawl saves does not depend on arrival order: the
      entries are those of every (repository, tag) pair, requested in
      catalog order, up to order. */
  lemma CrawlOrderIndependent(listed: seq<string>, tagsList: string -> Reply<Repo>,
                              manifests: (string, string) -> Reply<Manifest>,
                              repoArrivals: seq<Result<Repo>>, tagArrivals: seq<Result<LayerNameEntry>>)
    requires Delivered(Ok(listed), tagsList, manifests, repoArrivals, tagArrivals)
    requires Collected(repoArrivals).Ok? && Collected(tagArrivals).Ok?
    ensures Collected(RepoRequests(tagsList, listed)).Ok?
    ensures var inOrder := TagRequests(manifests, Collected(RepoRequests(tagsList, listed)).value);
      Collected(inOrder).Ok? && multiset(Collected(tagArrivals).value) == multiset(Collected(inOrder).value)
  {
    var requests := RepoRequests(tagsList, listed);
    CollectedPermutation(requests, repoArrivals);
    var repos := Collected(repoArrivals).value;
    var reposInOrder := Collected(requests).value;
    TagRequestsPermutation(manifests, repos, reposInOrder);
    CollectedPermutation(tagArrivals, TagRequests(manifests, reposInOrder));
  }
}
