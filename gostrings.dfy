/** The string and path helpers of Go's standard library that the modelled
    code relies on, written out with the behaviour it depends on. */
module GoStrings {

  /** Number of occurrences of `c` in `s`. */
  function Count(s: string, c: char): nat
  {
    if s == [] then 0 else (if s[0] == c then 1 else 0) + Count(s[1..], c)
  }

  /** `strings.Split(s, string(sep))`: the pieces between every occurrence of
      `sep`.  There is always one piece more than there are separators, so the
      result is never empty (the empty string splits into `[""]`). */
  function Split(s: string, sep: char): (parts: seq<string>)
    ensures |parts| == Count(s, sep) + 1
  {
    if s == [] then [""]
    else if s[0] == sep then [""] + Split(s[1..], sep)
    else
      var rest := Split(s[1..], sep);
      [[s[0]] + rest[0]] + rest[1..]
  }

  /** No piece holds the separator. */
  lemma {:induction false} SplitPieces(s: string, sep: char)
    ensures forall i :: 0 <= i < |Split(s, sep)| ==> sep !in Split(s, sep)[i]
  {
    if s != [] {
      SplitPieces(s[1..], sep);
    }
  }

  /** `strings.Join(parts, sep)`. */
  function Join(parts: seq<string>, sep: string): string
  {
    if |parts| == 0 then ""
    else if |parts| == 1 then parts[0]
    else parts[0] + sep + Join(parts[1..], sep)
  }

  /** Joining with the separator undoes splitting on it. */
  lemma {:induction false} JoinSplit(s: string, sep: char)
    ensures Join(Split(s, sep), [sep]) == s
  {
    if s != [] {
      JoinSplit(s[1..], sep);
      var rest := Split(s[1..], sep);
      if s[0] == sep {
        assert Split(s, sep) == [""] + rest;
        assert ([""] + rest)[1..] == rest;
      } else {
        assert Split(s, sep) == [[s[0]] + rest[0]] + rest[1..];
        if |rest| > 1 {
          assert ([[s[0]] + rest[0]] + rest[1..])[1..] == rest[1..];
        }
      }
    }
  }

  /** Appending one more piece extends the joined string by the separator and
      that piece. */
  lemma {:induction false} JoinSnoc(parts: seq<string>, x: string, sep: string)
    ensures Join(parts + [x], sep) == if parts == [] then x else Join(parts, sep) + sep + x
  {
    if |parts| > 1 {
      assert (parts + [x])[1..] == parts[1..] + [x];
      JoinSnoc(parts[1..], x, sep);
    } else if |parts| == 1 {
      assert (parts + [x])[1..] == [x];
    }
  }

  /** A sequence with no separator in it splits into itself. */
  lemma {:induction false} SplitWithout(s: string, sep: char)
    requires sep !in s
    ensures Split(s, sep) == [s]
  {
    if s != [] {
      SplitWithout(s[1..], sep);
      assert [s[0]] + s[1..] == s;
    }
  }

  /** Splitting `a + [sep] + b` where neither part holds the separator gives
      exactly the two parts. */
  lemma {:induction false} SplitPair(a: string, b: string, sep: char)
    requires sep !in a && sep !in b
    ensures Split(a + [sep] + b, sep) == [a, b]
  {
    if a == [] {
      assert a + [sep] + b == [sep] + b;
      assert ([sep] + b)[1..] == b;
      SplitWithout(b, sep);
    } else {
      assert (a + [sep] + b)[1..] == a[1..] + [sep] + b;
      SplitPair(a[1..], b, sep);
      assert [a[0]] + a[1..] == a;
    }
  }

  /** Removes every trailing '/' (the first loop of `filepath.Base`). */
  function TrimTrailingSlashes(p: string): (r: string)
    ensures r <= p
    ensures r == [] || r[|r| - 1] != '/'
    ensures forall i :: |r| <= i < |p| ==> p[i] == '/'
  {
    if p != [] && p[|p| - 1] == '/' then TrimTrailingSlashes(p[..|p| - 1]) else p
  }

  /** The part of `p` after its last '/'. */
  function AfterLastSlash(p: string): (r: string)
    ensures '/' !in r
    ensures |r| <= |p| && r == p[|p| - |r|..]
    ensures |r| < |p| ==> p[|p| - |r| - 1] == '/'
  {
    if p == [] || p[|p| - 1] == '/' then []
    else AfterLastSlash(p[..|p| - 1]) + [p[|p| - 1]]
  }

  /** `filepath.Base` on a slash-separated path: the last element after
      trailing slashes are removed; "." for the empty path and "/" for a path
      of slashes only. */
  function Base(path: string): (b: string)
    ensures b != []
    ensures b == "/" || '/' !in b
    ensures path != [] && '/' !in path ==> b == path
  {
    if path == [] then "."
    else
      var last := AfterLastSlash(TrimTrailingSlashes(path));
      if last == [] then "/" else last
  }

  /** The base of `dir/name` is `name` when `name` is a non-empty element. */
  lemma BaseOfChild(dir: string, name: string)
    requires name != [] && '/' !in name
    ensures Base(dir + "/" + name) == name
  {
    var p := dir + "/" + name;
    assert p[|p| - 1] == name[|name| - 1];
    assert TrimTrailingSlashes(p) == p;
    var r := AfterLastSlash(p);
    assert p[|p| - |name|..] == name;
    assert p[|p| - |name| - 1] == '/';
  }

  /** Index of the first `c` in `s`, or -1. */
  function IndexOf(s: string, c: char): (i: int)
    ensures -1 <= i < |s|
    ensures i >= 0 ==> s[i] == c && c !in s[..i]
    ensures i < 0 <==> c !in s
  {
    if s == [] then -1
    else if s[0] == c then 0
    else
      var j := IndexOf(s[1..], c);
      assert j >= 0 ==> s[1..][..j] == s[1..j + 1];
      if j < 0 then -1 else j + 1
  }

  datatype CutResult = CutResult(before: string, after: string, found: bool)

  /** `strings.Cut(s, string(c))`: the text around the first `c`. */
  function Cut(s: string, c: char): (r: CutResult)
    ensures r.found <==> c in s
    ensures r.found ==> c !in r.before && r.before + [c] + r.after == s
    ensures !r.found ==> r.before == s && r.after == []
  {
    var i := IndexOf(s, c);
    if i < 0 then CutResult(s, [], false)
    else
      assert s[..i] + [c] + s[i + 1..] == s;
      CutResult(s[..i], s[i + 1..], true)
  }

  /** Go's `<` on strings: lexicographic order of the characters.  (Go compares
      UTF-8 bytes; that order agrees with the order of code points.) */
  predicate Less(a: string, b: string)
  {
    if a == [] then b != []
    else if b == [] then false
    else if a[0] != b[0] then a[0] < b[0]
    else Less(a[1..], b[1..])
  }

  lemma {:induction false} LessIrreflexive(a: string)
    ensures !Less(a, a)
  {
    if a != [] { LessIrreflexive(a[1..]); }
  }

  lemma {:induction false} LessAsymmetric(a: string, b: string)
    ensures Less(a, b) ==> !Less(b, a)
  {
    if a != [] && b != [] && a[0] == b[0] { LessAsymmetric(a[1..], b[1..]); }
  }

  lemma {:induction false} LessTransitive(a: string, b: string, c: string)
    requires Less(a, b) && Less(b, c)
    ensures Less(a, c)
  {
    if a != [] && b != [] && c != [] && a[0] == b[0] && b[0] == c[0] {
      LessTransitive(a[1..], b[1..], c[1..]);
    }
  }

  lemma {:induction false} LessTotal(a: string, b: string)
    ensures a == b || Less(a, b) || Less(b, a)
  {
    if a != [] && b != [] && a[0] == b[0] {
      LessTotal(a[1..], b[1..]);
      if a[1..] == b[1..] {
        assert a == [a[0]] + a[1..] && b == [b[0]] + b[1..];
      }
    }
  }

  /** The first ':' of `a + ":" + b` is the one after `a` when `a` has none. */
  lemma {:induction false} FirstColon(a: string, b: string)
    requires ':' !in a
    ensures IndexOf(a + ":" + b, ':') == |a|
  {
    if a != [] {
      assert (a + ":" + b)[1..] == a[1..] + ":" + b;
      FirstColon(a[1..], b);
    }
  }

  /** A string with a ':' in it is cut in exactly one way: before its first
      ':' and after it. */
  lemma CutUnique(a: string, b: string, a': string, b': string)
    requires ':' !in a && ':' !in a'
    requires a + ":" + b == a' + ":" + b'
    ensures a == a' && b == b'
  {
    var s := a + ":" + b;
    FirstColon(a, b);
    FirstColon(a', b');
    assert a == s[..|a|] && a' == s[..|a'|];
    assert b == s[|a| + 1..] && b' == s[|a'| + 1..];
  }
}
