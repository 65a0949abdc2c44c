/**
 * Slash-delimited paths: JavaScript's `path.split('/')` and `parts.join('/')`,
 * which the file-tree builder uses to walk and to rebuild path prefixes.
 */
module Paths {
  import opened Nullable

  const Sep: char := '/'

  /** No part contains the separator, as every result of `Split` does. */
  predicate NoSep(parts: seq<string>)
  {
    forall i :: 0 <= i < |parts| ==> Sep !in parts[i]
  }

  /** `s.split('/')`: the text between separators; `""` splits into `[""]`. */
  function Split(s: string): (parts: seq<string>)
    ensures |parts| >= 1
    ensures NoSep(parts)
    decreases |s|
  {
    if s == [] then [""]
    else
      var rest := Split(s[1..]);
      if s[0] == Sep then [""] + rest
      else
        assert Sep !in [s[0]] + rest[0];
        [[s[0]] + rest[0]] + rest[1..]
  }

  /** `parts.join('/')`. */
  function Join(parts: seq<string>): string
  {
    if |parts| == 0 then ""
    else if |parts| == 1 then parts[0]
    else parts[0] + [Sep] + Join(parts[1..])
  }

  /** Splitting and joining again gives back the path. */
  lemma {:induction false} JoinSplit(s: string)
    ensures Join(Split(s)) == s
    decreases |s|
  {
    if s != [] {
      var rest := Split(s[1..]);
      JoinSplit(s[1..]);
      if s[0] == Sep {
        assert Split(s) == [""] + rest;
        assert ([""] + rest)[1..] == rest;
      } else if |rest| > 1 {
        var parts := Split(s);
        assert parts[1..] == rest[1..];
        assert Join(rest) == rest[0] + [Sep] + Join(rest[1..]);
      }
    }
  }

  /** A string without separators is a single part. */
  lemma {:induction false} SplitNoSep(a: string)
    requires Sep !in a
    ensures Split(a) == [a]
    decreases |a|
  {
    if a != [] {
      SplitNoSep(a[1..]);
      assert [a[0]] + a[1..] == a;
    }
  }

  /** Splitting `a + "/" + b` for a separator-free `a` yields `a` followed by the parts of `b`. */
  lemma {:induction false} SplitCons(a: string, b: string)
    requires Sep !in a
    ensures Split(a + [Sep] + b) == [a] + Split(b)
    decreases |a|
  {
    var s := a + [Sep] + b;
    if a == [] {
      assert s[1..] == b;
    } else {
      assert s[1..] == a[1..] + [Sep] + b;
      SplitCons(a[1..], b);
      assert [a[0]] + a[1..] == a;
    }
  }

  /** Joining separator-free parts and splitting again gives back the parts. */
  lemma {:induction false} SplitJoin(parts: seq<string>)
    requires |parts| >= 1 && NoSep(parts)
    ensures Split(Join(parts)) == parts
    decreases |parts|
  {
    if |parts| == 1 {
      SplitNoSep(parts[0]);
    } else {
      SplitJoin(parts[1..]);
      SplitCons(parts[0], Join(parts[1..]));
      assert [parts[0]] + parts[1..] == parts;
    }
  }

  /** Joining one more part appends a separator and that part. */
  lemma {:induction false} JoinSnoc(q: seq<string>, x: string)
    requires |q| >= 1
    ensures Join(q + [x]) == Join(q) + [Sep] + x
    decreases |q|
  {
    if |q| > 1 {
      assert (q + [x])[1..] == q[1..] + [x];
      JoinSnoc(q[1..], x);
    }
  }

  /** Joining two or more parts puts a separator into the result. */
  lemma JoinHasSep(q: seq<string>)
    requires |q| >= 2
    ensures Sep in Join(q)
  {
    var j := Join(q);
    assert j[|q[0]|] == Sep;
  }

  /** The last part of a path: what the tree builder shows as a node's name. */
  function LastSegment(path: string): string
  {
    var parts := Split(path);
    parts[|parts| - 1]
  }

  /** The path with its last part removed, or `None` for a single-part path. */
  function ParentPath(path: string): Option<string>
  {
    var parts := Split(path);
    if |parts| == 1 then None else Some(Join(parts[..|parts| - 1]))
  }

  /** Joining two non-empty lists of parts puts one separator between their joins. */
  lemma {:induction false} JoinAppend(x: seq<string>, y: seq<string>)
    requires |x| >= 1 && |y| >= 1
    ensures Join(x + y) == Join(x) + [Sep] + Join(y)
    decreases |x|
  {
    assert (x + y)[0] == x[0];
    if |x| == 1 {
      assert (x + y)[1..] == y;
    } else {
      assert (x + y)[1..] == x[1..] + y;
      JoinAppend(x[1..], y);
    }
  }

  /** Splitting at one separator splits both sides independently. */
  lemma SplitAppend(a: string, b: string)
    ensures Split(a + [Sep] + b) == Split(a) + Split(b)
  {
    var pa, pb := Split(a), Split(b);
    JoinAppend(pa, pb);
    JoinSplit(a);
    JoinSplit(b);
    assert NoSep(pa + pb) by {
      forall i | 0 <= i < |pa + pb|
        ensures Sep !in (pa + pb)[i]
      {
        if i >= |pa| {
          assert (pa + pb)[i] == pb[i - |pa|];
        }
      }
    }
    SplitJoin(pa + pb);
  }

  /** `a` names a directory above `b`: `b` starts with `a` followed by a separator. */
  predicate IsAncestor(a: string, b: string)
  {
    |a| < |b| && b[..|a|] == a && b[|a|] == Sep
  }

  /** The join of a proper prefix of the parts names a directory above the join of all of them. */
  lemma JoinPrefixIsAncestor(parts: seq<string>, m: nat)
    requires 1 <= m < |parts|
    ensures IsAncestor(Join(parts[..m]), Join(parts))
  {
    assert parts[..m] + parts[m..] == parts;
    JoinAppend(parts[..m], parts[m..]);
  }

  /** Conversely, every directory above `b` is the join of a proper prefix of `b`'s parts. */
  lemma AncestorIsJoinPrefix(a: string, b: string)
    requires IsAncestor(a, b)
    ensures |Split(a)| < |Split(b)| && Split(b)[..|Split(a)|] == Split(a)
    ensures Join(Split(b)[..|Split(a)|]) == a
  {
    var rest := b[|a| + 1..];
    assert b == a + [Sep] + rest;
    SplitAppend(a, rest);
    assert Split(b)[..|Split(a)|] == Split(a);
    JoinSplit(a);
  }

  /** A parent path is a proper prefix of the path, followed there by a separator. */
  lemma ParentPathPrefix(path: string)
    requires ParentPath(path).Some?
    ensures |ParentPath(path).value| < |path|
    ensures path[..|ParentPath(path).value|] == ParentPath(path).value
    ensures path[|ParentPath(path).value|] == Sep
  {
    var parts := Split(path);
    var q := parts[..|parts| - 1];
    assert q + [parts[|parts| - 1]] == parts;
    JoinSplit(path);
    JoinSnoc(q, parts[|parts| - 1]);
  }

  /** A directory above a directory above `c` is above `c`. */
  lemma AncestorTransitive(a: string, b: string, c: string)
    requires IsAncestor(a, b) && IsAncestor(b, c)
    ensures IsAncestor(a, c)
  {
    assert c[..|b|][..|a|] == c[..|a|];
  }

  /** Whether the path consists of one part only. */
  function IsTopLevel(path: string): bool
  {
    ParentPath(path) == None
  }

  /** `ParentPath` and `LastSegment` are the inverse of joining one more part. */
  lemma {:induction false} SplitLast(q: seq<string>, x: string)
    requires |q| >= 1 && NoSep(q) && Sep !in x
    ensures ParentPath(Join(q + [x])) == Some(Join(q))
    ensures LastSegment(Join(q + [x])) == x
  {
    assert NoSep(q + [x]);
    SplitJoin(q + [x]);
    assert (q + [x])[..|q|] == q;
  }

  /** A path whose parts were `q` has parent `q` minus its last part, and that last part as name. */
  lemma PrefixParent(parts: seq<string>, n: nat)
    requires NoSep(parts) && 1 <= n <= |parts|
    ensures Split(Join(parts[..n])) == parts[..n]
    ensures ParentPath(Join(parts[..n])) == if n == 1 then None else Some(Join(parts[..n - 1]))
    ensures LastSegment(Join(parts[..n])) == parts[n - 1]
  {
    assert NoSep(parts[..n]);
    SplitJoin(parts[..n]);
    assert parts[..n][..n - 1] == parts[..n - 1];
  }
}
