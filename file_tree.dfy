/**
 * `buildFileTree` of the file explorer: turns the workspace's file paths, in
 * the insertion order of its `Map`, into a forest of directory and file nodes.
 *
 * The source links `FileNode` objects by reference: the `tree` array and every
 * directory's `children` array hold references to node objects that `pathMap`
 * also holds. Here the node objects live in a heap `nodes`, and a reference is
 * an index into it.
 */
module FileTree {
  import opened Nullable
  import opened Seqs
  import opened Paths

  datatype NodeType = File | Directory

  /** A `FileNode`; `children` is `undefined` (None) for a file and a list of node references otherwise. */
  datatype FileNode = FileNode(name: string, path: string, nodeType: NodeType, children: Option<seq<nat>>)

  /** What `buildFileTree` has built so far: the allocated nodes, the `tree` array of roots and `pathMap`. */
  datatype TreeState = TreeState(nodes: seq<FileNode>, tree: seq<nat>, pathMap: map<string, nat>)

  const Empty: TreeState := TreeState([], [], map[])

  /** The new `currentPath`: `currentPath ? `${currentPath}/${part}` : part`. */
  function NextPath(cur: string, part: string): string
  {
    if cur == "" then part else cur + [Sep] + part
  }

  /** `currentPath` after the first `n` parts of a path have been visited. */
  function RunningPath(parts: seq<string>, n: nat): string
    requires n <= |parts|
  {
    if n == 0 then "" else NextPath(RunningPath(parts, n - 1), parts[n - 1])
  }

  /** The path of every node, in allocation order. */
  function NodePaths(nodes: seq<FileNode>): (ps: seq<string>)
    ensures |ps| == |nodes|
    ensures forall k :: 0 <= k < |nodes| ==> ps[k] == nodes[k].path
  {
    seq(|nodes|, k requires 0 <= k < |nodes| => nodes[k].path)
  }

  /**
   * The heap is well formed: `pathMap` maps exactly the node paths to their
   * nodes (so no two nodes share a path), a node has children exactly when it
   * is a directory, a node's name is the last part of its path, and every
   * reference points at an allocated node.
   */
  ghost predicate Valid(s: TreeState)
  {
    && (forall p :: p in s.pathMap ==> s.pathMap[p] < |s.nodes| && s.nodes[s.pathMap[p]].path == p)
    && (forall k :: 0 <= k < |s.nodes| ==> s.nodes[k].path in s.pathMap && s.pathMap[s.nodes[k].path] == k)
    && (forall k :: 0 <= k < |s.nodes| ==> (s.nodes[k].nodeType == File <==> s.nodes[k].children == None))
    && (forall k :: 0 <= k < |s.nodes| ==> s.nodes[k].name == LastSegment(s.nodes[k].path))
    && (forall k :: 0 <= k < |s.tree| ==> s.tree[k] < |s.nodes|)
    && (forall k, j :: 0 <= k < |s.nodes| && s.nodes[k].children.Some? && 0 <= j < |s.nodes[k].children.value|
          ==> s.nodes[k].children.value[j] < |s.nodes|)
  }

  /** Splitting `a + "/" + x` adds `x` as the last part. */
  lemma SplitSnoc(a: string, x: string)
    requires Sep !in x
    ensures Split(a + [Sep] + x) == Split(a) + [x]
  {
    JoinSplit(a);
    JoinSnoc(Split(a), x);
    assert NoSep(Split(a) + [x]);
    SplitJoin(Split(a) + [x]);
  }

  /** The name of the node created for a part is the last part of the new `currentPath`. */
  lemma NextPathLast(prev: string, part: string)
    requires Sep !in part
    ensures LastSegment(NextPath(prev, part)) == part
  {
    if prev == "" {
      SplitNoSep(part);
    } else {
      SplitSnoc(prev, part);
    }
  }

  /**
   * `node` can be allocated in `s`: its path is new, it has children exactly
   * when it is a directory (none yet), and its name is its path's last part.
   */
  ghost predicate Fresh(s: TreeState, node: FileNode)
  {
    && node.path !in s.pathMap
    && (node.children == None || node.children == Some([]))
    && (node.nodeType == File <==> node.children == None)
    && node.name == LastSegment(node.path)
  }

  /** A fresh node object is recorded in `pathMap` (and, for a root, in `tree`). */
  lemma AllocateValid(s: TreeState, node: FileNode, root: bool)
    requires Valid(s) && Fresh(s, node)
    ensures Valid(TreeState(s.nodes + [node], if root then s.tree + [|s.nodes|] else s.tree, s.pathMap[node.path := |s.nodes|]))
  {
    var k := |s.nodes|;
    var r := TreeState(s.nodes + [node], if root then s.tree + [k] else s.tree, s.pathMap[node.path := k]);
    forall p | p in r.pathMap
      ensures r.pathMap[p] < |r.nodes| && r.nodes[r.pathMap[p]].path == p
    {
      if p != node.path {
        assert p in s.pathMap;
      }
    }
    forall i | 0 <= i < |r.nodes|
      ensures r.nodes[i].path in r.pathMap && r.pathMap[r.nodes[i].path] == i
    {
      if i < k {
        assert r.nodes[i] == s.nodes[i];
      }
    }
    forall i, j | 0 <= i < |r.nodes| && r.nodes[i].children.Some? && 0 <= j < |r.nodes[i].children.value|
      ensures r.nodes[i].children.value[j] < |r.nodes|
    {
      if i < k {
        assert r.nodes[i] == s.nodes[i];
      }
    }
  }

  /** `parent.children.push(node)` on a directory keeps the heap well formed. */
  lemma AttachValid(s: TreeState, q: nat, k: nat)
    requires Valid(s) && q < |s.nodes| && k < |s.nodes| && s.nodes[q].children.Some?
    ensures Valid(s.(nodes := s.nodes[q := s.nodes[q].(children := Some(s.nodes[q].children.value + [k]))]))
  {
    var r := s.(nodes := s.nodes[q := s.nodes[q].(children := Some(s.nodes[q].children.value + [k]))]);
    assert forall i :: 0 <= i < |s.nodes| ==> r.nodes[i].path == s.nodes[i].path;
    forall i, j | 0 <= i < |r.nodes| && r.nodes[i].children.Some? && 0 <= j < |r.nodes[i].children.value|
      ensures r.nodes[i].children.value[j] < |r.nodes|
    {
      if i != q {
        assert r.nodes[i] == s.nodes[i];
      } else if j < |s.nodes[q].children.value| {
        assert r.nodes[i].children.value[j] == s.nodes[q].children.value[j];
      }
    }
  }

  /** The node object created for part `i`, whose `currentPath` is `cur`: a file for the last part, else an empty directory. */
  function NewNode(parts: seq<string>, i: nat, cur: string): FileNode
    requires i < |parts|
  {
    var isLast := i == |parts| - 1;
    FileNode(parts[i], cur, if isLast then File else Directory, if isLast then None else Some([]))
  }

  /** `pathMap.set(currentPath, node)` for a fresh node, and `tree.push(node)` for a root. */
  function Allocate(s: TreeState, node: FileNode, root: bool): (r: TreeState)
    requires Valid(s) && Fresh(s, node)
    ensures Valid(r)
  {
    AllocateValid(s, node, root);
    TreeState(s.nodes + [node], if root then s.tree + [|s.nodes|] else s.tree, s.pathMap[node.path := |s.nodes|])
  }

  /** `parent.children.push(node)` for the directory at `q` and the node at `k`. */
  function Attach(s: TreeState, q: nat, k: nat): (r: TreeState)
    requires Valid(s) && q < |s.nodes| && k < |s.nodes| && s.nodes[q].children.Some?
    ensures Valid(r)
  {
    AttachValid(s, q, k);
    s.(nodes := s.nodes[q := s.nodes[q].(children := Some(s.nodes[q].children.value + [k]))])
  }

  /** Attaching changes only the children of `q`, which gain `k` at the end. */
  lemma AttachKeeps(s: TreeState, q: nat, k: nat)
    requires Valid(s) && q < |s.nodes| && k < |s.nodes| && s.nodes[q].children.Some?
    ensures var r := Attach(s, q, k);
      && |r.nodes| == |s.nodes| && r.tree == s.tree && r.pathMap == s.pathMap
      && r.nodes[q] == s.nodes[q].(children := Some(s.nodes[q].children.value + [k]))
      && (forall j :: 0 <= j < |s.nodes| && j != q ==> r.nodes[j] == s.nodes[j])
      && (forall j :: 0 <= j < |s.nodes| ==> r.nodes[j].path == s.nodes[j].path && r.nodes[j].nodeType == s.nodes[j].nodeType)
  {
  }

  /**
   * One step of the inner `forEach`: visit part `i` of a path whose
   * `currentPath` so far is `prev`. A node is created only for a new
   * `currentPath`; it is a root at index 0 and otherwise is pushed onto the
   * children of the node at `parts.slice(0, index).join('/')`, when that node
   * exists and has a children list.
   */
  function VisitPart(s: TreeState, parts: seq<string>, i: nat, prev: string): (r: TreeState)
    requires Valid(s) && i < |parts| && Sep !in parts[i]
    ensures Valid(r)
  {
    var cur := NextPath(prev, parts[i]);
    if cur in s.pathMap then s
    else
      NextPathLast(prev, parts[i]);
      var s1 := Allocate(s, NewNode(parts, i, cur), i == 0);
      if i == 0 then s1
      else
        var parentPath := Join(parts[..i]);
        if parentPath in s1.pathMap && s1.nodes[s1.pathMap[parentPath]].children.Some? then
          Attach(s1, s1.pathMap[parentPath], |s.nodes|)
        else s1
  }

  /**
   * What visiting a part does: nothing for a known `currentPath`; otherwise
   * one node for it is added, a file exactly for the last part, and every
   * older node keeps its path and kind.
   */
  lemma VisitPartEffect(s: TreeState, parts: seq<string>, i: nat, prev: string)
    requires Valid(s) && i < |parts| && Sep !in parts[i]
    ensures var r := VisitPart(s, parts, i, prev); var cur := NextPath(prev, parts[i]);
      && (cur in s.pathMap ==> r == s)
      && (cur !in s.pathMap ==>
            && |r.nodes| == |s.nodes| + 1 && r.pathMap == s.pathMap[cur := |s.nodes|]
            && r.nodes[|s.nodes|].path == cur && (r.nodes[|s.nodes|].nodeType == File <==> i == |parts| - 1)
            && (forall j :: 0 <= j < |s.nodes| ==> r.nodes[j].path == s.nodes[j].path && r.nodes[j].nodeType == s.nodes[j].nodeType))
  {
    var cur := NextPath(prev, parts[i]);
    if cur !in s.pathMap && i > 0 {
      NextPathLast(prev, parts[i]);
      var s1 := Allocate(s, NewNode(parts, i, cur), false);
      var parentPath := Join(parts[..i]);
      if parentPath in s1.pathMap && s1.nodes[s1.pathMap[parentPath]].children.Some? {
        AttachKeeps(s1, s1.pathMap[parentPath], |s.nodes|);
      }
    }
  }

  /** The state after visiting the first `n` parts of a path (the inner loop). */
  function Walk(s: TreeState, parts: seq<string>, n: nat): (r: TreeState)
    requires Valid(s) && n <= |parts| && NoSep(parts)
    ensures Valid(r)
    decreases n
  {
    if n == 0 then s else VisitPart(Walk(s, parts, n - 1), parts, n - 1, RunningPath(parts, n - 1))
  }

  /** The state after visiting every part of one path. */
  function VisitPath(s: TreeState, path: string): (r: TreeState)
    requires Valid(s)
    ensures Valid(r)
  {
    var parts := Split(path);
    Walk(s, parts, |parts|)
  }

  /** The state after visiting the paths in order (the outer loop). */
  function TreeOf(paths: seq<string>): (r: TreeState)
    ensures Valid(r)
    decreases |paths|
  {
    if paths == [] then Empty else VisitPath(TreeOf(paths[..|paths| - 1]), paths[|paths| - 1])
  }

  /** `pathMap` holds a path exactly when some node has it. */
  lemma KeysAreNodePaths(s: TreeState, p: string)
    requires Valid(s)
    ensures p in s.pathMap <==> p in NodePaths(s.nodes)
  {
    if p in s.pathMap {
      assert NodePaths(s.nodes)[s.pathMap[p]] == p;
    }
  }

  /** One visited part adds its `currentPath` to `pathMap`, and allocates a node only for a new one. */
  lemma VisitPartFacts(s: TreeState, parts: seq<string>, i: nat, prev: string)
    requires Valid(s) && i < |parts| && Sep !in parts[i]
    ensures VisitPart(s, parts, i, prev).pathMap.Keys == s.pathMap.Keys + {NextPath(prev, parts[i])}
    ensures forall p :: p in s.pathMap ==> VisitPart(s, parts, i, prev).pathMap[p] == s.pathMap[p]
    ensures var cur := NextPath(prev, parts[i]);
      NodePaths(VisitPart(s, parts, i, prev).nodes) == NodePaths(s.nodes) + (if cur in s.pathMap then [] else [cur])
  {
    var cur := NextPath(prev, parts[i]);
    var r := VisitPart(s, parts, i, prev);
    VisitPartEffect(s, parts, i, prev);
    if cur !in s.pathMap {
      assert NodePaths(r.nodes) == NodePaths(s.nodes) + [cur];
    }
  }

  /** The `currentPath` values a path goes through, one per part. */
  function RunningPrefixes(parts: seq<string>, n: nat): (r: seq<string>)
    requires n <= |parts|
    ensures |r| == n
  {
    if n == 0 then [] else RunningPrefixes(parts, n - 1) + [RunningPath(parts, n)]
  }

  /** Every `currentPath` the outer loop goes through, path by path, with repetitions. */
  function PrefixStream(paths: seq<string>): seq<string>
  {
    if paths == [] then []
    else
      var parts := Split(paths[|paths| - 1]);
      PrefixStream(paths[..|paths| - 1]) + RunningPrefixes(parts, |parts|)
  }

  lemma {:induction false} WalkNodePaths(s: TreeState, parts: seq<string>, n: nat, t: seq<string>)
    requires Valid(s) && NoSep(parts) && n <= |parts|
    requires NodePaths(s.nodes) == Dedup(t)
    ensures NodePaths(Walk(s, parts, n).nodes) == Dedup(t + RunningPrefixes(parts, n))
    decreases n
  {
    if n == 0 {
      assert t + [] == t;
    } else {
      WalkNodePaths(s, parts, n - 1, t);
      var w := Walk(s, parts, n - 1);
      var cur := RunningPath(parts, n);
      VisitPartFacts(w, parts, n - 1, RunningPath(parts, n - 1));
      KeysAreNodePaths(w, cur);
      var u := t + RunningPrefixes(parts, n);
      assert u == (t + RunningPrefixes(parts, n - 1)) + [cur];
      assert u[..|u| - 1] == t + RunningPrefixes(parts, n - 1);
    }
  }

  /**
   * Each `currentPath` gets exactly one node, allocated the first time it
   * is seen: the node paths are the running prefixes of all paths, in order
   * of first occurrence. In particular no two nodes share a path.
   */
  lemma {:induction false} NodesAreDistinctPrefixes(paths: seq<string>)
    ensures NodePaths(TreeOf(paths).nodes) == Dedup(PrefixStream(paths))
    ensures NoDup(NodePaths(TreeOf(paths).nodes))
    decreases |paths|
  {
    if paths != [] {
      var init := paths[..|paths| - 1];
      NodesAreDistinctPrefixes(init);
      var parts := Split(paths[|paths| - 1]);
      WalkNodePaths(TreeOf(init), parts, |parts|, PrefixStream(init));
    }
  }

  /** The keys of `w.pathMap` are those of `s.pathMap` and the first `m` `currentPath` values. */
  ghost predicate KeysAfter(w: TreeState, s: TreeState, parts: seq<string>, m: nat)
    requires m <= |parts|
  {
    forall x :: x in w.pathMap <==> x in s.pathMap || x in RunningPrefixes(parts, m)
  }

  /** The keys of `pathMap` after a walk: the earlier keys and the walk's `currentPath` values. */
  lemma {:induction false} WalkKeys(s: TreeState, parts: seq<string>, n: nat)
    requires Valid(s) && NoSep(parts) && n <= |parts|
    ensures KeysAfter(Walk(s, parts, n), s, parts, n)
    decreases n
  {
    if n > 0 {
      var m: nat := n - 1;
      WalkKeys(s, parts, m);
      WalkKeysStep(s, Walk(s, parts, m), parts, m);
    }
  }

  lemma WalkKeysStep(s: TreeState, w: TreeState, parts: seq<string>, m: nat)
    requires Valid(w) && NoSep(parts) && m < |parts|
    requires KeysAfter(w, s, parts, m)
    ensures KeysAfter(VisitPart(w, parts, m, RunningPath(parts, m)), s, parts, m + 1)
  {
    VisitPartFacts(w, parts, m, RunningPath(parts, m));
    assert RunningPrefixes(parts, m + 1) == RunningPrefixes(parts, m) + [RunningPath(parts, m + 1)];
  }

  /** `pathMap` has a key exactly for every `currentPath` value the loops go through. */
  lemma {:induction false} KeysArePrefixes(paths: seq<string>)
    ensures forall x :: x in TreeOf(paths).pathMap <==> x in PrefixStream(paths)
    decreases |paths|
  {
    if paths != [] {
      var init := paths[..|paths| - 1];
      KeysArePrefixes(init);
      var parts := Split(paths[|paths| - 1]);
      WalkKeys(TreeOf(init), parts, |parts|);
    }
  }

  /** A path that does not begin with the separator (its first part is empty only if it is the whole path). */
  predicate Rooted(path: string)
  {
    path == [] || path[0] != Sep
  }

  predicate AllRooted(paths: seq<string>)
  {
    forall i :: 0 <= i < |paths| ==> Rooted(paths[i])
  }

  lemma RootedFirstPart(path: string)
    requires Rooted(path) && |Split(path)| > 1
    ensures Split(path)[0] != ""
  {
  }

  /** For a rooted path `currentPath` after `n` parts is `parts.slice(0, n).join('/')`. */
  lemma {:induction false} RunningPathIsJoin(parts: seq<string>, n: nat)
    requires NoSep(parts) && (|parts| > 1 ==> parts[0] != "") && 1 <= n <= |parts|
    ensures RunningPath(parts, n) == Join(parts[..n])
    decreases n
  {
    if n > 1 {
      RunningPathIsJoin(parts, n - 1);
      if n - 1 >= 2 {
        JoinHasSep(parts[..n - 1]);
      }
      JoinSnoc(parts[..n - 1], parts[n - 1]);
      assert parts[..n - 1] + [parts[n - 1]] == parts[..n];
    }
  }

  lemma {:induction false} RunningPrefixesAt(parts: seq<string>, n: nat, j: nat)
    requires j < n <= |parts|
    ensures RunningPrefixes(parts, n)[j] == RunningPath(parts, j + 1)
    decreases n
  {
    if j < n - 1 {
      RunningPrefixesAt(parts, n - 1, j);
    }
  }

  /** For a rooted path the `currentPath` values are the path itself and the directories above it. */
  lemma RootedPrefixes(path: string)
    requires Rooted(path)
    ensures forall x :: x in RunningPrefixes(Split(path), |Split(path)|) <==> x == path || IsAncestor(x, path)
  {
    var parts := Split(path);
    var rp := RunningPrefixes(parts, |parts|);
    JoinSplit(path);
    if |parts| > 1 {
      RootedFirstPart(path);
    }
    assert parts[..|parts|] == parts;
    forall x | x in rp
      ensures x == path || IsAncestor(x, path)
    {
      var j :| 0 <= j < |rp| && rp[j] == x;
      RunningPrefixesAt(parts, |parts|, j);
      RunningPathIsJoin(parts, j + 1);
      if j + 1 < |parts| {
        JoinPrefixIsAncestor(parts, j + 1);
      }
    }
    forall x | x == path || IsAncestor(x, path)
      ensures x in rp
    {
      var m := |parts|;
      if x != path {
        AncestorIsJoinPrefix(x, path);
        m := |Split(x)|;
      }
      RunningPrefixesAt(parts, |parts|, m - 1);
      RunningPathIsJoin(parts, m);
    }
  }

  /** `x` is one of the paths or a directory above one of them. */
  ghost predicate Covered(x: string, paths: seq<string>)
  {
    exists i :: 0 <= i < |paths| && (x == paths[i] || IsAncestor(x, paths[i]))
  }

  lemma {:induction false} PrefixStreamCovered(paths: seq<string>)
    requires AllRooted(paths)
    ensures forall x :: x in PrefixStream(paths) <==> Covered(x, paths)
    decreases |paths|
  {
    if paths != [] {
      var init := paths[..|paths| - 1];
      var last := paths[|paths| - 1];
      assert AllRooted(init);
      PrefixStreamCovered(init);
      RootedPrefixes(last);
      forall x
        ensures x in PrefixStream(paths) <==> Covered(x, paths)
      {
        if Covered(x, paths) {
          var i :| 0 <= i < |paths| && (x == paths[i] || IsAncestor(x, paths[i]));
          if i < |paths| - 1 {
            assert init[i] == paths[i];
          }
        }
        if Covered(x, init) {
          var i :| 0 <= i < |init| && (x == init[i] || IsAncestor(x, init[i]));
          assert paths[i] == init[i];
        }
      }
    }
  }

  /**
   * For rooted paths `pathMap` has a key exactly for each path and each
   * directory above one; in particular every path has a node of its own.
   */
  lemma KeysAreCovered(paths: seq<string>)
    requires AllRooted(paths)
    ensures forall x :: x in TreeOf(paths).pathMap <==> Covered(x, paths)
    ensures forall i :: 0 <= i < |paths| ==> paths[i] in TreeOf(paths).pathMap
  {
    KeysArePrefixes(paths);
    PrefixStreamCovered(paths);
    forall i | 0 <= i < |paths|
      ensures paths[i] in TreeOf(paths).pathMap
    {
      assert Covered(paths[i], paths);
    }
  }

  /** No path names a directory above another path. */
  predicate ConflictFree(paths: seq<string>)
  {
    forall i, j :: 0 <= i < |paths| && 0 <= j < |paths| ==> !IsAncestor(paths[i], paths[j])
  }

  /** A node is a file exactly when its path is one of `done`. */
  ghost predicate KindsMatch(s: TreeState, done: seq<string>)
  {
    forall k :: 0 <= k < |s.nodes| ==> (s.nodes[k].nodeType == File <==> s.nodes[k].path in done)
  }

  /** `pathMap` has a key exactly for each of `paths` and each directory above one. */
  ghost predicate KeysCovered(s: TreeState, paths: seq<string>)
  {
    forall x :: x in s.pathMap <==> Covered(x, paths)
  }

  /** What holds of the tree built from `init` before path `p` is walked. */
  ghost predicate KindsContext(s: TreeState, init: seq<string>, p: string)
  {
    Valid(s) && KindsMatch(s, init) && KeysCovered(s, init) && Rooted(p) && ConflictFree(init + [p])
  }

  lemma KindsStep(s: TreeState, init: seq<string>, p: string, w: TreeState, m: nat)
    requires KindsContext(s, init, p) && m < |Split(p)|
    requires Valid(w) && KindsMatch(w, init) && KeysAfter(w, s, Split(p), m)
    ensures KindsMatch(VisitPart(w, Split(p), m, RunningPath(Split(p), m)),
                       if m + 1 == |Split(p)| then init + [p] else init)
  {
    var parts := Split(p);
    VisitPartEffect(w, parts, m, RunningPath(parts, m));
    InitIsKept(s, init, w, parts, m);
    CurrentIsLast(p, m);
    EarlierKeyIsInit(s, init, p, w, m);
    KindsExtend(w, VisitPart(w, parts, m, RunningPath(parts, m)), init, p, RunningPath(parts, m + 1), m + 1 == |parts|);
  }

  /**
   * The kinds stay matched when a step either changes nothing or adds one
   * node for `cur`, a file exactly when `cur` is the whole path `p`.
   */
  lemma KindsExtend(w: TreeState, r: TreeState, init: seq<string>, p: string, cur: string, last: bool)
    requires Valid(w) && KindsMatch(w, init)
    requires cur in w.pathMap ==> r == w
    requires cur !in w.pathMap ==>
      && |r.nodes| == |w.nodes| + 1
      && r.nodes[|w.nodes|].path == cur && (r.nodes[|w.nodes|].nodeType == File <==> last)
      && (forall j :: 0 <= j < |w.nodes| ==> r.nodes[j].path == w.nodes[j].path && r.nodes[j].nodeType == w.nodes[j].nodeType)
    requires cur == p <==> last
    requires forall x :: x in init ==> x in w.pathMap
    requires p in w.pathMap ==> p in init
    ensures KindsMatch(r, if last then init + [p] else init)
  {
    var done := if last then init + [p] else init;
    forall k | 0 <= k < |r.nodes|
      ensures r.nodes[k].nodeType == File <==> r.nodes[k].path in done
    {
      var x := r.nodes[k].path;
      assert x in done <==> x in init || (last && x == p);
      if k < |w.nodes| {
        assert w.nodes[k].path in w.pathMap;
      }
    }
  }

  /** Every earlier path is already a key. */
  lemma InitIsKept(s: TreeState, init: seq<string>, w: TreeState, parts: seq<string>, m: nat)
    requires m <= |parts| && KeysCovered(s, init) && KeysAfter(w, s, parts, m)
    ensures forall x :: x in init ==> x in w.pathMap
  {
    forall x | x in init
      ensures x in w.pathMap
    {
      var i :| 0 <= i < |init| && init[i] == x;
      assert Covered(init[i], init);
    }
  }

  /** The `currentPath` of part `m` is the whole path exactly for the last part. */
  lemma CurrentIsLast(p: string, m: nat)
    requires Rooted(p) && m < |Split(p)|
    ensures RunningPath(Split(p), m + 1) == p <==> m + 1 == |Split(p)|
  {
    var parts := Split(p);
    if |parts| > 1 {
      RootedFirstPart(p);
    }
    RunningPathIsJoin(parts, m + 1);
    JoinSplit(p);
    assert parts[..|parts|] == parts;
    if m + 1 < |parts| {
      JoinPrefixIsAncestor(parts, m + 1);
    }
  }

  /** Before its walk ends, the whole path `p` is a key only if an earlier path made it one. */
  lemma EarlierKeyIsInit(s: TreeState, init: seq<string>, p: string, w: TreeState, m: nat)
    requires Rooted(p) && ConflictFree(init + [p]) && m < |Split(p)|
    requires KeysCovered(s, init) && KeysAfter(w, s, Split(p), m)
    ensures p in w.pathMap ==> p in init
  {
    var parts := Split(p);
    if |parts| > 1 {
      RootedFirstPart(p);
    }
    if p in w.pathMap {
      if p in s.pathMap {
        var i :| 0 <= i < |init| && (p == init[i] || IsAncestor(p, init[i]));
        assert (init + [p])[|init|] == p && (init + [p])[i] == init[i];
      } else {
        var rp := RunningPrefixes(parts, m);
        var j :| 0 <= j < |rp| && rp[j] == p;
        RunningPrefixesAt(parts, m, j);
        RunningPathIsJoin(parts, j + 1);
        JoinPrefixIsAncestor(parts, j + 1);
        JoinSplit(p);
      }
    }
  }

  lemma {:induction false} WalkKinds(s: TreeState, init: seq<string>, p: string, n: nat)
    requires KindsContext(s, init, p) && n <= |Split(p)|
    ensures KindsMatch(Walk(s, Split(p), n), if n == |Split(p)| then init + [p] else init)
    decreases n
  {
    if n > 0 {
      var m: nat := n - 1;
      WalkKinds(s, init, p, m);
      WalkKeys(s, Split(p), m);
      KindsWalkStep(s, init, p, m);
    }
  }

  /** `KindsStep` for the state after `m` parts. */
  lemma KindsWalkStep(s: TreeState, init: seq<string>, p: string, m: nat)
    requires KindsContext(s, init, p) && m < |Split(p)|
    requires KindsMatch(Walk(s, Split(p), m), init) && KeysAfter(Walk(s, Split(p), m), s, Split(p), m)
    ensures KindsMatch(Walk(s, Split(p), m + 1), if m + 1 == |Split(p)| then init + [p] else init)
  {
    KindsStep(s, init, p, Walk(s, Split(p), m), m);
  }

  /**
   * When no path names a directory above another, the file nodes are
   * exactly the paths: a node is a file if and only if its path is one of
   * the inputs, and every input has a node.
   */
  lemma {:induction false} FilesAreThePaths(paths: seq<string>)
    requires AllRooted(paths) && ConflictFree(paths)
    ensures KindsMatch(TreeOf(paths), paths)
    ensures forall i :: 0 <= i < |paths| ==> paths[i] in TreeOf(paths).pathMap
    decreases |paths|
  {
    KeysAreCovered(paths);
    if paths != [] {
      var init := paths[..|paths| - 1];
      var p := paths[|paths| - 1];
      assert init + [p] == paths;
      assert AllRooted(init);
      assert ConflictFree(init) by {
        forall i, j | 0 <= i < |init| && 0 <= j < |init|
          ensures !IsAncestor(init[i], init[j])
        {
          assert init[i] == paths[i] && init[j] == paths[j];
        }
      }
      FilesAreThePaths(init);
      KeysAreCovered(init);
      WalkKinds(TreeOf(init), init, p, |Split(p)|);
    }
  }

  /** The paths at the given node indices. */
  function PathsAt(ps: seq<string>, idx: seq<nat>): (r: seq<string>)
    requires forall i :: 0 <= i < |idx| ==> idx[i] < |ps|
    ensures |r| == |idx| && forall i :: 0 <= i < |idx| ==> r[i] == ps[idx[i]]
  {
    seq(|idx|, i requires 0 <= i < |idx| => ps[idx[i]])
  }

  /** The paths of the one-part members, in order, are the one-part paths. */
  lemma {:induction false} TopMembersPaths(ps: seq<string>)
    ensures forall i :: 0 <= i < |Members(ps, None)| ==> Members(ps, None)[i] < |ps|
    ensures PathsAt(ps, Members(ps, None)) == Filter(ps, IsTopLevel)
    decreases |ps|
  {
    if ps != [] {
      var init := ps[..|ps| - 1];
      TopMembersPaths(init);
      assert init + [ps[|ps| - 1]] == ps;
      TopMembersSnoc(init, ps[|ps| - 1]);
    }
  }

  /** One more path extends the one-part members' paths by that path exactly when it is one part long. */
  lemma TopMembersSnoc(init: seq<string>, x: string)
    requires forall i :: 0 <= i < |Members(init, None)| ==> Members(init, None)[i] < |init|
    requires PathsAt(init, Members(init, None)) == Filter(init, IsTopLevel)
    ensures forall i :: 0 <= i < |Members(init + [x], None)| ==> Members(init + [x], None)[i] < |init + [x]|
    ensures PathsAt(init + [x], Members(init + [x], None)) == Filter(init + [x], IsTopLevel)
  {
    var ps := init + [x];
    var mi := Members(init, None);
    MembersSnoc(init, x, None);
    var extra := if IsTopLevel(x) then [|init|] else [];
    var lhs := PathsAt(ps, mi + extra);
    var prior := PathsAt(init, mi);
    assert lhs == prior + (if IsTopLevel(x) then [x] else []) by {
      forall i | 0 <= i < |mi|
        ensures lhs[i] == prior[i]
      {
        assert ps[mi[i]] == init[mi[i]];
      }
    }
    FilterAppend(init, [x], IsTopLevel);
    assert Filter([x], IsTopLevel) == if IsTopLevel(x) then [x] else [] by {
      assert [x][..0] == [];
    }
  }

  /** The first part of every path, one per path. */
  function FirstSegments(paths: seq<string>): (r: seq<string>)
    ensures |r| == |paths|
  {
    if paths == [] then [] else FirstSegments(paths[..|paths| - 1]) + [Split(paths[|paths| - 1])[0]]
  }

  /** Of a rooted path's `currentPath` values only the first, its first part, is one part long. */
  lemma {:induction false} TopRunningPrefixes(parts: seq<string>, n: nat)
    requires NoSep(parts) && (|parts| > 1 ==> parts[0] != "") && 1 <= n <= |parts|
    ensures Filter(RunningPrefixes(parts, n), IsTopLevel) == [parts[0]]
    decreases n
  {
    var rp := RunningPrefixes(parts, n);
    var x := RunningPath(parts, n);
    assert rp == RunningPrefixes(parts, n - 1) + [x];
    FilterAppend(RunningPrefixes(parts, n - 1), [x], IsTopLevel);
    assert Filter([x], IsTopLevel) == if IsTopLevel(x) then [x] else [] by {
      assert [x][..0] == [];
    }
    RunningPathIsJoin(parts, n);
    PrefixParent(parts, n);
    if n > 1 {
      TopRunningPrefixes(parts, n - 1);
    } else {
      assert parts[..1] == [parts[0]];
    }
  }

  lemma {:induction false} TopPrefixStream(paths: seq<string>)
    requires AllRooted(paths)
    ensures Filter(PrefixStream(paths), IsTopLevel) == FirstSegments(paths)
    decreases |paths|
  {
    if paths != [] {
      var init := paths[..|paths| - 1];
      var last := paths[|paths| - 1];
      assert AllRooted(init);
      TopPrefixStream(init);
      var parts := Split(last);
      assert Rooted(last);
      if |parts| > 1 {
        RootedFirstPart(last);
      }
      FilterAppend(PrefixStream(init), RunningPrefixes(parts, |parts|), IsTopLevel);
      TopRunningPrefixes(parts, |parts|);
    }
  }

  /**
   * The roots, in order, are the distinct first parts of the paths, each at
   * its first occurrence.
   */
  lemma RootsAreFirstSegments(paths: seq<string>)
    requires AllRooted(paths)
    ensures forall i :: 0 <= i < |TreeOf(paths).tree| ==> TreeOf(paths).tree[i] < |TreeOf(paths).nodes|
    ensures PathsAt(NodePaths(TreeOf(paths).nodes), TreeOf(paths).tree) == Dedup(FirstSegments(paths))
  {
    var s := TreeOf(paths);
    TreeOfShaped(paths);
    NodesAreDistinctPrefixes(paths);
    TopMembersPaths(NodePaths(s.nodes));
    FilterDedup(PrefixStream(paths), IsTopLevel);
    TopPrefixStream(paths);
  }

  /** Node `k` can be reached from the roots by following `children` lists. */
  ghost predicate Reachable(s: TreeState, k: nat)
    decreases k
  {
    && k < |s.nodes|
    && (k in s.tree
        || exists q: nat :: q < k && s.nodes[q].children.Some? && k in s.nodes[q].children.value && Reachable(s, q))
  }

  /**
   * When no path names a directory above another, no node is lost: every
   * node, in particular every file, is reachable from the roots.
   */
  lemma AllReachable(paths: seq<string>)
    requires AllRooted(paths) && ConflictFree(paths)
    ensures forall k :: 0 <= k < |TreeOf(paths).nodes| ==> Reachable(TreeOf(paths), k)
  {
    TreeOfShaped(paths);
    TreeShape(paths);
    FilesAreThePaths(paths);
    KeysAreCovered(paths);
    forall k | 0 <= k < |TreeOf(paths).nodes|
      ensures Reachable(TreeOf(paths), k)
    {
      ReachableAt(paths, k);
    }
  }

  /**
   * First occurrence wins: a node whose parent path belongs to a file is
   * attached nowhere, neither as a root nor as anyone's child, so it cannot
   * be reached.
   */
  lemma UnderFileIsDetached(paths: seq<string>, k: nat)
    requires AllRooted(paths) && k < |TreeOf(paths).nodes|
    requires ParentPath(TreeOf(paths).nodes[k].path).Some?
    requires ParentPath(TreeOf(paths).nodes[k].path).value in TreeOf(paths).pathMap
    requires TreeOf(paths).nodes[TreeOf(paths).pathMap[ParentPath(TreeOf(paths).nodes[k].path).value]].nodeType == File
    ensures k !in TreeOf(paths).tree
    ensures forall d :: 0 <= d < |TreeOf(paths).nodes| && TreeOf(paths).nodes[d].children.Some? ==>
      k !in TreeOf(paths).nodes[d].children.value
    ensures !Reachable(TreeOf(paths), k)
  {
    var s := TreeOf(paths);
    TreeShape(paths);
    var pp := ParentPath(s.nodes[k].path).value;
    forall d | 0 <= d < |s.nodes| && s.nodes[d].children.Some?
      ensures k !in s.nodes[d].children.value
    {
      assert s.pathMap[s.nodes[d].path] == d;
    }
  }

  lemma {:induction false} ReachableAt(paths: seq<string>, k: nat)
    requires AllRooted(paths) && ConflictFree(paths) && k < |TreeOf(paths).nodes|
    requires Shaped(TreeOf(paths)) && KindsMatch(TreeOf(paths), paths)
    requires forall x :: x in TreeOf(paths).pathMap <==> Covered(x, paths)
    requires forall d, c :: 0 <= d < |TreeOf(paths).nodes| && TreeOf(paths).nodes[d].children.Some? ==>
      (c in TreeOf(paths).nodes[d].children.value <==>
       0 <= c < |TreeOf(paths).nodes| && ParentPath(TreeOf(paths).nodes[c].path) == Some(TreeOf(paths).nodes[d].path))
    ensures Reachable(TreeOf(paths), k)
    decreases k
  {
    var s := TreeOf(paths);
    var path := s.nodes[k].path;
    if ParentPath(path).None? {
      MembersSpec(NodePaths(s.nodes), None);
      assert k in s.tree;
    } else {
      var pp := ParentPath(path).value;
      var q := s.pathMap[pp];
      assert q < k;
      ReachableAt(paths, q);
      ParentPathPrefix(path);
      assert IsAncestor(pp, path);
      assert path in s.pathMap;
      var i :| 0 <= i < |paths| && (path == paths[i] || IsAncestor(path, paths[i]));
      if path != paths[i] {
        AncestorTransitive(pp, path, paths[i]);
      }
      assert pp !in paths by {
        forall j | 0 <= j < |paths|
          ensures paths[j] != pp
        {
          assert !IsAncestor(paths[j], paths[i]);
        }
      }
      assert s.nodes[q].children.Some?;
      assert k in s.nodes[q].children.value;
    }
  }

  /** The indices of the paths whose parent path is `parent`, in increasing order. */
  function Members(ps: seq<string>, parent: Option<string>): seq<nat>
    decreases |ps|
  {
    if ps == [] then []
    else
      var init := Members(ps[..|ps| - 1], parent);
      if ParentPath(ps[|ps| - 1]) == parent then init + [|ps| - 1] else init
  }

  lemma MembersSnoc(ps: seq<string>, x: string, parent: Option<string>)
    ensures Members(ps + [x], parent) == Members(ps, parent) + (if ParentPath(x) == parent then [|ps|] else [])
  {
    assert (ps + [x])[..|ps|] == ps;
  }

  /** `Members` lists exactly the matching indices, in increasing order. */
  lemma {:induction false} MembersSpec(ps: seq<string>, parent: Option<string>)
    ensures forall k :: k in Members(ps, parent) <==> (0 <= k < |ps| && ParentPath(ps[k]) == parent)
    ensures forall a, b :: 0 <= a < b < |Members(ps, parent)| ==> Members(ps, parent)[a] < Members(ps, parent)[b]
    ensures forall a :: 0 <= a < |Members(ps, parent)| ==> Members(ps, parent)[a] < |ps|
    decreases |ps|
  {
    if ps != [] {
      MembersSpec(ps[..|ps| - 1], parent);
    }
  }

  lemma MembersEmpty(ps: seq<string>, parent: Option<string>)
    requires forall k :: 0 <= k < |ps| ==> ParentPath(ps[k]) != parent
    ensures Members(ps, parent) == []
  {
    if ps != [] {
      MembersEmpty(ps[..|ps| - 1], parent);
    }
  }

  /**
   * The shape of the forest for rooted paths: `tree` lists the one-part
   * nodes, a directory's `children` list the nodes whose parent path is the
   * directory's path, both in allocation order, and a node's parent path
   * belongs to a node allocated before it.
   */
  ghost predicate Shaped(s: TreeState)
  {
    && Valid(s)
    && s.tree == Members(NodePaths(s.nodes), None)
    && ChildrenShaped(s.nodes)
    && ParentsBefore(s)
  }

  /** Each directory's `children` are the nodes whose parent path is the directory's path. */
  ghost predicate ChildrenShaped(nodes: seq<FileNode>)
  {
    forall k :: 0 <= k < |nodes| && nodes[k].children.Some? ==>
      nodes[k].children.value == Members(NodePaths(nodes), Some(nodes[k].path))
  }

  /** Each node's parent path belongs to a node allocated before it. */
  ghost predicate ParentsBefore(s: TreeState)
  {
    forall k :: 0 <= k < |s.nodes| && ParentPath(s.nodes[k].path).Some? ==>
      ParentPath(s.nodes[k].path).value in s.pathMap && s.pathMap[ParentPath(s.nodes[k].path).value] < k
  }

  /** The node paths grow by the path of a node appended. */
  lemma NodePathsSnoc(nodes: seq<FileNode>, node: FileNode)
    ensures NodePaths(nodes + [node]) == NodePaths(nodes) + [node.path]
  {
    assert forall k :: 0 <= k < |nodes| ==> (nodes + [node])[k] == nodes[k];
  }

  /** Node lists that agree on every path have the same node paths. */
  lemma NodePathsAgree(a: seq<FileNode>, b: seq<FileNode>)
    requires |a| == |b| && forall j :: 0 <= j < |a| ==> a[j].path == b[j].path
    ensures NodePaths(a) == NodePaths(b)
  {
  }

  /** A fresh node's path is nobody's parent path yet. */
  lemma FreshHasNoMembers(s: TreeState, p: string)
    requires Valid(s) && ParentsBefore(s) && p !in s.pathMap
    ensures Members(NodePaths(s.nodes), Some(p)) == []
  {
    var ps := NodePaths(s.nodes);
    forall c | 0 <= c < |ps|
      ensures ParentPath(ps[c]) != Some(p)
    {
      assert s.nodes[c].path == ps[c];
    }
    MembersEmpty(ps, Some(p));
  }

  /** Right after allocation, a fresh node's path is still nobody's parent path. */
  lemma FreshStaysChildless(s: TreeState, p: string)
    requires Valid(s) && ParentsBefore(s) && p !in s.pathMap
    ensures Members(NodePaths(s.nodes) + [p], Some(p)) == []
  {
    FreshHasNoMembers(s, p);
    MembersSnoc(NodePaths(s.nodes), p, Some(p));
    if ParentPath(p).Some? {
      ParentPathPrefix(p);
    }
  }

  /** No directory of `s` has the parent path of `p`. */
  ghost predicate NoDirectoryAbove(s: TreeState, p: string)
  {
    forall j :: 0 <= j < |s.nodes| && s.nodes[j].children.Some? ==> ParentPath(p) != Some(s.nodes[j].path)
  }

  /** Appending a node that no directory is the parent of keeps every child list exact. */
  lemma ChildrenAfterAppend(s: TreeState, node: FileNode)
    requires Valid(s) && ChildrenShaped(s.nodes) && ParentsBefore(s) && Fresh(s, node)
    requires NoDirectoryAbove(s, node.path)
    ensures ChildrenShaped(s.nodes + [node])
  {
    var r := s.nodes + [node];
    NodePathsSnoc(s.nodes, node);
    forall j | 0 <= j < |r| && r[j].children.Some?
      ensures r[j].children.value == Members(NodePaths(r), Some(r[j].path))
    {
      if j < |s.nodes| {
        assert r[j] == s.nodes[j];
        MembersSnoc(NodePaths(s.nodes), node.path, Some(s.nodes[j].path));
      } else {
        FreshStaysChildless(s, node.path);
      }
    }
  }

  /** Appending a node and pushing it onto its parent directory `q` keeps every child list exact. */
  lemma ChildrenAfterAttach(s: TreeState, node: FileNode, q: nat)
    requires Valid(s) && ChildrenShaped(s.nodes) && ParentsBefore(s) && Fresh(s, node)
    requires q < |s.nodes| && s.nodes[q].children.Some? && ParentPath(node.path) == Some(s.nodes[q].path)
    ensures ChildrenShaped(Attach(Allocate(s, node, false), q, |s.nodes|).nodes)
  {
    var k := |s.nodes|;
    var s1 := Allocate(s, node, false);
    var r := Attach(s1, q, k);
    AttachKeeps(s1, q, k);
    NodePathsSnoc(s.nodes, node);
    NodePathsAgree(r.nodes, s1.nodes);
    assert s.pathMap[s.nodes[q].path] == q;
    forall j | 0 <= j < |r.nodes| && r.nodes[j].children.Some?
      ensures r.nodes[j].children.value == Members(NodePaths(r.nodes), Some(r.nodes[j].path))
    {
      if j == k {
        FreshStaysChildless(s, node.path);
      } else {
        var pj := s.nodes[j].path;
        MembersSnoc(NodePaths(s.nodes), node.path, Some(pj));
        assert s.pathMap[pj] == j;
        assert s1.nodes[j] == s.nodes[j];
      }
    }
  }

  /** Allocating a node whose parent path, if any, is present keeps `ParentsBefore`. */
  lemma ParentsBeforeAlloc(s: TreeState, node: FileNode, root: bool)
    requires Valid(s) && ParentsBefore(s) && Fresh(s, node)
    requires ParentPath(node.path).Some? ==> ParentPath(node.path).value in s.pathMap
    ensures ParentsBefore(Allocate(s, node, root))
  {
    var r := Allocate(s, node, root);
    forall c | 0 <= c < |r.nodes| && ParentPath(r.nodes[c].path).Some?
      ensures ParentPath(r.nodes[c].path).value in r.pathMap && r.pathMap[ParentPath(r.nodes[c].path).value] < c
    {
      if c < |s.nodes| {
        assert r.nodes[c] == s.nodes[c];
      }
    }
  }

  /**
   * Allocating a node that goes into no child list keeps the shape: a root
   * when it has one part, and otherwise a node under a file.
   */
  lemma AllocateShaped(s: TreeState, node: FileNode, root: bool)
    requires Shaped(s) && Fresh(s, node)
    requires root <==> ParentPath(node.path) == None
    requires ParentPath(node.path).Some? ==> ParentPath(node.path).value in s.pathMap
    requires NoDirectoryAbove(s, node.path)
    ensures Shaped(Allocate(s, node, root))
  {
    ChildrenAfterAppend(s, node);
    NodePathsSnoc(s.nodes, node);
    MembersSnoc(NodePaths(s.nodes), node.path, None);
    ParentsBeforeAlloc(s, node, root);
  }

  /** Allocating a node and pushing it onto the children of its parent directory `q` keeps the shape. */
  lemma AttachShaped(s: TreeState, node: FileNode, q: nat)
    requires Shaped(s) && Fresh(s, node)
    requires q < |s.nodes| && s.nodes[q].children.Some? && ParentPath(node.path) == Some(s.nodes[q].path)
    ensures Shaped(Attach(Allocate(s, node, false), q, |s.nodes|))
  {
    var k := |s.nodes|;
    var s1 := Allocate(s, node, false);
    var r := Attach(s1, q, k);
    ChildrenAfterAttach(s, node, q);
    AttachKeeps(s1, q, k);
    NodePathsSnoc(s.nodes, node);
    NodePathsAgree(r.nodes, s1.nodes);
    MembersSnoc(NodePaths(s.nodes), node.path, None);
    ParentsBeforeAlloc(s, node, false);
    assert ParentsBefore(r) by {
      forall c | 0 <= c < |r.nodes| && ParentPath(r.nodes[c].path).Some?
        ensures ParentPath(r.nodes[c].path).value in r.pathMap && r.pathMap[ParentPath(r.nodes[c].path).value] < c
      {
        assert r.nodes[c].path == s1.nodes[c].path;
      }
    }
  }

  /** Visiting a part keeps the shape of the forest (for a rooted path whose parent prefix is present). */
  lemma VisitPartShaped(s: TreeState, parts: seq<string>, i: nat)
    requires Shaped(s) && NoSep(parts) && i < |parts| && (|parts| > 1 ==> parts[0] != "")
    requires i > 0 ==> Join(parts[..i]) in s.pathMap
    ensures Shaped(VisitPart(s, parts, i, RunningPath(parts, i)))
  {
    if NextPath(RunningPath(parts, i), parts[i]) !in s.pathMap {
      if i == 0 {
        VisitRootShaped(s, parts);
      } else {
        VisitChildShaped(s, parts, i);
      }
    }
  }

  /** The first part, when new, becomes a root. */
  lemma VisitRootShaped(s: TreeState, parts: seq<string>)
    requires Shaped(s) && NoSep(parts) && 0 < |parts| && (|parts| > 1 ==> parts[0] != "")
    requires NextPath("", parts[0]) !in s.pathMap
    ensures Shaped(VisitPart(s, parts, 0, RunningPath(parts, 0)))
  {
    assert parts[..1] == [parts[0]];
    PrefixParent(parts, 1);
    NextPathLast("", parts[0]);
    AllocateShaped(s, NewNode(parts, 0, parts[0]), true);
  }

  /** For a later part, the previous `currentPath` is the joined prefix and the parent path of the new one. */
  lemma ChildPathFacts(parts: seq<string>, i: nat)
    requires NoSep(parts) && 0 < i < |parts| && parts[0] != ""
    ensures RunningPath(parts, i) == Join(parts[..i])
    ensures ParentPath(NextPath(RunningPath(parts, i), parts[i])) == Some(RunningPath(parts, i))
    ensures LastSegment(NextPath(RunningPath(parts, i), parts[i])) == parts[i]
    ensures NextPath(RunningPath(parts, i), parts[i]) != RunningPath(parts, i)
  {
    RunningPathIsJoin(parts, i);
    RunningPathIsJoin(parts, i + 1);
    PrefixParent(parts, i + 1);
    assert |NextPath(RunningPath(parts, i), parts[i])| > |RunningPath(parts, i)|;
  }

  /** A later part, when new, goes under the node of the parts before it. */
  lemma VisitChildShaped(s: TreeState, parts: seq<string>, i: nat)
    requires Shaped(s) && NoSep(parts) && 0 < i < |parts| && parts[0] != ""
    requires Join(parts[..i]) in s.pathMap
    requires NextPath(RunningPath(parts, i), parts[i]) !in s.pathMap
    ensures Shaped(VisitPart(s, parts, i, RunningPath(parts, i)))
  {
    ChildPathFacts(parts, i);
    var prev := RunningPath(parts, i);
    var node := NewNode(parts, i, NextPath(prev, parts[i]));
    var q := s.pathMap[prev];
    assert s.nodes[q].path == prev;
    if s.nodes[q].children.Some? {
      AttachShaped(s, node, q);
    } else {
      assert NoDirectoryAbove(s, node.path) by {
        forall j | 0 <= j < |s.nodes| && s.nodes[j].children.Some?
          ensures ParentPath(node.path) != Some(s.nodes[j].path)
        {
          assert s.pathMap[s.nodes[j].path] == j;
        }
      }
      AllocateShaped(s, node, false);
    }
  }

  /** After `n` parts of a rooted path, the path of its first `n` parts is in `pathMap`. */
  lemma WalkReachesPrefix(s: TreeState, parts: seq<string>, n: nat)
    requires Valid(s) && NoSep(parts) && 1 <= n <= |parts| && (|parts| > 1 ==> parts[0] != "")
    ensures Join(parts[..n]) in Walk(s, parts, n).pathMap
  {
    VisitPartFacts(Walk(s, parts, n - 1), parts, n - 1, RunningPath(parts, n - 1));
    RunningPathIsJoin(parts, n);
  }

  lemma {:induction false} WalkShaped(s: TreeState, parts: seq<string>, n: nat)
    requires Shaped(s) && NoSep(parts) && n <= |parts| && (|parts| > 1 ==> parts[0] != "")
    ensures Shaped(Walk(s, parts, n))
    decreases n
  {
    if n > 0 {
      var m: nat := n - 1;
      WalkShaped(s, parts, m);
      if m > 0 {
        WalkReachesPrefix(s, parts, m);
      }
      VisitPartShaped(Walk(s, parts, m), parts, m);
    }
  }

  lemma {:induction false} TreeOfShaped(paths: seq<string>)
    requires AllRooted(paths)
    ensures Shaped(TreeOf(paths))
    decreases |paths|
  {
    if paths != [] {
      var init := paths[..|paths| - 1];
      assert AllRooted(init);
      TreeOfShaped(init);
      var path := paths[|paths| - 1];
      assert Rooted(path);
      var parts := Split(path);
      if |parts| > 1 {
        RootedFirstPart(path);
      }
      WalkShaped(TreeOf(init), parts, |parts|);
    }
  }

  /**
   * For rooted paths the forest has the intended shape: the roots are the
   * nodes of one-part paths, a directory's children are the nodes one part
   * below it, both in the order in which their paths first occur, and
   * every node's parent path has a node.
   */
  lemma TreeShape(paths: seq<string>)
    requires AllRooted(paths)
    ensures var s := TreeOf(paths);
      && (forall k :: k in s.tree <==> 0 <= k < |s.nodes| && IsTopLevel(s.nodes[k].path))
      && (forall a, b :: 0 <= a < b < |s.tree| ==> s.tree[a] < s.tree[b])
      && (forall d, k :: 0 <= d < |s.nodes| && s.nodes[d].children.Some? ==>
            (k in s.nodes[d].children.value <==> 0 <= k < |s.nodes| && ParentPath(s.nodes[k].path) == Some(s.nodes[d].path)))
      && (forall d, a, b :: 0 <= d < |s.nodes| && s.nodes[d].children.Some? && 0 <= a < b < |s.nodes[d].children.value| ==>
            s.nodes[d].children.value[a] < s.nodes[d].children.value[b])
      && (forall k :: 0 <= k < |s.nodes| && ParentPath(s.nodes[k].path).Some? ==> ParentPath(s.nodes[k].path).value in s.pathMap)
  {
    var s := TreeOf(paths);
    TreeOfShaped(paths);
    var ps := NodePaths(s.nodes);
    MembersSpec(ps, None);
    forall d | 0 <= d < |s.nodes| && s.nodes[d].children.Some?
      ensures forall k :: k in s.nodes[d].children.value <==> 0 <= k < |s.nodes| && ParentPath(s.nodes[k].path) == Some(s.nodes[d].path)
      ensures forall a, b :: 0 <= a < b < |s.nodes[d].children.value| ==> s.nodes[d].children.value[a] < s.nodes[d].children.value[b]
    {
      MembersSpec(ps, Some(s.nodes[d].path));
    }
  }

  /**
   * `buildFileTree(files)`, for the keys of `files` in insertion order. It
   * returns the root list together with the node heap that the roots refer to.
   */
  method BuildFileTree(paths: seq<string>) returns (tree: seq<nat>, nodes: seq<FileNode>)
    ensures tree == TreeOf(paths).tree && nodes == TreeOf(paths).nodes
    ensures paths == [] ==> tree == [] && nodes == []
  {
    tree := [];
    nodes := [];
    var pathMap: map<string, nat> := map[];
    var j := 0;
    while j < |paths|
      invariant 0 <= j <= |paths|
      invariant TreeState(nodes, tree, pathMap) == TreeOf(paths[..j])
    {
      assert paths[..j + 1][..j] == paths[..j];
      tree, nodes, pathMap := VisitPathParts(tree, nodes, pathMap, paths[j]);
      j := j + 1;
    }
    assert paths[..j] == paths;
  }

  /** The body of the outer `forEach`: walk the parts of one path, updating the builder's state. */
  method VisitPathParts(tree0: seq<nat>, nodes0: seq<FileNode>, pathMap0: map<string, nat>, path: string)
    returns (tree: seq<nat>, nodes: seq<FileNode>, pathMap: map<string, nat>)
    requires Valid(TreeState(nodes0, tree0, pathMap0))
    ensures TreeState(nodes, tree, pathMap) == VisitPath(TreeState(nodes0, tree0, pathMap0), path)
  {
    tree, nodes, pathMap := tree0, nodes0, pathMap0;
    var parts := Split(path);
    var currentPath := "";
    var index := 0;
    ghost var s0 := TreeState(nodes0, tree0, pathMap0);
    while index < |parts|
      invariant 0 <= index <= |parts|
      invariant currentPath == RunningPath(parts, index)
      invariant TreeState(nodes, tree, pathMap) == Walk(s0, parts, index)
    {
      WalkOneMore(s0, parts, index);
      tree, nodes, pathMap, currentPath := VisitPartStep(tree, nodes, pathMap, parts, index, currentPath);
      index := index + 1;
    }
  }

  /** One more turn of the inner loop visits the next part from the running path. */
  lemma WalkOneMore(s: TreeState, parts: seq<string>, n: nat)
    requires Valid(s) && n < |parts| && NoSep(parts)
    ensures Sep !in parts[n] && Valid(Walk(s, parts, n))
    ensures RunningPath(parts, n + 1) == NextPath(RunningPath(parts, n), parts[n])
    ensures Walk(s, parts, n + 1) == VisitPart(Walk(s, parts, n), parts, n, RunningPath(parts, n))
  {
  }

  /** The body of the inner `forEach`, for part `index`; `currentPath` is the closure variable it updates. */
  method VisitPartStep(tree0: seq<nat>, nodes0: seq<FileNode>, pathMap0: map<string, nat>,
                       parts: seq<string>, index: nat, currentPath0: string)
    returns (tree: seq<nat>, nodes: seq<FileNode>, pathMap: map<string, nat>, currentPath: string)
    requires Valid(TreeState(nodes0, tree0, pathMap0)) && index < |parts| && Sep !in parts[index]
    ensures currentPath == NextPath(currentPath0, parts[index])
    ensures TreeState(nodes, tree, pathMap) == VisitPart(TreeState(nodes0, tree0, pathMap0), parts, index, currentPath0)
  {
    tree, nodes, pathMap := tree0, nodes0, pathMap0;
    var part := parts[index];
    var isLast := index == |parts| - 1;
    currentPath := if currentPath0 == "" then part else currentPath0 + [Sep] + part;
    if currentPath !in pathMap {
      var node := FileNode(part, currentPath, if isLast then File else Directory, if isLast then None else Some([]));
      var k := |nodes|;
      nodes := nodes + [node];
      pathMap := pathMap[currentPath := k];
      if index == 0 {
        tree := tree + [k];
      } else {
        var parentPath := Join(parts[..index]);
        if parentPath in pathMap && nodes[pathMap[parentPath]].children.Some? {
          var q := pathMap[parentPath];
          nodes := nodes[q := nodes[q].(children := Some(nodes[q].children.value + [k]))];
        }
      }
    }
  }
}
