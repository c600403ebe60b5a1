/**
 * `build_tree_model` of the Qt application: the root row `root/`, one row
 * per proper directory prefix of the scanned paths, added in (depth, path)
 * order under the row of its parent directory, then one row per file in
 * scan order under the row of its directory. `path_to_item` maps each
 * directory path (and `""` for the root) to its row.
 */
module QtTree {
  import opened Wrappers
  import opened Text
  import opened Sorting
  import opened Extension
  import opened QtModel

  /** `'/'.join(parts[:-1])`: the directory a path sits in, `""` at the top. */
  function DirParent(path: string): string
  {
    var parts := Split(path, '/');
    Join(parts[..|parts| - 1], '/')
  }

  /** `'/'.join(parts[:i])` for `1 <= i < n`. */
  function Prefixes(parts: seq<string>, n: nat): set<string>
    requires n <= |parts|
  {
    if n <= 1 then {} else Prefixes(parts, n - 1) + {Join(parts[..n - 1], '/')}
  }

  /** The directories the scan loop of `build_tree_model` collects from the paths `keys`. */
  function DirsOf(keys: seq<string>): set<string>
  {
    if |keys| == 0 then {}
    else
      var parts := Split(keys[|keys| - 1], '/');
      DirsOf(keys[..|keys| - 1]) + Prefixes(parts, |parts|)
  }

  /** `d` is `'/'.join(parts[:i])` for the parts of `key`, a proper prefix by whole segments. */
  predicate PrefixDir(key: string, i: nat, d: string)
  {
    1 <= i < |Split(key, '/')| && d == Join(Split(key, '/')[..i], '/')
  }

  lemma {:induction false} PrefixesHas(parts: seq<string>, n: nat, i: nat)
    requires 1 <= i < n <= |parts|
    ensures Join(parts[..i], '/') in Prefixes(parts, n)
  {
    if i < n - 1 {
      PrefixesHas(parts, n - 1, i);
    }
  }

  lemma {:induction false} PrefixesWitness(parts: seq<string>, n: nat, d: string) returns (i: nat)
    requires n <= |parts| && d in Prefixes(parts, n)
    ensures 1 <= i < n && d == Join(parts[..i], '/')
  {
    if d == Join(parts[..n - 1], '/') {
      i := n - 1;
    } else {
      i := PrefixesWitness(parts, n - 1, d);
    }
  }

  /** Every proper prefix, by whole segments, of a scanned path is a collected directory. */
  lemma {:induction false} DirsOfHas(keys: seq<string>, k: nat, i: nat, d: string)
    requires k < |keys| && PrefixDir(keys[k], i, d)
    ensures d in DirsOf(keys)
  {
    var front := keys[..|keys| - 1];
    if k == |keys| - 1 {
      var parts := Split(keys[k], '/');
      PrefixesHas(parts, |parts|, i);
    } else {
      assert front[k] == keys[k];
      DirsOfHas(front, k, i, d);
    }
  }

  /** Every collected directory is a proper prefix, by whole segments, of a scanned path. */
  lemma {:induction false} DirsOfWitness(keys: seq<string>, d: string) returns (k: nat, i: nat)
    requires d in DirsOf(keys)
    ensures k < |keys| && PrefixDir(keys[k], i, d)
  {
    var front := keys[..|keys| - 1];
    var parts := Split(keys[|keys| - 1], '/');
    if d in Prefixes(parts, |parts|) {
      k := |keys| - 1;
      i := PrefixesWitness(parts, |parts|, d);
    } else {
      k, i := DirsOfWitness(front, d);
      assert front[k] == keys[k];
    }
  }

  /** A directory is collected exactly when it is a proper prefix, by whole segments, of some path. */
  lemma DirsOfMembers(keys: seq<string>, d: string)
    ensures d in DirsOf(keys) <==> exists k, i :: 0 <= k < |keys| && PrefixDir(keys[k], i, d)
  {
    if d in DirsOf(keys) {
      var k, i := DirsOfWitness(keys, d);
    }
    if exists k, i :: 0 <= k < |keys| && PrefixDir(keys[k], i, d) {
      var k, i :| 0 <= k < |keys| && PrefixDir(keys[k], i, d);
      DirsOfHas(keys, k, i, d);
    }
  }

  /** The sort key `(x.count('/'), x)`. */
  function DirKey(d: string): seq<int>
  {
    [Count(d, '/')] + Codes(d)
  }

  /** Joining the first `i` parts of a split and splitting again gives those parts back. */
  lemma JoinedPrefix(parts: seq<string>, i: nat)
    requires 1 <= i <= |parts| && forall j :: 0 <= j < |parts| ==> '/' !in parts[j]
    ensures Split(Join(parts[..i], '/'), '/') == parts[..i]
    ensures Count(Join(parts[..i], '/'), '/') == i - 1
    ensures DirParent(Join(parts[..i], '/')) == Join(parts[..i - 1], '/')
  {
    var pre := parts[..i];
    assert forall j :: 0 <= j < |pre| ==> pre[j] == parts[j];
    SplitJoin(pre, '/');
    CountJoin(pre, '/');
    assert pre[..i - 1] == parts[..i - 1];
  }

  /** The parent of a collected directory is the top or a collected directory that sorts before it. */
  lemma ParentInDirs(keys: seq<string>, d: string)
    requires d in DirsOf(keys)
    ensures DirParent(d) == "" || (DirParent(d) in DirsOf(keys) && Less(DirKey(DirParent(d)), DirKey(d)))
  {
    var k, i := DirsOfWitness(keys, d);
    var parts := Split(keys[k], '/');
    JoinedPrefix(parts, i);
    if i >= 2 {
      var parent := Join(parts[..i - 1], '/');
      JoinedPrefix(parts, i - 1);
      DirsOfHas(keys, k, i - 1, parent);
      assert DirKey(parent)[0] < DirKey(d)[0];
    }
  }

  /** A path's directory is the prefix of all but its last part. */
  lemma DirParentIsPrefix(key: string)
    requires |Split(key, '/')| >= 2
    ensures PrefixDir(key, |Split(key, '/')| - 1, DirParent(key))
  {
  }

  /** The directory of every scanned path is the top or a collected directory. */
  lemma FileParentInDirs(keys: seq<string>, k: nat)
    requires k < |keys|
    ensures DirParent(keys[k]) == "" || DirParent(keys[k]) in DirsOf(keys)
  {
    var parts := Split(keys[k], '/');
    if |parts| >= 2 {
      DirParentIsPrefix(keys[k]);
      DirsOfHas(keys, k, |parts| - 1, DirParent(keys[k]));
    } else {
      assert parts[..|parts| - 1] == [];
    }
  }

  /** The paths of the scanned files, in scan order: `list(self.file_map.keys())`. */
  function Paths(files: seq<(string, nat)>): (r: seq<string>)
    ensures |r| == |files| && forall j :: 0 <= j < |files| ==> r[j] == files[j].0
  {
    seq(|files|, j requires 0 <= j < |files| => files[j].0)
  }

  /** The first loop of `build_tree_model`: every proper prefix of every path. */
  method CollectDirs(keys: seq<string>) returns (dirs: set<string>)
    ensures dirs == DirsOf(keys)
  {
    dirs := {};
    for k := 0 to |keys|
      invariant dirs == DirsOf(keys[..k])
    {
      var parts := Split(keys[k], '/');
      for i := 1 to |parts|
        invariant dirs == DirsOf(keys[..k]) + Prefixes(parts, i)
      {
        dirs := dirs + {Join(parts[..i], '/')};
      }
      assert keys[..k + 1][..k] == keys[..k];
    }
    assert keys[..|keys|] == keys;
  }

  /** `sorted(dirs, key=lambda x: (x.count('/'), x))`. */
  method SortedDirs(dirs: set<string>) returns (ordered: seq<string>)
    ensures SortedBy(ordered, DirKey)
    ensures forall d :: d in ordered <==> d in dirs
    ensures NoDup(ordered) && |ordered| == |dirs|
  {
    var listed: seq<string> := [];
    var rest := dirs;
    while rest != {}
      invariant rest <= dirs
      invariant forall d :: d in listed <==> d in dirs && d !in rest
      invariant NoDup(listed) && |listed| + |rest| == |dirs|
      decreases |rest|
    {
      var d :| d in rest;
      listed := listed + [d];
      rest := rest - {d};
    }
    ordered := Sort(listed, DirKey);
    SortSorted(listed, DirKey);
    SortMembers(listed, DirKey);
    SortNoDup(listed, DirKey);
  }

  function DirItem(name: string, parent: nat): Item
  {
    Item(name + "/", parent, [], true, Unchecked, None, None, None)
  }

  /** A file row is labelled with the file name; the size shown beside it is not modelled. */
  function FileItem(relPath: string, size: nat, parent: nat): Item
  {
    Item(BaseName(relPath), parent, [], true, Unchecked, Some(GetExtension(relPath)), Some(relPath), Some(size))
  }

  /** `parent_item.appendRow(item)`: the new item goes at the end of the arena and of its parent's rows. */
  function AddChild(items: seq<Item>, parentIdx: nat, it: Item): (r: seq<Item>)
    requires parentIdx < |items|
    ensures |r| == |items| + 1 && r[|items|] == it
    ensures forall i :: 0 <= i < |items| && i != parentIdx ==> r[i] == items[i]
    ensures r[parentIdx] == items[parentIdx].(children := items[parentIdx].children + [|items|])
  {
    items[parentIdx := items[parentIdx].(children := items[parentIdx].children + [|items|])] + [it]
  }

  /** Every item's rows are in the order they were appended, which is arena order. */
  predicate Ascending(items: seq<Item>)
  {
    forall p, a, b :: 0 <= p < |items| && 0 <= a < b < |items[p].children| ==> items[p].children[a] < items[p].children[b]
  }

  lemma AddChildAscending(items: seq<Item>, parentIdx: nat, it: Item)
    requires WellFormed(items) && Ascending(items) && parentIdx < |items| && it.children == []
    ensures Ascending(AddChild(items, parentIdx, it))
  {
    var r := AddChild(items, parentIdx, it);
    forall p, a, b | 0 <= p < |r| && 0 <= a < b < |r[p].children|
      ensures r[p].children[a] < r[p].children[b]
    {
      if p == parentIdx && b == |items[p].children| {
        assert r[p].children[a] == items[p].children[a];
      }
    }
  }

  lemma AddChildWellFormed(items: seq<Item>, parentIdx: nat, it: Item)
    requires WellFormed(items) && AllCheckable(items) && parentIdx < |items|
    requires it.parent == parentIdx && it.children == [] && it.checkable
    ensures WellFormed(AddChild(items, parentIdx, it)) && AllCheckable(AddChild(items, parentIdx, it))
  {
    AddChildParents(items, parentIdx, it);
    AddChildRows(items, parentIdx, it);
  }

  /** The new item is a row of its parent, and the old items keep theirs. */
  lemma AddChildParents(items: seq<Item>, parentIdx: nat, it: Item)
    requires WellFormed(items) && parentIdx < |items| && it.parent == parentIdx
    ensures forall i :: 1 <= i < |items| + 1 ==>
              0 <= AddChild(items, parentIdx, it)[i].parent < i &&
              i in AddChild(items, parentIdx, it)[AddChild(items, parentIdx, it)[i].parent].children
  {
    var r := AddChild(items, parentIdx, it);
    forall i | 1 <= i < |r|
      ensures 0 <= r[i].parent < i && i in r[r[i].parent].children
    {
      if i < |items| {
        var q := items[i].parent;
        assert r[i].parent == q;
        assert i in items[q].children;
        assert forall x :: x in items[q].children ==> x in r[q].children;
      } else {
        assert r[parentIdx].children[|items[parentIdx].children|] == i;
      }
    }
  }

  /** The new item's parent is the item that now lists it, and the old rows keep theirs. */
  lemma AddChildChildParents(items: seq<Item>, parentIdx: nat, it: Item)
    requires WellFormed(items) && ChildParents(items) && parentIdx < |items| && it.parent == parentIdx && it.children == []
    ensures ChildParents(AddChild(items, parentIdx, it))
  {
    var r := AddChild(items, parentIdx, it);
    forall i, k | 0 <= i < |r| && 0 <= k < |r[i].children| && r[i].children[k] < |r|
      ensures r[r[i].children[k]].parent == i
    {
      if i == parentIdx && k == |items[parentIdx].children| {
        assert r[i].children[k] == |items|;
      } else if i < |items| {
        assert r[i].children[k] == items[i].children[k];
        assert r[items[i].children[k]].parent == items[items[i].children[k]].parent;
      }
    }
  }

  /** Rows still come after their item and inside the arena. */
  lemma AddChildRows(items: seq<Item>, parentIdx: nat, it: Item)
    requires WellFormed(items) && parentIdx < |items| && it.children == []
    ensures forall i, k :: 0 <= i < |items| + 1 && 0 <= k < |AddChild(items, parentIdx, it)[i].children| ==>
              i < AddChild(items, parentIdx, it)[i].children[k] < |items| + 1
  {
    var r := AddChild(items, parentIdx, it);
    forall i, k | 0 <= i < |r| && 0 <= k < |r[i].children|
      ensures i < r[i].children[k] < |r|
    {
      if i < |items| && k < |items[i].children| {
        assert r[i].children[k] == items[i].children[k];
      }
    }
  }

  /**
   * The rows `0 .. base - 1`: the invisible root, the top row `root/` and
   * one row per directory of `m`; `pathOf` names the path of each of them.
   */
  ghost predicate DirRows(rootName: string, items: seq<Item>, m: map<string, nat>, pathOf: seq<string>, base: nat)
  {
    && WellFormed(items) && AllCheckable(items) && Ascending(items) && ChildParents(items)
    && 2 <= base <= |items| && |pathOf| == base
    && items[0].children == [1]
    && items[1] == DirItem(rootName, 0).(children := items[1].children)
    && "" in m && m[""] == 1
    && (forall i :: 0 <= i < |items| ==> items[i].state == Unchecked)
    && PathsAgree(m, pathOf, base)
    && (forall i :: 2 <= i < base ==> DirRowAt(items, m, pathOf, i))
  }

  /** Row `i` is the row of directory `pathOf[i]`: labelled with its last segment, below its parent's row, carrying no data. */
  ghost predicate DirRowAt(items: seq<Item>, m: map<string, nat>, pathOf: seq<string>, i: nat)
  {
    && i < |items| && i < |pathOf| && DirParent(pathOf[i]) in m
    && items[i] == DirItem(BaseName(pathOf[i]), m[DirParent(pathOf[i])]).(children := items[i].children)
  }

  /** `m` and `pathOf` are inverse bijections between the directories and the rows `1 .. base - 1`. */
  predicate PathsAgree(m: map<string, nat>, pathOf: seq<string>, base: nat)
    requires |pathOf| == base
  {
    && (forall d :: d in m ==> 1 <= m[d] < base && pathOf[m[d]] == d)
    && (forall i :: 1 <= i < base ==> pathOf[i] in m && m[pathOf[i]] == i)
  }

  lemma PathsExtend(m: map<string, nat>, pathOf: seq<string>, base: nat, d: string)
    requires 1 <= base && |pathOf| == base && PathsAgree(m, pathOf, base) && d !in m
    ensures PathsAgree(m[d := base], pathOf + [d], base + 1)
  {
    var m' := m[d := base];
    var pathOf' := pathOf + [d];
    forall e | e in m'
      ensures 1 <= m'[e] < base + 1 && pathOf'[m'[e]] == e
    {
      if e != d {
        assert pathOf'[m[e]] == pathOf[m[e]];
      }
    }
    forall i | 1 <= i < base + 1
      ensures pathOf'[i] in m' && m'[pathOf'[i]] == i
    {
      if i < base {
        assert pathOf'[i] == pathOf[i] && pathOf[i] != d;
      }
    }
  }

  /**
   * What the directory rows mean: every directory of `m` other than the
   * top has a row labelled with its last segment and `/`, placed below
   * the row of its parent directory, with no extension, path or size.
   */
  lemma DirRowsMeaning(rootName: string, items: seq<Item>, m: map<string, nat>, pathOf: seq<string>, base: nat, d: string)
    requires DirRows(rootName, items, m, pathOf, base) && d in m && d != ""
    ensures 2 <= m[d] < base && DirParent(d) in m
    ensures items[m[d]].text == BaseName(d) + "/" && items[m[d]].parent == m[DirParent(d)]
    ensures items[m[d]].ext.None? && items[m[d]].relPath.None? && items[m[d]].size.None?
  {
    assert pathOf[m[""]] == "";
    assert DirRowAt(items, m, pathOf, m[d]);
  }

  /** The top row and the directory rows carry no path, extension or size. */
  lemma DirRowsNoData(rootName: string, items: seq<Item>, m: map<string, nat>, pathOf: seq<string>, base: nat)
    requires DirRows(rootName, items, m, pathOf, base)
    ensures forall i :: 1 <= i < base ==> items[i].relPath.None? && items[i].ext.None? && items[i].size.None?
  {
    forall i | 2 <= i < base
      ensures items[i].relPath.None? && items[i].ext.None? && items[i].size.None?
    {
      assert DirRowAt(items, m, pathOf, i);
    }
  }

  /** Appending a row below one of the rows of `m` keeps the directory rows as they are. */
  lemma AddRowKeeps(rootName: string, items: seq<Item>, m: map<string, nat>, pathOf: seq<string>, base: nat,
                    p: nat, it: Item)
    requires DirRows(rootName, items, m, pathOf, base) && 1 <= p < base
    requires it.parent == p && it.children == [] && it.checkable && it.state == Unchecked
    ensures DirRows(rootName, AddChild(items, p, it), m, pathOf, base)
  {
    AddChildWellFormed(items, p, it);
    AddChildAscending(items, p, it);
    AddChildChildParents(items, p, it);
    var r := AddChild(items, p, it);
    forall i | 2 <= i < base
      ensures DirRowAt(r, m, pathOf, i)
    {
      assert DirRowAt(items, m, pathOf, i);
    }
  }

  /** Adding the row of a new directory whose parent directory has its row. */
  lemma AddDirStep(rootName: string, items: seq<Item>, m: map<string, nat>, pathOf: seq<string>, d: string,
                   r: seq<Item>)
    requires DirRows(rootName, items, m, pathOf, |items|) && d !in m && DirParent(d) in m
    requires r == AddChild(items, m[DirParent(d)], DirItem(BaseName(d), m[DirParent(d)]))
    ensures DirRows(rootName, r, m[d := |items|], pathOf + [d], |items| + 1)
  {
    var p := m[DirParent(d)];
    AddRowKeeps(rootName, items, m, pathOf, |items|, p, DirItem(BaseName(d), p));
    var m' := m[d := |items|];
    var pathOf' := pathOf + [d];
    PathsExtend(m, pathOf, |items|, d);
    forall i | 2 <= i < |items| + 1
      ensures DirRowAt(r, m', pathOf', i)
    {
      if i < |items| {
        assert DirRowAt(r, m, pathOf, i);
        assert pathOf'[i] == pathOf[i];
      } else {
        assert r[i] == DirItem(BaseName(d), p);
      }
    }
  }

  /** The rows from `base` on: one per file of `files[..n]`, in order, below its directory's row. */
  ghost predicate FileRows(items: seq<Item>, m: map<string, nat>, base: nat, files: seq<(string, nat)>, n: nat)
  {
    && n <= |files| && |items| == base + n
    && forall i :: base <= i < |items| ==> FileRowAt(items, m, base, files, i)
  }

  /** Row `i` is the row of file `files[i - base]`. */
  ghost predicate FileRowAt(items: seq<Item>, m: map<string, nat>, base: nat, files: seq<(string, nat)>, i: nat)
  {
    && base <= i < |items| && i - base < |files|
    && DirParent(files[i - base].0) in m
    && items[i] == FileItem(files[i - base].0, files[i - base].1, m[DirParent(files[i - base].0)])
  }

  /** Adding the row of the next file below its directory's row. */
  lemma AddFileStep(rootName: string, items: seq<Item>, m: map<string, nat>, pathOf: seq<string>, base: nat,
                    files: seq<(string, nat)>, n: nat, r: seq<Item>)
    requires DirRows(rootName, items, m, pathOf, base) && FileRows(items, m, base, files, n)
    requires n < |files| && DirParent(files[n].0) in m
    requires r == AddChild(items, m[DirParent(files[n].0)], FileItem(files[n].0, files[n].1, m[DirParent(files[n].0)]))
    ensures DirRows(rootName, r, m, pathOf, base) && FileRows(r, m, base, files, n + 1)
  {
    var p := m[DirParent(files[n].0)];
    AddRowKeeps(rootName, items, m, pathOf, base, p, FileItem(files[n].0, files[n].1, p));
    FileRowsStep(items, m, base, files, n, p, r);
  }

  lemma FileRowsStep(items: seq<Item>, m: map<string, nat>, base: nat, files: seq<(string, nat)>, n: nat,
                     p: nat, r: seq<Item>)
    requires FileRows(items, m, base, files, n) && n < |files| && p < base
    requires DirParent(files[n].0) in m && p == m[DirParent(files[n].0)]
    requires r == AddChild(items, p, FileItem(files[n].0, files[n].1, p))
    ensures FileRows(r, m, base, files, n + 1)
  {
    forall i | base <= i < |r|
      ensures FileRowAt(r, m, base, files, i)
    {
      if i < |items| {
        assert FileRowAt(items, m, base, files, i);
      }
    }
  }

  /** The elements of a sequence, as a set. */
  function Members(s: seq<string>): set<string>
  {
    set x | x in s
  }

  lemma MembersSnoc(s: seq<string>, k: nat)
    requires k < |s|
    ensures Members(s[..k + 1]) == Members(s[..k]) + {s[k]}
  {
    assert s[..k + 1] == s[..k] + [s[k]];
  }

  /** The invisible root and the top row `root/`, before any directory or file is added. */
  function TopRows(rootName: string): seq<Item>
  {
    [Item("", -1, [1], false, Unchecked, None, None, None), DirItem(rootName, 0)]
  }

  lemma TopRowsLayout(rootName: string)
    ensures DirRows(rootName, TopRows(rootName), map["" := 1], ["", ""], 2)
  {
    var items := TopRows(rootName);
    assert 1 in items[0].children;
  }

  /** In the sorted order, the parent of the `k`-th directory is the top or one of the directories before it. */
  lemma SortedParentFirst(keys: seq<string>, ordered: seq<string>, k: nat, m: map<string, nat>)
    requires SortedBy(ordered, DirKey) && (forall d :: d in ordered <==> d in DirsOf(keys))
    requires k < |ordered| && m.Keys == {""} + Members(ordered[..k])
    ensures DirParent(ordered[k]) in m
  {
    var d := ordered[k];
    ParentInDirs(keys, d);
    var parent := DirParent(d);
    if parent != "" {
      var j :| 0 <= j < |ordered| && ordered[j] == parent;
      LessIrreflexive(DirKey(d));
      assert Less(DirKey(ordered[j]), DirKey(ordered[k]));
      assert j < k;
      assert parent in ordered[..k];
    }
  }

  /** One turn of the directory loop: a directory without a row gets one below its parent's row. */
  method AddDirectory(rootName: string, rows: seq<Item>, m: map<string, nat>, ghost pathOf: seq<string>, d: string)
    returns (items: seq<Item>, pathToItem: map<string, nat>, ghost pathOf': seq<string>)
    requires DirRows(rootName, rows, m, pathOf, |rows|) && DirParent(d) in m
    ensures DirRows(rootName, items, pathToItem, pathOf', |items|)
    ensures pathToItem.Keys == m.Keys + {d}
  {
    if d in m {
      return rows, m, pathOf;
    }
    var parentIdx := if DirParent(d) in m then m[DirParent(d)] else 1;
    items := AddChild(rows, parentIdx, DirItem(BaseName(d), parentIdx));
    AddDirStep(rootName, rows, m, pathOf, d, items);
    pathToItem := m[d := |rows|];
    pathOf' := pathOf + [d];
  }

  /** The directory loop of `build_tree_model`: one row per directory, in the sorted order, below its parent's row. */
  method AddDirectoryRows(rootName: string, keys: seq<string>, ordered: seq<string>)
    returns (items: seq<Item>, pathToItem: map<string, nat>, ghost pathOf: seq<string>)
    requires SortedBy(ordered, DirKey) && forall d :: d in ordered <==> d in DirsOf(keys)
    ensures DirRows(rootName, items, pathToItem, pathOf, |items|)
    ensures pathToItem.Keys == DirsOf(keys) + {""}
  {
    items := TopRows(rootName);
    pathToItem := map["" := 1];
    pathOf := ["", ""];
    TopRowsLayout(rootName);
    for k := 0 to |ordered|
      invariant DirRows(rootName, items, pathToItem, pathOf, |items|)
      invariant pathToItem.Keys == {""} + Members(ordered[..k])
    {
      MembersSnoc(ordered, k);
      SortedParentFirst(keys, ordered, k, pathToItem);
      items, pathToItem, pathOf := AddDirectory(rootName, items, pathToItem, pathOf, ordered[k]);
    }
    assert ordered[..|ordered|] == ordered;
    assert Members(ordered) == DirsOf(keys);
  }

  /** The file loop of `build_tree_model`: one row per file, in scan order, below its directory's row. */
  method AddFileRows(rootName: string, rows: seq<Item>, pathToItem: map<string, nat>, ghost pathOf: seq<string>,
                     files: seq<(string, nat)>)
    returns (items: seq<Item>)
    requires DirRows(rootName, rows, pathToItem, pathOf, |rows|)
    requires forall n :: 0 <= n < |files| ==> DirParent(files[n].0) in pathToItem
    ensures |items| == |rows| + |files|
    ensures DirRows(rootName, items, pathToItem, pathOf, |rows|) && FileRows(items, pathToItem, |rows|, files, |files|)
  {
    items := rows;
    for n := 0 to |files|
      invariant DirRows(rootName, items, pathToItem, pathOf, |rows|) && FileRows(items, pathToItem, |rows|, files, n)
    {
      var relPath := files[n].0;
      var parentIdx := if DirParent(relPath) in pathToItem then pathToItem[DirParent(relPath)] else 1;
      var next := AddChild(items, parentIdx, FileItem(relPath, files[n].1, parentIdx));
      AddFileStep(rootName, items, pathToItem, pathOf, |rows|, files, n, next);
      items := next;
    }
  }

  /**
   * `build_tree_model` on the scanned files `files` (path and size, in
   * scan order): the rows below `dirRows` are the invisible root, the top
   * row and the directory rows of `DirRows`, one for every collected
   * directory; the last `|files|` rows are the file rows of `FileRows`;
   * nothing is checked, so nothing is selected.
   */
  method BuildTreeModel(rootName: string, files: seq<(string, nat)>)
    returns (items: seq<Item>, pathToItem: map<string, nat>, ghost pathOf: seq<string>, ghost dirRows: nat)
    ensures dirRows + |files| == |items|
    ensures DirRows(rootName, items, pathToItem, pathOf, dirRows)
    ensures FileRows(items, pathToItem, dirRows, files, |files|)
    ensures pathToItem.Keys == DirsOf(Paths(files)) + {""}
    ensures Selected(items, 0) == (0, [])
    ensures IsTree(items)
    ensures NoDup(Paths(files)) ==> DistinctRelPaths(items)
  {
    var keys := Paths(files);
    var dirs := CollectDirs(keys);
    var ordered := SortedDirs(dirs);
    var rows;
    rows, pathToItem, pathOf := AddDirectoryRows(rootName, keys, ordered);
    forall n | 0 <= n < |files|
      ensures DirParent(files[n].0) in pathToItem
    {
      FileParentInDirs(keys, n);
    }
    items := AddFileRows(rootName, rows, pathToItem, pathOf, files);
    dirRows := |rows|;
    NothingCheckedGathersNothing(items, 0);
    AsWrittenAgrees(items, 0);
    if NoDup(Paths(files)) {
      BuiltDistinctPaths(rootName, items, pathToItem, pathOf, dirRows, files);
    }
  }

  /**
   * Below the row of the directory `d`, the first `j` parts of the path of
   * `files[k]`, there is a row: the row of the next directory on that path,
   * or the file's own row when `d` is its directory.
   */
  lemma RowBelowDir(items: seq<Item>, m: map<string, nat>, pathOf: seq<string>,
                    base: nat, files: seq<(string, nat)>, k: nat, j: nat, d: string)
    returns (c: nat)
    requires 2 <= base <= |items| && |pathOf| == base && "" in m && m[""] == 1 && PathsAgree(m, pathOf, base)
    requires forall i :: 2 <= i < base ==> DirRowAt(items, m, pathOf, i)
    requires FileRows(items, m, base, files, |files|) && m.Keys == DirsOf(Paths(files)) + {""}
    requires k < |files| && j < |Split(files[k].0, '/')| && d == Join(Split(files[k].0, '/')[..j], '/')
    ensures d in m && 1 <= c < |items| && items[c].parent == m[d]
  {
    var keys := Paths(files);
    var parts := Split(files[k].0, '/');
    // A leading empty part joins to the top's path too: step over it.
    var i := if j == 0 && 1 < |parts| && parts[0] == "" then 1 else j;
    assert d == Join(parts[..i], '/');
    if i >= 1 {
      DirsOfHas(keys, k, i, d);
    }
    if i + 1 == |parts| {
      c := base + k;
      FileRowParent(items, m, base, files, k);
      assert DirParent(files[k].0) == d;
    } else {
      var e := Join(parts[..i + 1], '/');
      DirsOfHas(keys, k, i + 1, e);
      JoinedPrefix(parts, i + 1);
      c := m[e];
      DirRowParent(items, m, pathOf, base, e);
      assert DirParent(e) == d;
    }
  }

  /** The row of file `files[k]` sits below the row of its directory. */
  lemma FileRowParent(items: seq<Item>, m: map<string, nat>, base: nat, files: seq<(string, nat)>, k: nat)
    requires 2 <= base && FileRows(items, m, base, files, |files|) && k < |files|
    ensures DirParent(files[k].0) in m && 1 <= base + k < |items| && items[base + k].parent == m[DirParent(files[k].0)]
  {
    assert FileRowAt(items, m, base, files, base + k);
  }

  /** The row of a directory below the top sits below the row of its parent directory. */
  lemma DirRowParent(items: seq<Item>, m: map<string, nat>, pathOf: seq<string>, base: nat, e: string)
    requires 2 <= base <= |items| && |pathOf| == base && "" in m && m[""] == 1 && PathsAgree(m, pathOf, base)
    requires forall i :: 2 <= i < base ==> DirRowAt(items, m, pathOf, i)
    requires e in m && e != ""
    ensures DirParent(e) in m && 2 <= m[e] < |items| && items[m[e]].parent == m[DirParent(e)]
  {
    assert pathOf[1] == "" && pathOf[m[e]] == e;
    assert DirRowAt(items, m, pathOf, m[e]);
  }

  /** Scanned paths that are distinct give file rows with distinct paths; directory rows carry none. */
  lemma BuiltDistinctPaths(rootName: string, items: seq<Item>, m: map<string, nat>, pathOf: seq<string>,
                           base: nat, files: seq<(string, nat)>)
    requires DirRows(rootName, items, m, pathOf, base) && FileRows(items, m, base, files, |files|)
    requires NoDup(Paths(files))
    ensures DistinctRelPaths(items)
  {
    DirRowsNoData(rootName, items, m, pathOf, base);
    forall i, j | 1 <= i < j < |items| && items[i].relPath.Some? && items[j].relPath.Some?
      ensures items[i].relPath != items[j].relPath
    {
      assert FileRowAt(items, m, base, files, i) && FileRowAt(items, m, base, files, j);
      assert Paths(files)[i - base] != Paths(files)[j - base];
    }
  }

  /** In a tree built from at least one file, every directory row, the top row included, has a row below it. */
  lemma DirRowHasRow(rootName: string, items: seq<Item>, m: map<string, nat>, pathOf: seq<string>,
                     base: nat, files: seq<(string, nat)>, i: nat)
    requires DirRows(rootName, items, m, pathOf, base) && FileRows(items, m, base, files, |files|)
    requires m.Keys == DirsOf(Paths(files)) + {""} && |files| >= 1 && 1 <= i < base
    ensures |items[i].children| > 0
  {
    var d := pathOf[i];
    var k, j;
    if d == "" {
      k, j := 0, 0;
    } else {
      k, j := DirsOfWitness(Paths(files), d);
    }
    var c := RowBelowDir(items, m, pathOf, base, files, k, j, d);
    assert c in items[i].children;
  }

  /**
   * A tree built from at least one file has a row below every directory
   * row, so its rows without rows are file rows, each with a size: the
   * failing addition of `_accumulate_selected` cannot be reached.
   */
  lemma BuiltLeavesSized(rootName: string, items: seq<Item>, m: map<string, nat>, pathOf: seq<string>,
                         base: nat, files: seq<(string, nat)>)
    requires DirRows(rootName, items, m, pathOf, base) && FileRows(items, m, base, files, |files|)
    requires m.Keys == DirsOf(Paths(files)) + {""} && |files| >= 1
    ensures LeavesSized(items)
  {
    forall i | 1 <= i < |items|
      ensures |items[i].children| == 0 ==> items[i].size.Some?
    {
      if i < base {
        DirRowHasRow(rootName, items, m, pathOf, base, files, i);
      } else {
        assert FileRowAt(items, m, base, files, i);
      }
    }
  }

  /**
   * Whatever boxes the user has checked in a tree built from at least one
   * file, `update_selected_size` as written gathers what the corrected walk
   * does; the two differ only on a folder without files.
   */
  lemma BuiltAsWrittenAgrees(rootName: string, items: seq<Item>, m: map<string, nat>, pathOf: seq<string>,
                             base: nat, files: seq<(string, nat)>, clicked: seq<Item>)
    requires DirRows(rootName, items, m, pathOf, base) && FileRows(items, m, base, files, |files|)
    requires m.Keys == DirsOf(Paths(files)) + {""} && |files| >= 1
    requires SameShape(items, clicked)
    ensures WellFormed(clicked) && Collect(clicked, 0, true) == Some(Selected(clicked, 0))
  {
    BuiltLeavesSized(rootName, items, m, pathOf, base, files);
    SameShapeLeavesSized(items, clicked);
    SameShapeWellFormed(items, clicked);
    LeavesSizedAgrees(clicked);
  }

  /** A click changes only check states: every row keeps its check box. */
  lemma ClickCheckable(items: seq<Item>, i: nat, st: CheckState)
    requires WellFormed(items) && AllCheckable(items) && i < |items|
    ensures AllCheckable(Click(items, i, st))
  {
  }

  /** Below the invisible root: the top row and what is below it. */
  lemma TopUnder(items: seq<Item>)
    requires WellFormed(items) && |items| >= 2 && items[0].children == [1]
    ensures Under(items, 0) == {1} + Under(items, 1)
  {
    assert UnderRows(items, 0, 1) == UnderRows(items, 0, 0) + {1} + Under(items, 1);
  }

  /** Under every item, the directory rows come before the file rows. */
  lemma DirsFirst(rootName: string, items: seq<Item>, m: map<string, nat>, pathOf: seq<string>,
                  base: nat, files: seq<(string, nat)>)
    requires DirRows(rootName, items, m, pathOf, base) && FileRows(items, m, base, files, |files|)
    ensures forall p, a, b :: 0 <= p < |items| && 0 <= a < b < |items[p].children| && items[items[p].children[a]].relPath.Some? ==>
              items[items[p].children[b]].relPath.Some?
  {
    DirRowsNoData(rootName, items, m, pathOf, base);
    forall p, a, b | 0 <= p < |items| && 0 <= a < b < |items[p].children| && items[items[p].children[a]].relPath.Some?
      ensures items[items[p].children[b]].relPath.Some?
    {
      var c := items[p].children[b];
      assert items[p].children[a] < c;
      assert FileRowAt(items, m, base, files, c);
    }
  }

  /** Checking the top row checks every row below it and changes no row's data. */
  lemma CheckTopRows(items: seq<Item>, r: seq<Item>)
    requires WellFormed(items) && AllCheckable(items) && |items| >= 2 && items[0].children == [1]
    requires r == ItemChanged(Click(items, 1, Checked), 1)
    ensures |r| == |items|
    ensures forall i :: 1 <= i < |r| ==> r[i].children == items[i].children && r[i].relPath == items[i].relPath
    ensures forall i :: 2 <= i < |r| ==> r[i].state == Checked
  {
    var c := Click(items, 1, Checked);
    ClickCheckable(items, 1, Checked);
    ItemChangedEffect(c, 1, r);
    assert c[0].(state := Unchecked).children == items[0].(state := Unchecked).children;
    TopUnder(c);
    forall i | 1 <= i < |r|
      ensures r[i].children == items[i].children && r[i].relPath == items[i].relPath
    {
      assert r[i].(state := Unchecked) == items[i].(state := Unchecked);
    }
    forall i | 2 <= i < |r|
      ensures r[i].state == Checked
    {
      EveryRowBelowRoot(c, i);
    }
  }

  /**
   * Checking the top row of a freshly built tree selects every scanned
   * file: the gathered paths are exactly the non-empty scanned paths.
   */
  lemma CheckTopSelectsEveryFile(rootName: string, items: seq<Item>, m: map<string, nat>, pathOf: seq<string>,
                                 base: nat, files: seq<(string, nat)>, x: string)
    requires DirRows(rootName, items, m, pathOf, base) && FileRows(items, m, base, files, |files|)
    ensures x in Selected(ItemChanged(Click(items, 1, Checked), 1), 0).1 <==>
              x != "" && exists j :: 0 <= j < |files| && files[j].0 == x
  {
    DirRowsNoData(rootName, items, m, pathOf, base);
    CheckTopGathers(items, m, base, files, x, ItemChanged(Click(items, 1, Checked), 1));
  }

  lemma CheckTopGathers(items: seq<Item>, m: map<string, nat>, base: nat, files: seq<(string, nat)>, x: string,
                        r: seq<Item>)
    requires FileRows(items, m, base, files, |files|)
    requires WellFormed(items) && AllCheckable(items) && 2 <= base && items[0].children == [1]
    requires forall i :: 1 <= i < base ==> items[i].relPath.None?
    requires r == ItemChanged(Click(items, 1, Checked), 1)
    ensures WellFormed(r)
    ensures x in Selected(r, 0).1 <==> x != "" && exists j :: 0 <= j < |files| && files[j].0 == x
  {
    CheckTopRows(items, r);
    SelectedAreCheckedFiles(r, x);
    CheckedFileRows(items, m, base, files, x, r);
  }

  /** With every row from the second on checked, the checked files are the file rows. */
  lemma CheckedFileRows(items: seq<Item>, m: map<string, nat>, base: nat, files: seq<(string, nat)>, x: string,
                        r: seq<Item>)
    requires FileRows(items, m, base, files, |files|) && 2 <= base && |r| == |items|
    requires forall i :: 1 <= i < base ==> items[i].relPath.None?
    requires forall i :: 1 <= i < |r| ==> r[i].children == items[i].children && r[i].relPath == items[i].relPath
    requires forall i :: 2 <= i < |r| ==> r[i].state == Checked
    ensures (exists i :: 1 <= i < |r| && CheckedFile(r, i, x)) <==> x != "" && exists j :: 0 <= j < |files| && files[j].0 == x
  {
    if exists i :: 1 <= i < |r| && CheckedFile(r, i, x) {
      var i :| 1 <= i < |r| && CheckedFile(r, i, x);
      assert FileRowAt(items, m, base, files, i);
    }
    if x != "" && exists j :: 0 <= j < |files| && files[j].0 == x {
      var j :| 0 <= j < |files| && files[j].0 == x;
      assert FileRowAt(items, m, base, files, base + j);
      assert CheckedFile(r, base + j, x);
    }
  }
}
