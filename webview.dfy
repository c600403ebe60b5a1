/**
 * The checkbox tree of the two webviews: the flat `{id, parent}` records
 * handed to jsTree (`buildTree`/`recurse` in the webview script of
 * `repo2md-vscode/src/extension.ts`, and the filtered variant of the
 * root `script.js`), and the selection state the webview keeps
 * (`fileMap`, `selectedPaths`, `extensionFilters`, `prevSelected`) with
 * the handlers that reassign it.
 *
 * Both scripts build the same nested object as `generateDirectoryTree`
 * and walk it in the same sorted order, so a record sequence is related
 * line by line to `DirTree.Lines` and inherits its one-record-per-node
 * property.
 */
module Webview {
  import opened Text
  import opened Sorting
  import opened DirTree
  import opened Extension

  /** A jsTree node: its `id`, its `parent` id (`#` for a top-level node) and its `data-file` flag. */
  datatype Record = Record(id: string, parent: string, isFile: bool)

  // ------------------------------------------------ extension.ts flattening

  /** `projectName || '项目'`: the id of the root record. */
  function RootId(projectName: string): string
  {
    if projectName == "" then "项目" else projectName
  }

  /** `parentPath === rootId ? name : parentPath + '/' + name`. */
  function ChildId(parentId: string, rootId: string, name: string): string
  {
    if parentId == rootId then name else parentId + "/" + name
  }

  /** `recurse(obj, parentPath)` for the object of node `p`: the records it pushes. */
  function Flatten(t: Tree, p: Path, parentId: string, rootId: string): seq<Record>
    requires |p| <= Depth(t.order)
    decreases Depth(t.order) - |p|, 1
  {
    FlattenEntries(t, p, Children(t, p), 0, parentId, rootId)
  }

  /** The `sortedEntries.forEach` from entry `i` on. */
  function FlattenEntries(t: Tree, p: Path, kids: seq<Path>, i: nat, parentId: string, rootId: string): seq<Record>
    requires |p| <= Depth(t.order)
    requires AllChildren(t, p, kids)
    requires i <= |kids|
    decreases Depth(t.order) - |p|, 0, |kids| - i
  {
    if i == |kids| then []
    else
      assert kids[i] in t.order && IsChild(p, kids[i]);
      FlattenEntry(t, p, kids[i], parentId, rootId) + FlattenEntries(t, p, kids, i + 1, parentId, rootId)
  }

  /** One entry: its record, then, when its object has keys, the records below it. */
  function FlattenEntry(t: Tree, p: Path, c: Path, parentId: string, rootId: string): seq<Record>
    requires |p| <= Depth(t.order)
    requires c in t.order && IsChild(p, c)
    decreases Depth(t.order) - |p|, 0, 0
  {
    var id := ChildId(parentId, rootId, Name(c));
    [Record(id, parentId, IsFileNode(t, c))] + (if HasChildren(t, c) then Flatten(t, c, id, rootId) else [])
  }

  /** The `nodes` array: the root record, then the records of the tree of the `fileMap` keys. */
  function TreeNodes(keys: seq<string>, projectName: string): seq<Record>
  {
    var rootId := RootId(projectName);
    [Record(rootId, "#", false)] + Flatten(Build(keys), [], rootId, rootId)
  }

  /** `buildTree()`: the nested object, the root record, then `recurse(tree, rootId)`. */
  method BuildNodes(keys: seq<string>, projectName: string) returns (nodes: seq<Record>)
    ensures nodes == TreeNodes(keys, projectName)
  {
    var t := BuildTree(keys);
    var rootId := if projectName == "" then "项目" else projectName;
    nodes := [Record(rootId, "#", false)];
    nodes := Recurse(t, [], rootId, rootId, nodes);
  }

  /** `recurse(obj, parentPath)`, pushing onto `nodes`. */
  method Recurse(t: Tree, p: Path, parentPath: string, rootId: string, nodes: seq<Record>) returns (out: seq<Record>)
    requires |p| <= Depth(t.order)
    ensures out == nodes + Flatten(t, p, parentPath, rootId)
    decreases Depth(t.order) - |p|, 2
  {
    var sortedEntries := Children(t, p);
    out := RecurseEntries(t, p, sortedEntries, parentPath, rootId, nodes);
  }

  /** The `sortedEntries.forEach` loop. */
  method RecurseEntries(t: Tree, p: Path, entries: seq<Path>, parentPath: string, rootId: string, nodes: seq<Record>)
    returns (out: seq<Record>)
    requires |p| <= Depth(t.order)
    requires AllChildren(t, p, entries)
    ensures out == nodes + FlattenEntries(t, p, entries, 0, parentPath, rootId)
    decreases Depth(t.order) - |p|, 1
  {
    out := nodes;
    var i: nat := 0;
    while i < |entries|
      invariant i <= |entries|
      invariant out + FlattenEntries(t, p, entries, i, parentPath, rootId) == nodes + FlattenEntries(t, p, entries, 0, parentPath, rootId)
    {
      assert entries[i] in t.order && IsChild(p, entries[i]);
      ghost var rest := FlattenEntries(t, p, entries, i + 1, parentPath, rootId);
      ghost var before := out;
      out := RecurseEntry(t, p, entries[i], parentPath, rootId, out);
      AppendAssoc(before, FlattenEntry(t, p, entries[i], parentPath, rootId), rest);
      i := i + 1;
      assert rest == FlattenEntries(t, p, entries, i, parentPath, rootId);
    }
    assert out + [] == out;
  }

  /** The body of the loop for one entry: push its record, then recurse when its object has keys. */
  method RecurseEntry(t: Tree, p: Path, c: Path, parentPath: string, rootId: string, nodes: seq<Record>)
    returns (out: seq<Record>)
    requires |p| <= Depth(t.order)
    requires c in t.order && IsChild(p, c)
    ensures out == nodes + FlattenEntry(t, p, c, parentPath, rootId)
    decreases Depth(t.order) - |p|, 0
  {
    var currentPath := if parentPath == rootId then Name(c) else parentPath + "/" + Name(c);
    var isFile := IsFileNode(t, c);
    out := nodes + [Record(currentPath, parentPath, isFile)];
    if HasChildren(t, c) {
      ghost var before := out;
      out := Recurse(t, c, currentPath, rootId, out);
      AppendAssoc(nodes, [Record(currentPath, parentPath, isFile)], Flatten(t, c, currentPath, rootId));
    } else {
      assert [Record(currentPath, parentPath, isFile)] + [] == [Record(currentPath, parentPath, isFile)];
    }
  }

  // ------------------------------------------------ what each record says

  /** Node `n` lies strictly below node `p`. */
  predicate Below(p: Path, n: Path)
  {
    |n| > |p| && n[..|p|] == p
  }

  /** The id `recurse` gives node `n` when it was called for node `p` with id `pid`. */
  function IdAt(p: Path, pid: string, rootId: string, n: Path): string
    requires |n| >= 1
    decreases |n|
  {
    if |n| <= |p| + 1 then ChildId(pid, rootId, Name(n))
    else ChildId(IdAt(p, pid, rootId, Parent(n)), rootId, Name(n))
  }

  /** The parent id `recurse` gives node `n`: `pid` on the first level, else its parent's id. */
  function ParentIdAt(p: Path, pid: string, rootId: string, n: Path): string
    requires |n| >= 1
  {
    if |n| <= |p| + 1 then pid else IdAt(p, pid, rootId, Parent(n))
  }

  function RecordAt(t: Tree, p: Path, pid: string, rootId: string, n: Path): Record
    requires |n| >= 1
  {
    Record(IdAt(p, pid, rootId, n), ParentIdAt(p, pid, rootId, n), IsFileNode(t, n))
  }

  /** Records `rs` are, one for one, the records of the nodes the lines `ls` draw below `p`. */
  ghost predicate Matches(t: Tree, p: Path, pid: string, rootId: string, rs: seq<Record>, ls: seq<Line>)
  {
    && |rs| == |ls|
    && forall j :: 0 <= j < |ls| ==> Below(p, ls[j].node) && rs[j] == RecordAt(t, p, pid, rootId, ls[j].node)
  }

  /** Ids computed from a child `c`'s call agree with ids computed from its parent's call. */
  lemma {:induction false} IdRebase(p: Path, pid: string, rootId: string, c: Path, n: Path)
    requires IsChild(p, c) && Below(c, n)
    ensures IdAt(c, ChildId(pid, rootId, Name(c)), rootId, n) == IdAt(p, pid, rootId, n)
    ensures ParentIdAt(c, ChildId(pid, rootId, Name(c)), rootId, n) == ParentIdAt(p, pid, rootId, n)
    decreases |n|
  {
    assert Parent(n) == n[..|n| - 1];
    if |n| == |c| + 1 {
      assert Parent(n) == c;
    } else {
      assert Parent(n)[..|c|] == c;
      IdRebase(p, pid, rootId, c, Parent(n));
    }
  }

  lemma MatchesRebase(t: Tree, p: Path, pid: string, rootId: string, c: Path, rs: seq<Record>, ls: seq<Line>)
    requires IsChild(p, c)
    requires Matches(t, c, ChildId(pid, rootId, Name(c)), rootId, rs, ls)
    ensures Matches(t, p, pid, rootId, rs, ls)
  {
    forall j | 0 <= j < |ls|
      ensures Below(p, ls[j].node) && rs[j] == RecordAt(t, p, pid, rootId, ls[j].node)
    {
      var n := ls[j].node;
      assert Below(c, n);
      assert n[..|p|] == n[..|c|][..|p|];
      IdRebase(p, pid, rootId, c, n);
    }
  }

  lemma MatchesConcat(t: Tree, p: Path, pid: string, rootId: string, rs: seq<Record>, ls: seq<Line>, rs2: seq<Record>, ls2: seq<Line>)
    requires Matches(t, p, pid, rootId, rs, ls) && Matches(t, p, pid, rootId, rs2, ls2)
    ensures Matches(t, p, pid, rootId, rs + rs2, ls + ls2)
  {
    forall j | 0 <= j < |ls + ls2|
      ensures Below(p, (ls + ls2)[j].node) && (rs + rs2)[j] == RecordAt(t, p, pid, rootId, (ls + ls2)[j].node)
    {
      if j < |ls| {
        assert (ls + ls2)[j] == ls[j] && (rs + rs2)[j] == rs[j];
      } else {
        assert (ls + ls2)[j] == ls2[j - |ls|] && (rs + rs2)[j] == rs2[j - |rs|];
      }
    }
  }

  /** The records of `recurse` for node `p` pair up with the lines `buildTreeString` draws for it. */
  lemma {:induction false} FlattenMatches(t: Tree, p: Path, pid: string, rootId: string, prefix: string, isLast: bool)
    requires |p| <= Depth(t.order)
    ensures Matches(t, p, pid, rootId, Flatten(t, p, pid, rootId), Lines(t, p, prefix, isLast))
    decreases Depth(t.order) - |p|, 1, 0
  {
    EntriesMatches(t, p, Children(t, p), 0, pid, rootId, prefix, isLast);
  }

  lemma {:induction false} EntriesMatches(t: Tree, p: Path, kids: seq<Path>, i: nat, pid: string, rootId: string, prefix: string, isLast: bool)
    requires |p| <= Depth(t.order)
    requires AllChildren(t, p, kids)
    requires i <= |kids|
    ensures Matches(t, p, pid, rootId, FlattenEntries(t, p, kids, i, pid, rootId), Entries(t, p, kids, i, prefix, isLast))
    decreases Depth(t.order) - |p|, 0, |kids| - i, 1
  {
    if i < |kids| {
      var c := kids[i];
      assert c in t.order && IsChild(p, c);
      EntryMatches(t, p, c, pid, rootId, prefix, isLast, i == |kids| - 1);
      EntriesMatches(t, p, kids, i + 1, pid, rootId, prefix, isLast);
      MatchesConcat(t, p, pid, rootId,
        FlattenEntry(t, p, c, pid, rootId), EntryLines(t, p, c, prefix, isLast, i == |kids| - 1),
        FlattenEntries(t, p, kids, i + 1, pid, rootId), Entries(t, p, kids, i + 1, prefix, isLast));
    }
  }

  lemma {:induction false} EntryMatches(t: Tree, p: Path, c: Path, pid: string, rootId: string, prefix: string, isLast: bool, last: bool)
    requires |p| <= Depth(t.order)
    requires c in t.order && IsChild(p, c)
    ensures Matches(t, p, pid, rootId, FlattenEntry(t, p, c, pid, rootId), EntryLines(t, p, c, prefix, isLast, last))
    decreases Depth(t.order) - |p|, 0, 0, 0
  {
    var id := ChildId(pid, rootId, Name(c));
    var head := [Record(id, pid, IsFileNode(t, c))];
    var line := [Line(c, prefix, Connector(isLast), Name(c), !IsFileNode(t, c) && HasChildren(t, c))];
    assert head[0] == RecordAt(t, p, pid, rootId, c);
    assert Matches(t, p, pid, rootId, head, line);
    if HasChildren(t, c) {
      FlattenMatches(t, c, id, rootId, prefix + Indent(isLast), last);
      MatchesRebase(t, p, pid, rootId, c, Flatten(t, c, id, rootId), Lines(t, c, prefix + Indent(isLast), last));
      MatchesConcat(t, p, pid, rootId, head, line, Flatten(t, c, id, rootId), Lines(t, c, prefix + Indent(isLast), last));
    } else {
      assert head + [] == head && line + [] == line;
    }
  }

  // ------------------------------------------------ parents come first

  /** Every record's parent is `pid` or the id of a record pushed before it. */
  ghost predicate ParentsBefore(pid: string, rs: seq<Record>)
  {
    forall k :: 0 <= k < |rs| ==> rs[k].parent == pid || EarlierParent(rs, k)
  }

  /** Record `k`'s parent is the id of a record before it. */
  ghost predicate EarlierParent(rs: seq<Record>, k: nat)
    requires k < |rs|
  {
    exists m :: 0 <= m < k && rs[m].id == rs[k].parent
  }

  lemma ParentsBeforeConcat(pid: string, a: seq<Record>, b: seq<Record>)
    requires ParentsBefore(pid, a) && ParentsBefore(pid, b)
    ensures ParentsBefore(pid, a + b)
  {
    var s := a + b;
    forall k | 0 <= k < |s| && s[k].parent != pid
      ensures EarlierParent(s, k)
    {
      if k < |a| {
        assert s[k] == a[k];
        assert EarlierParent(a, k);
        var m :| 0 <= m < k && a[m].id == a[k].parent;
        assert s[m] == a[m];
      } else {
        assert s[k] == b[k - |a|];
        assert EarlierParent(b, k - |a|);
        var m :| 0 <= m < k - |a| && b[m].id == b[k - |a|].parent;
        assert s[m + |a|] == b[m];
      }
    }
  }

  lemma ParentsBeforeHead(pid: string, head: Record, sub: seq<Record>)
    requires head.parent == pid && ParentsBefore(head.id, sub)
    ensures ParentsBefore(pid, [head] + sub)
  {
    var s := [head] + sub;
    forall k | 0 <= k < |s| && s[k].parent != pid
      ensures EarlierParent(s, k)
    {
      assert k >= 1 && s[k] == sub[k - 1];
      if sub[k - 1].parent == head.id {
        assert s[0].id == s[k].parent;
      } else {
        assert EarlierParent(sub, k - 1);
        var m :| 0 <= m < k - 1 && sub[m].id == sub[k - 1].parent;
        assert s[m + 1] == sub[m];
      }
    }
  }

  /** `recurse` pushes a node only after the node its `parent` names. */
  lemma {:induction false} FlattenParents(t: Tree, p: Path, pid: string, rootId: string)
    requires |p| <= Depth(t.order)
    ensures ParentsBefore(pid, Flatten(t, p, pid, rootId))
    decreases Depth(t.order) - |p|, 1, 0
  {
    EntriesParents(t, p, Children(t, p), 0, pid, rootId);
  }

  lemma {:induction false} EntriesParents(t: Tree, p: Path, kids: seq<Path>, i: nat, pid: string, rootId: string)
    requires |p| <= Depth(t.order)
    requires AllChildren(t, p, kids)
    requires i <= |kids|
    ensures ParentsBefore(pid, FlattenEntries(t, p, kids, i, pid, rootId))
    decreases Depth(t.order) - |p|, 0, |kids| - i, 1
  {
    if i < |kids| {
      var c := kids[i];
      assert c in t.order && IsChild(p, c);
      EntryParents(t, p, c, pid, rootId);
      EntriesParents(t, p, kids, i + 1, pid, rootId);
      ParentsBeforeConcat(pid, FlattenEntry(t, p, c, pid, rootId), FlattenEntries(t, p, kids, i + 1, pid, rootId));
    }
  }

  lemma {:induction false} EntryParents(t: Tree, p: Path, c: Path, pid: string, rootId: string)
    requires |p| <= Depth(t.order)
    requires c in t.order && IsChild(p, c)
    ensures ParentsBefore(pid, FlattenEntry(t, p, c, pid, rootId))
    decreases Depth(t.order) - |p|, 0, 0, 0
  {
    var id := ChildId(pid, rootId, Name(c));
    var head := Record(id, pid, IsFileNode(t, c));
    if HasChildren(t, c) {
      FlattenParents(t, c, id, rootId);
      ParentsBeforeHead(pid, head, Flatten(t, c, id, rootId));
    } else {
      assert [head] + [] == [head];
    }
  }

  // ------------------------------------------------ ids and keys

  /**
   * From the root, a node's id is its `/`-joined path, as long as no shorter
   * prefix of it joins to the root id (that prefix's children would restart
   * at their bare names); its parent id is the root id on the first level and
   * its parent's joined path below.
   */
  lemma {:induction false} IdAtJoin(rootId: string, n: Path)
    requires |n| >= 1
    requires forall k :: 1 <= k < |n| ==> Join(n[..k], '/') != rootId
    ensures IdAt([], rootId, rootId, n) == Join(n, '/')
    ensures ParentIdAt([], rootId, rootId, n) == if |n| == 1 then rootId else Join(Parent(n), '/')
    decreases |n|
  {
    if |n| >= 2 {
      var q := Parent(n);
      forall k | 1 <= k < |q|
        ensures Join(q[..k], '/') != rootId
      {
        assert q[..k] == n[..k];
      }
      IdAtJoin(rootId, q);
      assert Join(q, '/') != rootId by {
        assert q == n[..|n| - 1];
      }
      assert n == q + [Name(n)];
      JoinSnoc(q, Name(n), '/');
    }
  }

  /**
   * The id rule's quirk: below a top-level directory whose name equals the
   * root id, children get their bare names, so that directory's child `x`
   * and a top-level `x` get the same id.
   */
  lemma RootNamedDirectory(rootId: string, x: string)
    ensures IdAt([], rootId, rootId, [rootId]) == rootId
    ensures IdAt([], rootId, rootId, [rootId, x]) == x
    ensures IdAt([], rootId, rootId, [x]) == x
    ensures ParentIdAt([], rootId, rootId, [rootId, x]) == rootId
  {
    assert Parent([rootId, x]) == [rootId];
  }

  // ------------------------------------------------ the whole record list

  /**
   * `buildTree()` in the webview: the root record comes first; after it, one
   * record per line of `generateDirectoryTree`'s walk over the same keys (so
   * one per distinct path prefix, each once), carrying the id rule's id and
   * parent id and a file flag exactly on whole keys; and every record after
   * the root names as parent a record placed before it.
   */
  lemma WebviewTree(keys: seq<string>, projectName: string)
    ensures var rootId := RootId(projectName);
            var nodes := TreeNodes(keys, projectName);
            var t := Build(keys);
            var ls := Lines(t, [], "", true);
            && nodes[0] == Record(rootId, "#", false)
            && |nodes| == |ls| + 1
            && (forall j :: 0 <= j < |ls| ==>
                  Below([], ls[j].node)
                  && nodes[j + 1] == RecordAt(t, [], rootId, rootId, ls[j].node)
                  && IsNodeOf(keys, ls[j].node)
                  && (nodes[j + 1].isFile <==> IsFileOf(keys, ls[j].node)))
            && DistinctNodes(ls)
            && (forall n :: IsNodeOf(keys, n) ==> exists l :: l in ls && l.node == n)
            && (forall k :: 1 <= k < |nodes| ==> EarlierParent(nodes, k))
  {
    var rootId := RootId(projectName);
    var nodes := TreeNodes(keys, projectName);
    var t := Build(keys);
    var ls := Lines(t, [], "", true);
    var rs := Flatten(t, [], rootId, rootId);
    FlattenMatches(t, [], rootId, rootId, "", true);
    TreeWalk(keys);
    DirTree.BuildNodes(keys);
    forall j | 0 <= j < |ls|
      ensures Below([], ls[j].node) && nodes[j + 1] == RecordAt(t, [], rootId, rootId, ls[j].node)
      ensures nodes[j + 1].isFile <==> IsFileOf(keys, ls[j].node)
    {
      assert nodes[j + 1] == rs[j];
      assert IsNodeOf(keys, ls[j].node);
    }
    FlattenParents(t, [], rootId, rootId);
    forall k | 1 <= k < |nodes|
      ensures EarlierParent(nodes, k)
    {
      assert nodes[k] == rs[k - 1];
      if rs[k - 1].parent == rootId {
        assert nodes[0].id == nodes[k].parent;
      } else {
        assert EarlierParent(rs, k - 1);
        var m :| 0 <= m < k - 1 && rs[m].id == rs[k - 1].parent;
        assert nodes[m + 1] == rs[m];
      }
    }
  }

  /**
   * When no key runs through a directory whose joined path equals the root
   * id, a file record's id is the `fileMap` key itself, which is what lets
   * `selectedIds.filter(id => fileMap[id])` pick out the selected files.
   */
  lemma FileIdIsKey(keys: seq<string>, projectName: string, j: nat)
    requires forall f, k :: f in keys && 1 <= k < |Split(f, '/')| ==> Join(Split(f, '/')[..k], '/') != RootId(projectName)
    requires 1 <= j < |TreeNodes(keys, projectName)|
    requires TreeNodes(keys, projectName)[j].isFile
    ensures TreeNodes(keys, projectName)[j].id in keys
  {
    var rootId := RootId(projectName);
    var ls := Lines(Build(keys), [], "", true);
    WebviewTree(keys, projectName);
    var n := ls[j - 1].node;
    assert IsFileOf(keys, n);
    var f :| f in keys && n == Split(f, '/');
    IdAtJoin(rootId, n);
    JoinSplit(f, '/');
  }

  // ------------------------------------------------ script.js

  /** The `fileMap` keys `buildTree` of `script.js` inserts: those whose case-kept extension is checked. */
  function Passing(keys: seq<string>, filters: set<string>): (r: seq<string>)
    ensures forall f :: f in r <==> f in keys && RawExtension(f) in filters
    ensures |r| <= |keys|
  {
    if |keys| == 0 then []
    else
      var init := keys[..|keys| - 1];
      var f := keys[|keys| - 1];
      assert keys == init + [f];
      Passing(init, filters) + (if RawExtension(f) in filters then [f] else [])
  }

  lemma PassingSnoc(keys: seq<string>, i: nat, filters: set<string>)
    requires i < |keys|
    ensures Passing(keys[..i + 1], filters) == Passing(keys[..i], filters) + (if RawExtension(keys[i]) in filters then [keys[i]] else [])
  {
    assert keys[..i + 1][..i] == keys[..i];
  }

  /** Step 1 of `buildTree` in `script.js`: the nested object of the passing keys, in `fileMap` order. */
  method ScriptBuildTree(keys: seq<string>, filters: set<string>) returns (t: Tree)
    ensures t == Build(Passing(keys, filters))
  {
    t := EmptyTree;
    var i := 0;
    while i < |keys|
      invariant i <= |keys|
      invariant t == Build(Passing(keys[..i], filters))
    {
      var path := keys[i];
      ScriptStep(keys, i, filters);
      if RawExtension(path) in filters {
        t := InsertSegments(t, Split(path, '/'));
      }
      i := i + 1;
    }
    assert keys[..|keys|] == keys;
  }

  /** One key of the loop: a passing key is inserted, any other leaves the tree as it was. */
  lemma ScriptStep(keys: seq<string>, i: nat, filters: set<string>)
    requires i < |keys|
    ensures Build(Passing(keys[..i + 1], filters)) ==
              if RawExtension(keys[i]) in filters then InsertParts(Build(Passing(keys[..i], filters)), Split(keys[i], '/'), 0)
              else Build(Passing(keys[..i], filters))
  {
    PassingSnoc(keys, i, filters);
    if RawExtension(keys[i]) in filters {
      BuildSnoc(Passing(keys[..i], filters), keys[i]);
    } else {
      assert Passing(keys[..i], filters) + [] == Passing(keys[..i], filters);
    }
  }

  lemma BuildSnoc(files: seq<string>, f: string)
    ensures Build(files + [f]) == InsertParts(Build(files), Split(f, '/'), 0)
  {
    assert (files + [f])[..|files|] == files;
  }

  /** The filtered tree has a node exactly for each prefix of a passing key: no directory without a passing file below it. */
  lemma ScriptTreeNodes(keys: seq<string>, filters: set<string>, n: Path)
    ensures n in Build(Passing(keys, filters)).isFile <==> PassingNode(keys, filters, n)
  {
    var ps := Passing(keys, filters);
    DirTree.BuildNodes(ps);
    if n in Build(ps).isFile {
      assert IsNodeOf(ps, n);
      var f, k :| f in ps && 1 <= k <= |Split(f, '/')| && n == Split(f, '/')[..k];
      assert f in keys && RawExtension(f) in filters;
      assert PassingNode(keys, filters, n);
    }
    if PassingNode(keys, filters, n) {
      var f, k :| f in keys && RawExtension(f) in filters && 1 <= k <= |Split(f, '/')| && n == Split(f, '/')[..k];
      assert f in ps;
      assert IsNodeOf(ps, n);
      assert n in Build(ps).isFile;
    }
  }

  /** `n` is a non-empty prefix of the segments of a key whose extension is checked. */
  ghost predicate PassingNode(keys: seq<string>, filters: set<string>, n: Path)
  {
    exists f, k :: f in keys && RawExtension(f) in filters && 1 <= k <= |Split(f, '/')| && n == Split(f, '/')[..k]
  }

  /** `recurse(obj, path)` of `script.js`: a `flatMap` over the sorted entries. */
  function ScriptFlatten(t: Tree, p: Path, path: string): seq<Record>
    requires |p| <= Depth(t.order)
    decreases Depth(t.order) - |p|, 1
  {
    ScriptEntries(t, p, Children(t, p), 0, path)
  }

  function ScriptEntries(t: Tree, p: Path, kids: seq<Path>, i: nat, path: string): seq<Record>
    requires |p| <= Depth(t.order)
    requires AllChildren(t, p, kids)
    requires i <= |kids|
    decreases Depth(t.order) - |p|, 0, |kids| - i
  {
    if i == |kids| then []
    else
      assert kids[i] in t.order && IsChild(p, kids[i]);
      ScriptEntry(t, p, kids[i], path) + ScriptEntries(t, p, kids, i + 1, path)
  }

  /** `[node, ...recurse(children, node.id)]`, with `fullPath = path ? path/name : name` and `parent: path || '#'`. */
  function ScriptEntry(t: Tree, p: Path, c: Path, path: string): seq<Record>
    requires |p| <= Depth(t.order)
    requires c in t.order && IsChild(p, c)
    decreases Depth(t.order) - |p|, 0, 0
  {
    var fullPath := if path != "" then path + "/" + Name(c) else Name(c);
    [Record(fullPath, if path != "" then path else "#", IsFileNode(t, c))] + ScriptFlatten(t, c, fullPath)
  }

  /** The whole `recurse(tree)` of `script.js`. */
  function ScriptNodes(keys: seq<string>, filters: set<string>): seq<Record>
  {
    ScriptFlatten(Build(Passing(keys, filters)), [], "")
  }

  /** A record of the extension's rule with the empty root id, its empty parent shown as `#`. */
  function Rooted(r: Record): Record
  {
    if r.parent == "" then Record(r.id, "#", r.isFile) else r
  }

  ghost predicate Agrees(ss: seq<Record>, rs: seq<Record>)
  {
    |ss| == |rs| && forall j :: 0 <= j < |rs| ==> ss[j] == Rooted(rs[j])
  }

  lemma AgreesConcat(ss: seq<Record>, rs: seq<Record>, ss2: seq<Record>, rs2: seq<Record>)
    requires Agrees(ss, rs) && Agrees(ss2, rs2)
    ensures Agrees(ss + ss2, rs + rs2)
  {
    forall j | 0 <= j < |rs + rs2|
      ensures (ss + ss2)[j] == Rooted((rs + rs2)[j])
    {
      if j < |rs| {
        assert (ss + ss2)[j] == ss[j] && (rs + rs2)[j] == rs[j];
      } else {
        assert (ss + ss2)[j] == ss2[j - |ss|] && (rs + rs2)[j] == rs2[j - |rs|];
      }
    }
  }

  /**
   * `script.js`'s `recurse` is the extension's `recurse` started from the
   * empty root id, except that top-level records name `#` as parent.
   */
  lemma {:induction false} ScriptFlattenAgrees(t: Tree, p: Path, path: string)
    requires |p| <= Depth(t.order)
    ensures Agrees(ScriptFlatten(t, p, path), Flatten(t, p, path, ""))
    decreases Depth(t.order) - |p|, 1, 0
  {
    ScriptEntriesAgree(t, p, Children(t, p), 0, path);
  }

  lemma {:induction false} ScriptEntriesAgree(t: Tree, p: Path, kids: seq<Path>, i: nat, path: string)
    requires |p| <= Depth(t.order)
    requires AllChildren(t, p, kids)
    requires i <= |kids|
    ensures Agrees(ScriptEntries(t, p, kids, i, path), FlattenEntries(t, p, kids, i, path, ""))
    decreases Depth(t.order) - |p|, 0, |kids| - i, 1
  {
    if i < |kids| {
      var c := kids[i];
      assert c in t.order && IsChild(p, c);
      ScriptEntryAgrees(t, p, c, path);
      ScriptEntriesAgree(t, p, kids, i + 1, path);
      AgreesConcat(ScriptEntry(t, p, c, path), FlattenEntry(t, p, c, path, ""),
        ScriptEntries(t, p, kids, i + 1, path), FlattenEntries(t, p, kids, i + 1, path, ""));
    }
  }

  lemma {:induction false} ScriptEntryAgrees(t: Tree, p: Path, c: Path, path: string)
    requires |p| <= Depth(t.order)
    requires c in t.order && IsChild(p, c)
    ensures Agrees(ScriptEntry(t, p, c, path), FlattenEntry(t, p, c, path, ""))
    decreases Depth(t.order) - |p|, 0, 0, 0
  {
    var id := ChildId(path, "", Name(c));
    var s := [Record(id, if path != "" then path else "#", IsFileNode(t, c))];
    var r := [Record(id, path, IsFileNode(t, c))];
    assert Agrees(s, r);
    if HasChildren(t, c) {
      ScriptFlattenAgrees(t, c, id);
      AgreesConcat(s, r, ScriptFlatten(t, c, id), Flatten(t, c, id, ""));
    } else {
      NoChildren(t, c);
      assert ScriptFlatten(t, c, id) == [];
      assert s + [] == s && r + [] == r;
    }
  }

  /** A node without keys in its object has no sorted entries either. */
  lemma NoChildren(t: Tree, c: Path)
    requires !HasChildren(t, c)
    ensures Children(t, c) == []
  {
  }

  /**
   * `recurse(tree)` of `script.js`: one record per line of the walk over the
   * passing keys, in the same order; each carries the id and parent id of the
   * extension's rule from the empty root id (with `#` for the empty parent),
   * and every record names as parent `#` or a record placed before it.
   */
  lemma ScriptTree(keys: seq<string>, filters: set<string>)
    ensures var t := Build(Passing(keys, filters));
            var ss := ScriptNodes(keys, filters);
            var ls := Lines(t, [], "", true);
            && |ss| == |ls|
            && (forall j :: 0 <= j < |ls| ==>
                  Below([], ls[j].node) && ss[j] == Rooted(RecordAt(t, [], "", "", ls[j].node)))
            && (forall k :: 0 <= k < |ss| ==> ss[k].parent == "#" || EarlierParent(ss, k))
  {
    var t := Build(Passing(keys, filters));
    var ss := ScriptNodes(keys, filters);
    var rs := Flatten(t, [], "", "");
    var ls := Lines(t, [], "", true);
    ScriptFlattenAgrees(t, [], "");
    FlattenMatches(t, [], "", "", "", true);
    forall j | 0 <= j < |ls|
      ensures Below([], ls[j].node) && ss[j] == Rooted(RecordAt(t, [], "", "", ls[j].node))
    {
      assert ss[j] == Rooted(rs[j]);
    }
    ScriptParents(t, ss, rs);
  }

  lemma ScriptParents(t: Tree, ss: seq<Record>, rs: seq<Record>)
    requires rs == Flatten(t, [], "", "") && Agrees(ss, rs)
    ensures forall k :: 0 <= k < |ss| ==> ss[k].parent == "#" || EarlierParent(ss, k)
  {
    FlattenParents(t, [], "", "");
    forall k | 0 <= k < |ss| && ss[k].parent != "#"
      ensures EarlierParent(ss, k)
    {
      assert ss[k] == Rooted(rs[k]) && rs[k].parent != "";
      assert EarlierParent(rs, k);
      var m :| 0 <= m < k && rs[m].id == rs[k].parent;
      assert ss[m].id == rs[m].id;
    }
  }

  /** Where the first segment is not empty, a `script.js` id is the `/`-joined path and its parent the joined parent path, or `#` at the top. */
  lemma ScriptId(n: Path)
    requires |n| >= 1 && n[0] != ""
    ensures Rooted(RecordAt(EmptyTree, [], "", "", n)).id == Join(n, '/')
    ensures Rooted(RecordAt(EmptyTree, [], "", "", n)).parent == if |n| == 1 then "#" else Join(Parent(n), '/')
  {
    forall k | 1 <= k < |n|
      ensures Join(n[..k], '/') != ""
    {
      if k >= 2 {
        JoinHasSep(n[..k], '/');
      }
    }
    IdAtJoin("", n);
    if |n| >= 2 {
      if |n| >= 3 {
        JoinHasSep(Parent(n), '/');
      }
    }
  }

  /** With no key starting with `/`, a `script.js` file record's id is a key whose extension is checked. */
  lemma ScriptFileIdIsKey(keys: seq<string>, filters: set<string>, j: nat)
    requires forall f :: f in keys ==> Split(f, '/')[0] != ""
    requires j < |ScriptNodes(keys, filters)| && ScriptNodes(keys, filters)[j].isFile
    ensures ScriptNodes(keys, filters)[j].id in keys
    ensures RawExtension(ScriptNodes(keys, filters)[j].id) in filters
  {
    var ps := Passing(keys, filters);
    var t := Build(ps);
    var ls := Lines(t, [], "", true);
    ScriptTree(keys, filters);
    TreeWalk(ps);
    var n := ls[j].node;
    assert IsFileNode(t, n);
    DirTree.BuildNodes(ps);
    assert IsFileOf(ps, n);
    var f :| f in ps && n == Split(f, '/');
    ScriptId(n);
    assert RecordAt(EmptyTree, [], "", "", n).id == RecordAt(t, [], "", "", n).id;
    JoinSplit(f, '/');
  }
}
