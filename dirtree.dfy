/**
 * The ASCII directory tree of the JavaScript front ends
 * (`generateDirectoryTree` in `repo2md-vscode/src/extension.ts`,
 * `repo2md-vscode/src/extension.js` and `mobile/script.js`).
 *
 * The source builds a nested object, one key per path segment, where a node
 * is `{__children, __file?}`. Here that object is flattened: a node is the
 * sequence of segments leading to it, `isFile` maps every node to its
 * `__file` flag, and `order` lists the nodes in the order they were created,
 * which is the order `Object.entries` returns the keys of one level in.
 */
module DirTree {
  import opened Text
  import opened Sorting

  /** A node: the segments from the top level down to it. */
  type Path = seq<string>

  datatype Tree = Tree(isFile: map<Path, bool>, order: seq<Path>)

  const EmptyTree := Tree(map[], [])

  /** The parent of a node (the empty path stands for the root object). */
  function Parent(n: Path): Path
    requires |n| >= 1
  {
    n[..|n| - 1]
  }

  /** The key of a node in its parent object. */
  function Name(n: Path): string
    requires |n| >= 1
  {
    n[|n| - 1]
  }

  predicate IsChild(p: Path, c: Path)
  {
    |c| == |p| + 1 && c[..|p|] == p
  }

  /** Well-formed trees: `order` lists exactly the nodes, once each, and every node's parent is a node. */
  ghost predicate Valid(t: Tree)
  {
    && (forall n :: n in t.isFile <==> n in t.order)
    && NoDup(t.order)
    && (forall n :: n in t.isFile ==> |n| >= 1)
    && (forall n :: n in t.isFile && |n| >= 2 ==> Parent(n) in t.isFile)
  }

  // ------------------------------------------------------------ insertion

  /** One step of the inner `forEach`: create the node if missing, and flag it when it is the last segment. */
  function AddNode(t: Tree, n: Path, last: bool): Tree
  {
    var t1 := if n in t.isFile then t else Tree(t.isFile[n := false], t.order + [n]);
    if last then Tree(t1.isFile[n := true], t1.order) else t1
  }

  /** The inner `forEach` from segment `i` on. */
  function InsertParts(t: Tree, parts: seq<string>, i: nat): Tree
    requires i <= |parts|
    decreases |parts| - i
  {
    if i == |parts| then t
    else InsertParts(AddNode(t, parts[..i + 1], i == |parts| - 1), parts, i + 1)
  }

  /** The tree of `files`, inserted in order. */
  function Build(files: seq<string>): Tree
  {
    if |files| == 0 then EmptyTree
    else InsertParts(Build(files[..|files| - 1]), Split(files[|files| - 1], '/'), 0)
  }

  /** `n` is a non-empty prefix of the segments of some path in `files`. */
  ghost predicate IsNodeOf(files: seq<string>, n: Path)
  {
    exists f, k :: f in files && 1 <= k <= |Split(f, '/')| && n == Split(f, '/')[..k]
  }

  /** `n` is the full list of segments of some path in `files`. */
  ghost predicate IsFileOf(files: seq<string>, n: Path)
  {
    exists f :: f in files && n == Split(f, '/')
  }

  lemma {:induction false} InsertPartsNodes(t: Tree, parts: seq<string>, i: nat)
    requires i <= |parts|
    ensures forall n :: n in InsertParts(t, parts, i).isFile <==>
              n in t.isFile || exists k :: i < k <= |parts| && n == parts[..k]
    ensures forall n :: n in InsertParts(t, parts, i).isFile ==>
              InsertParts(t, parts, i).isFile[n] == ((n in t.isFile && t.isFile[n]) || (i < |parts| && n == parts))
    decreases |parts| - i
  {
    if i < |parts| {
      var t1 := AddNode(t, parts[..i + 1], i == |parts| - 1);
      InsertPartsNodes(t1, parts, i + 1);
      assert parts[..|parts|] == parts;
      forall n | n in InsertParts(t, parts, i).isFile
        ensures InsertParts(t, parts, i).isFile[n] == ((n in t.isFile && t.isFile[n]) || n == parts)
      {
        if n == parts[..i + 1] && i + 1 < |parts| {
          assert |n| < |parts|;
        }
      }
    }
  }

  /** Closed form of the tree: its nodes are the path prefixes, and a node is a file exactly when it is a whole path. */
  lemma {:induction false} BuildNodes(files: seq<string>)
    ensures forall n :: n in Build(files).isFile <==> IsNodeOf(files, n)
    ensures forall n :: n in Build(files).isFile ==> (Build(files).isFile[n] <==> IsFileOf(files, n))
  {
    if |files| > 0 {
      var init := files[..|files| - 1];
      var f := files[|files| - 1];
      var parts := Split(f, '/');
      assert files == init + [f];
      BuildNodes(init);
      InsertPartsNodes(Build(init), parts, 0);
      forall n
        ensures n in Build(files).isFile <==> IsNodeOf(files, n)
      {
        if IsNodeOf(files, n) {
          var g, k :| g in files && 1 <= k <= |Split(g, '/')| && n == Split(g, '/')[..k];
          if g != f {
            assert g in init;
            assert IsNodeOf(init, n);
          }
        }
        if n in Build(init).isFile {
          var g, k :| g in init && 1 <= k <= |Split(g, '/')| && n == Split(g, '/')[..k];
          assert g in files;
        }
      }
      forall n | n in Build(files).isFile
        ensures Build(files).isFile[n] <==> IsFileOf(files, n)
      {
        if IsFileOf(files, n) {
          var g :| g in files && n == Split(g, '/');
          if g != f {
            assert g in init;
            assert IsFileOf(init, n);
            var k := |Split(g, '/')|;
            assert Split(g, '/')[..k] == n;
          }
        }
        if n in Build(init).isFile && Build(init).isFile[n] {
          var g :| g in init && n == Split(g, '/');
          assert g in files;
        }
      }
    }
  }

  /** Every node passed to `AddNode` keeps the tree well-formed when its parent is already there. */
  lemma AddNodeValid(t: Tree, n: Path, last: bool)
    requires Valid(t)
    requires |n| >= 1
    requires |n| >= 2 ==> Parent(n) in t.isFile
    ensures Valid(AddNode(t, n, last))
  {
    if n !in t.isFile {
      var o := t.order + [n];
      forall i, j | 0 <= i < j < |o|
        ensures o[i] != o[j]
      {
        if j < |t.order| {
          assert o[i] == t.order[i] && o[j] == t.order[j];
        } else {
          assert o[i] == t.order[i];
        }
      }
    }
  }

  lemma {:induction false} InsertPartsValid(t: Tree, parts: seq<string>, i: nat)
    requires Valid(t)
    requires i <= |parts|
    requires i > 0 ==> parts[..i] in t.isFile
    ensures Valid(InsertParts(t, parts, i))
    decreases |parts| - i
  {
    if i < |parts| {
      var n := parts[..i + 1];
      TakeTake(parts, i, i + 1);
      AddNodeValid(t, n, i == |parts| - 1);
      var t1 := AddNode(t, n, i == |parts| - 1);
      assert n in t1.isFile;
      InsertPartsValid(t1, parts, i + 1);
    }
  }

  lemma {:induction false} BuildValid(files: seq<string>)
    ensures Valid(Build(files))
  {
    if |files| > 0 {
      BuildValid(files[..|files| - 1]);
      InsertPartsValid(Build(files[..|files| - 1]), Split(files[|files| - 1], '/'), 0);
    }
  }

  lemma {:induction false} InsertPartsPresent(t: Tree, parts: seq<string>, i: nat)
    requires i <= |parts|
    requires forall k :: i < k <= |parts| ==> parts[..k] in t.isFile
    requires i < |parts| ==> t.isFile[parts[..|parts|]]
    ensures InsertParts(t, parts, i) == t
    decreases |parts| - i
  {
    if i < |parts| {
      var n := parts[..i + 1];
      assert n in t.isFile;
      if i == |parts| - 1 {
        assert t.isFile[n := true] == t.isFile;
      }
      assert AddNode(t, n, i == |parts| - 1) == t;
      InsertPartsPresent(t, parts, i + 1);
    }
  }

  /** Inserting a path that was already inserted leaves the tree, order included, unchanged. */
  lemma InsertTwice(files: seq<string>, f: string)
    requires f in files
    ensures Build(files + [f]) == Build(files)
  {
    var parts := Split(f, '/');
    assert (files + [f])[..|files|] == files;
    BuildNodes(files);
    forall k | 0 < k <= |parts|
      ensures parts[..k] in Build(files).isFile
    {
      assert IsNodeOf(files, parts[..k]);
    }
    assert parts[..|parts|] == parts;
    assert IsFileOf(files, parts);
    InsertPartsPresent(Build(files), parts, 0);
  }

  /** Which nodes exist and which are files does not depend on the order or repetition of the paths. */
  lemma BuildMapOrderFree(xs: seq<string>, ys: seq<string>)
    requires forall f :: f in xs <==> f in ys
    ensures Build(xs).isFile == Build(ys).isFile
  {
    BuildNodes(xs);
    BuildNodes(ys);
    forall n
      ensures IsNodeOf(xs, n) <==> IsNodeOf(ys, n)
      ensures IsFileOf(xs, n) <==> IsFileOf(ys, n)
    {
      if IsNodeOf(xs, n) {
        var f, k :| f in xs && 1 <= k <= |Split(f, '/')| && n == Split(f, '/')[..k];
        assert f in ys;
      }
      if IsNodeOf(ys, n) {
        var f, k :| f in ys && 1 <= k <= |Split(f, '/')| && n == Split(f, '/')[..k];
        assert f in xs;
      }
      if IsFileOf(xs, n) {
        var f :| f in xs && n == Split(f, '/');
        assert f in ys;
      }
      if IsFileOf(ys, n) {
        var f :| f in ys && n == Split(f, '/');
        assert f in xs;
      }
    }
  }

  // ------------------------------------------------------- sibling order

  /** The keys of one level in creation order: the nodes in `order` that are children of `p`. */
  function Kids(order: seq<Path>, p: Path): (r: seq<Path>)
    ensures forall c :: c in r <==> c in order && IsChild(p, c)
  {
    if |order| == 0 then []
    else (if IsChild(p, order[0]) then [order[0]] else []) + Kids(order[1..], p)
  }

  lemma {:induction false} KidsNoDup(order: seq<Path>, p: Path)
    requires NoDup(order)
    ensures NoDup(Kids(order, p))
  {
    if |order| > 0 {
      assert NoDup(order[1..]) by {
        forall i, j | 0 <= i < j < |order[1..]|
          ensures order[1..][i] != order[1..][j]
        {
          assert order[1..][i] == order[i + 1] && order[1..][j] == order[j + 1];
        }
      }
      KidsNoDup(order[1..], p);
      var rest := Kids(order[1..], p);
      if IsChild(p, order[0]) {
        var r := [order[0]] + rest;
        forall i, j | 0 <= i < j < |r|
          ensures r[i] != r[j]
        {
          if i > 0 {
            assert r[i] == rest[i - 1] && r[j] == rest[j - 1];
          } else {
            assert r[j] in order[1..];
            var k :| 0 <= k < |order[1..]| && order[1..][k] == r[j];
            assert order[k + 1] == r[j];
          }
        }
      } else {
        assert Kids(order, p) == rest;
      }
    }
  }

  /** Directories rank 0, files 1, as `!data.__file` decides. */
  function KindRank(t: Tree, c: Path): int
  {
    if c in t.isFile && t.isFile[c] then 1 else 0
  }

  /** The comparator of `buildTreeString` as a key: the kind, then the name without case. */
  function KeyOf(t: Tree): Path -> seq<int>
  {
    c => Key(t, c)
  }

  function Key(t: Tree, c: Path): seq<int>
  {
    [KindRank(t, c)] + (if |c| == 0 then [] else Codes(Lower(Name(c))))
  }

  /** Every element of `kids` is a node and a child of `p`. */
  predicate AllChildren(t: Tree, p: Path, kids: seq<Path>)
  {
    forall k :: 0 <= k < |kids| ==> kids[k] in t.order && IsChild(p, kids[k])
  }

  /** `Object.entries(node).sort(...)`: the children of `p`, stably sorted by kind and name. */
  function Children(t: Tree, p: Path): (r: seq<Path>)
    ensures forall c :: c in r <==> c in t.order && IsChild(p, c)
    ensures AllChildren(t, p, r)
  {
    var kids := Kids(t.order, p);
    SortMembers(kids, KeyOf(t));
    Sort(kids, KeyOf(t))
  }

  lemma ChildrenNoDup(t: Tree, p: Path)
    requires Valid(t)
    ensures NoDup(Children(t, p))
  {
    KidsNoDup(t.order, p);
    SortNoDup(Kids(t.order, p), KeyOf(t));
  }

  /** Sibling order: every directory precedes every file, and nodes of one kind are in case-insensitive name order. */
  lemma SiblingOrder(t: Tree, p: Path, i: nat, j: nat)
    requires i < j < |Children(t, p)|
    ensures var s := Children(t, p);
            KindRank(t, s[i]) <= KindRank(t, s[j]) &&
            (KindRank(t, s[i]) == KindRank(t, s[j]) ==> !Less(Codes(Lower(Name(s[j]))), Codes(Lower(Name(s[i])))))
  {
    var s := Children(t, p);
    SortSorted(Kids(t.order, p), KeyOf(t));
    var a, b := s[i], s[j];
    assert !Less(KeyOf(t)(b), KeyOf(t)(a));
    assert IsChild(p, a) && IsChild(p, b);
    var ka := Codes(Lower(Name(a)));
    var kb := Codes(Lower(Name(b)));
    assert KeyOf(t)(a) == Key(t, a) == [KindRank(t, a)] + ka;
    assert KeyOf(t)(b) == Key(t, b) == [KindRank(t, b)] + kb;
    assert ([KindRank(t, b)] + kb)[1..] == kb;
    assert ([KindRank(t, a)] + ka)[1..] == ka;
  }

  // ------------------------------------------------------------ rendering

  /** Length of the deepest node: the recursion into children cannot go deeper. */
  function Depth(order: seq<Path>): (d: nat)
    ensures forall n :: n in order ==> |n| <= d
  {
    if |order| == 0 then 0
    else
      var r := Depth(order[1..]);
      if |order[0]| > r then |order[0]| else r
  }

  /** One output line: indentation, connector, name and the directory slash, with the node it shows. */
  datatype Line = Line(node: Path, prefix: string, connector: string, name: string, slash: bool)

  function Connector(isLast: bool): string
  {
    if isLast then "└── " else "├── "
  }

  function Indent(isLast: bool): string
  {
    if isLast then "    " else "│   "
  }

  /** `!!data.__file`. */
  predicate IsFileNode(t: Tree, c: Path)
  {
    c in t.isFile && t.isFile[c]
  }

  /** `Object.keys(data.__children).length > 0`. */
  predicate HasChildren(t: Tree, c: Path)
  {
    |Kids(t.order, c)| > 0
  }

  /** `buildTreeString(children of p, prefix, isLast)` as lines. */
  function Lines(t: Tree, p: Path, prefix: string, isLast: bool): seq<Line>
    requires |p| <= Depth(t.order)
    decreases Depth(t.order) - |p|, 1
  {
    Entries(t, p, Children(t, p), 0, prefix, isLast)
  }

  /** The `entries.forEach` from entry `i` on. */
  function Entries(t: Tree, p: Path, kids: seq<Path>, i: nat, prefix: string, isLast: bool): seq<Line>
    requires |p| <= Depth(t.order)
    requires AllChildren(t, p, kids)
    requires i <= |kids|
    decreases Depth(t.order) - |p|, 0, |kids| - i
  {
    if i == |kids| then []
    else
      assert kids[i] in t.order && IsChild(p, kids[i]);
      EntryLines(t, p, kids[i], prefix, isLast, i == |kids| - 1) + Entries(t, p, kids, i + 1, prefix, isLast)
  }

  /** One entry: its line is drawn with the caller's `isLast`, and its own position `last` is passed down to its children. */
  function EntryLines(t: Tree, p: Path, c: Path, prefix: string, isLast: bool, last: bool): seq<Line>
    requires |p| <= Depth(t.order)
    requires c in t.order && IsChild(p, c)
    decreases Depth(t.order) - |p|, 0, 0
  {
    [Line(c, prefix, Connector(isLast), Name(c), !IsFileNode(t, c) && HasChildren(t, c))]
      + (if HasChildren(t, c) then Lines(t, c, prefix + Indent(isLast), last) else [])
  }

  function LineText(l: Line): string
  {
    l.prefix + l.connector + l.name + (if l.slash then "/" else "") + "\n"
  }

  function Render(lines: seq<Line>): string
  {
    if |lines| == 0 then "" else LineText(lines[0]) + Render(lines[1..])
  }

  lemma {:induction false} RenderAppend(a: seq<Line>, b: seq<Line>)
    ensures Render(a + b) == Render(a) + Render(b)
  {
    if |a| == 0 {
      assert a + b == b;
    } else {
      assert (a + b)[1..] == a[1..] + b;
      RenderAppend(a[1..], b);
      AppendAssoc(LineText(a[0]), Render(a[1..]), Render(b));
    }
  }

  // ------------------------------------------------------ the connector rule

  /** `q` is the last of its siblings. */
  predicate IsLastChild(t: Tree, q: Path)
    requires |q| >= 1
  {
    var s := Children(t, Parent(q));
    |s| > 0 && s[|s| - 1] == q
  }

  /** The `isLast` argument of the call that lists the children of `q`, in a walk started at `p` with `isLast`. */
  predicate FlagAt(t: Tree, p: Path, isLast: bool, q: Path)
    requires |q| >= |p|
  {
    if |q| == |p| then isLast else IsLastChild(t, q)
  }

  /** The `prefix` argument of the call that lists the children of `q`: one indent per ancestor, chosen by that ancestor's call. */
  function PrefixAt(t: Tree, p: Path, prefix: string, isLast: bool, q: Path): string
    requires |q| >= |p|
    decreases |q|
  {
    if |q| == |p| then prefix
    else PrefixAt(t, p, prefix, isLast, Parent(q)) + Indent(FlagAt(t, p, isLast, Parent(q)))
  }

  /** What the line of a node in a walk from `p` looks like. */
  ghost predicate LineAt(t: Tree, p: Path, prefix: string, isLast: bool, l: Line)
  {
    var n := l.node;
    && |n| > |p| && n[..|p|] == p && n in t.isFile
    && l.name == Name(n)
    && l.connector == Connector(FlagAt(t, p, isLast, Parent(n)))
    && l.prefix == PrefixAt(t, p, prefix, isLast, Parent(n))
    && l.slash == (!IsFileNode(t, n) && HasChildren(t, n))
  }

  lemma FlagRebase(t: Tree, p: Path, isLast: bool, c: Path, q: Path)
    requires IsChild(p, c) && |q| >= |c| && q[..|c|] == c
    ensures FlagAt(t, c, IsLastChild(t, c), q) == FlagAt(t, p, isLast, q)
  {
    if |q| == |c| {
      assert q == q[..|c|];
    }
  }

  /** Seen from the parent's call, the child call's prefixes are the parent's. */
  lemma {:induction false} PrefixRebase(t: Tree, p: Path, prefix: string, isLast: bool, c: Path, q: Path)
    requires IsChild(p, c) && |q| >= |c| && q[..|c|] == c
    ensures PrefixAt(t, c, prefix + Indent(isLast), IsLastChild(t, c), q) == PrefixAt(t, p, prefix, isLast, q)
    decreases |q|
  {
    if |q| == |c| {
      assert Parent(q) == p by {
        assert q == c;
      }
    } else {
      var r := Parent(q);
      assert r[..|c|] == c;
      PrefixRebase(t, p, prefix, isLast, c, r);
      FlagRebase(t, p, isLast, c, r);
    }
  }

  lemma NodeBelow(p: Path, c: Path, n: Path)
    requires IsChild(p, c) && |n| > |c| && n[..|c|] == c
    ensures |n| > |p| && n[..|p|] == p
    ensures |Parent(n)| >= |c| && Parent(n)[..|c|] == c
  {
    assert n[..|p|] == n[..|c|][..|p|];
    assert Parent(n)[..|c|] == n[..|c|];
  }

  lemma LastIndex(s: seq<Path>, i: nat)
    requires NoDup(s) && i < |s|
    ensures s[|s| - 1] == s[i] <==> i == |s| - 1
  {
  }

  /** Every line of a walk shows a node below `p`, with the name, connector, indentation and slash the rule assigns it. */
  lemma {:induction false} LinesShape(t: Tree, p: Path, prefix: string, isLast: bool)
    requires Valid(t) && |p| <= Depth(t.order)
    ensures AllLineAt(t, p, prefix, isLast, Lines(t, p, prefix, isLast))
    decreases Depth(t.order) - |p|, 1, 0, 0
  {
    EntriesShape(t, p, 0, prefix, isLast);
  }

  lemma {:induction false} EntriesShape(t: Tree, p: Path, i: nat, prefix: string, isLast: bool)
    requires Valid(t) && |p| <= Depth(t.order)
    requires i <= |Children(t, p)|
    ensures AllLineAt(t, p, prefix, isLast, Entries(t, p, Children(t, p), i, prefix, isLast))
    decreases Depth(t.order) - |p|, 0, |Children(t, p)| - i, 1
  {
    if i < |Children(t, p)| {
      EntryShape(t, p, i, prefix, isLast);
    }
  }

  /** One entry: its own line, then its subtree, then the later entries. */
  lemma {:induction false} EntryShape(t: Tree, p: Path, i: nat, prefix: string, isLast: bool)
    requires Valid(t) && |p| <= Depth(t.order)
    requires i < |Children(t, p)|
    ensures AllLineAt(t, p, prefix, isLast, Entries(t, p, Children(t, p), i, prefix, isLast))
    decreases Depth(t.order) - |p|, 0, |Children(t, p)| - i, 0
  {
    var kids := Children(t, p);
    var c := kids[i];
    var head := HeadShape(t, p, i, prefix, isLast);
    AllLineAtSingle(t, p, prefix, isLast, head);
    var sub := if HasChildren(t, c) then Lines(t, c, prefix + Indent(isLast), i == |kids| - 1) else [];
    if HasChildren(t, c) {
      SubLinesShape(t, p, i, prefix, isLast);
    }
    EntriesShape(t, p, i + 1, prefix, isLast);
    EntriesUnfold(t, p, kids, i, prefix, isLast);
    AllLineAtConcat(t, p, prefix, isLast, [head], sub, Entries(t, p, kids, i + 1, prefix, isLast));
  }

  lemma EntriesUnfold(t: Tree, p: Path, kids: seq<Path>, i: nat, prefix: string, isLast: bool)
    requires |p| <= Depth(t.order)
    requires AllChildren(t, p, kids)
    requires i < |kids|
    ensures var c := kids[i];
            Entries(t, p, kids, i, prefix, isLast) ==
              [Line(c, prefix, Connector(isLast), Name(c), !IsFileNode(t, c) && HasChildren(t, c))]
              + (if HasChildren(t, c) then Lines(t, c, prefix + Indent(isLast), i == |kids| - 1) else [])
              + Entries(t, p, kids, i + 1, prefix, isLast)
  {
  }

  /** Every line of `ls` is drawn as the rule says, for a walk from `p`. */
  ghost predicate AllLineAt(t: Tree, p: Path, prefix: string, isLast: bool, ls: seq<Line>)
  {
    forall j :: 0 <= j < |ls| ==> LineAt(t, p, prefix, isLast, ls[j])
  }

  lemma AllLineAtSingle(t: Tree, p: Path, prefix: string, isLast: bool, l: Line)
    requires LineAt(t, p, prefix, isLast, l)
    ensures AllLineAt(t, p, prefix, isLast, [l])
  {
    assert [l][0] == l;
  }

  lemma AllLineAtConcat(t: Tree, p: Path, prefix: string, isLast: bool, a: seq<Line>, b: seq<Line>, c: seq<Line>)
    requires AllLineAt(t, p, prefix, isLast, a) && AllLineAt(t, p, prefix, isLast, b) && AllLineAt(t, p, prefix, isLast, c)
    ensures AllLineAt(t, p, prefix, isLast, a + b + c)
  {
    var s := a + b + c;
    forall j | 0 <= j < |s|
      ensures LineAt(t, p, prefix, isLast, s[j])
    {
      if j < |a| {
        assert s[j] == a[j];
      } else if j < |a| + |b| {
        assert s[j] == b[j - |a|];
      } else {
        assert s[j] == c[j - |a| - |b|];
      }
    }
  }

  /** The line an entry draws for itself. */
  lemma HeadShape(t: Tree, p: Path, i: nat, prefix: string, isLast: bool) returns (head: Line)
    requires Valid(t) && i < |Children(t, p)|
    ensures var c := Children(t, p)[i];
            head == Line(c, prefix, Connector(isLast), Name(c), !IsFileNode(t, c) && HasChildren(t, c))
    ensures LineAt(t, p, prefix, isLast, head)
  {
    var c := Children(t, p)[i];
    assert c in t.order && IsChild(p, c);
    assert Parent(c) == p;
    head := Line(c, prefix, Connector(isLast), Name(c), !IsFileNode(t, c) && HasChildren(t, c));
  }

  /** The entry at position `i` is the last of its siblings exactly when it is the last entry. */
  lemma ChildLast(t: Tree, p: Path, i: nat)
    requires Valid(t) && i < |Children(t, p)|
    ensures IsChild(p, Children(t, p)[i])
    ensures IsLastChild(t, Children(t, p)[i]) == (i == |Children(t, p)| - 1)
  {
    ChildOf(t, p, i);
    ChildrenNoDup(t, p);
    LastIndex(Children(t, p), i);
  }

  /** The entry at position `i` is a child of `p`. */
  lemma ChildOf(t: Tree, p: Path, i: nat)
    requires i < |Children(t, p)|
    ensures IsChild(p, Children(t, p)[i]) && Parent(Children(t, p)[i]) == p
  {
    assert Children(t, p)[i] in Children(t, p);
  }

  /** The lines of a child's subtree, seen from the parent's walk. */
  lemma {:induction false} SubLinesShape(t: Tree, p: Path, i: nat, prefix: string, isLast: bool)
    requires Valid(t) && |p| <= Depth(t.order)
    requires i < |Children(t, p)|
    requires HasChildren(t, Children(t, p)[i])
    ensures Children(t, p)[i] in t.order && |Children(t, p)[i]| <= Depth(t.order)
    ensures AllLineAt(t, p, prefix, isLast, Lines(t, Children(t, p)[i], prefix + Indent(isLast), i == |Children(t, p)| - 1))
    decreases Depth(t.order) - |p|, 0, 0, 0
  {
    var kids := Children(t, p);
    var c := kids[i];
    assert c in t.order && IsChild(p, c);
    ChildLast(t, p, i);
    var childLast := i == |kids| - 1;
    LinesShape(t, c, prefix + Indent(isLast), childLast);
    var ls := Lines(t, c, prefix + Indent(isLast), childLast);
    forall j | 0 <= j < |ls|
      ensures LineAt(t, p, prefix, isLast, ls[j])
    {
      var l := ls[j];
      assert LineAt(t, c, prefix + Indent(isLast), childLast, l);
      var n := l.node;
      assert |n| > |c| && n[..|c|] == c;
      NodeBelow(p, c, n);
      FlagRebase(t, p, isLast, c, Parent(n));
      PrefixRebase(t, p, prefix, isLast, c, Parent(n));
    }
  }

  // ---------------------------------------------------------- completeness

  lemma TakeTake<T>(s: seq<T>, a: nat, b: nat)
    requires a <= b <= |s|
    ensures s[..b][..a] == s[..a]
  {
  }

  /** Every non-empty prefix of a node is a node. */
  lemma {:induction false} AncestorIn(t: Tree, n: Path, k: nat)
    requires Valid(t) && n in t.isFile && 1 <= k <= |n|
    ensures n[..k] in t.isFile
    decreases |n| - k
  {
    if k == |n| {
      assert n[..k] == n;
    } else {
      AncestorIn(t, n, k + 1);
      assert Parent(n[..k + 1]) == n[..k];
    }
  }

  /** Entry `k` of a walk from `p` draws its own line and its whole subtree, from any earlier starting entry on. */
  lemma {:induction false} EntriesMembers(t: Tree, p: Path, i: nat, prefix: string, isLast: bool, k: nat)
    requires Valid(t) && |p| <= Depth(t.order)
    requires i <= k < |Children(t, p)|
    ensures var c := Children(t, p)[k];
            Line(c, prefix, Connector(isLast), Name(c), !IsFileNode(t, c) && HasChildren(t, c))
              in Entries(t, p, Children(t, p), i, prefix, isLast)
    ensures var c := Children(t, p)[k];
            HasChildren(t, c) ==>
              forall l :: l in Lines(t, c, prefix + Indent(isLast), k == |Children(t, p)| - 1) ==>
                l in Entries(t, p, Children(t, p), i, prefix, isLast)
    decreases k - i
  {
    var kids := Children(t, p);
    assert kids[i] in t.order && IsChild(p, kids[i]);
    EntriesUnfold(t, p, kids, i, prefix, isLast);
    var here := Entries(t, p, kids, i, prefix, isLast);
    var c := kids[i];
    var head := [Line(c, prefix, Connector(isLast), Name(c), !IsFileNode(t, c) && HasChildren(t, c))];
    var sub := if HasChildren(t, c) then Lines(t, c, prefix + Indent(isLast), i == |kids| - 1) else [];
    var rest := Entries(t, p, kids, i + 1, prefix, isLast);
    assert here == head + sub + rest;
    if i < k {
      EntriesMembers(t, p, i + 1, prefix, isLast, k);
      InRest(head + sub, rest);
    } else {
      InHead(head, sub + rest);
      AppendAssoc(head, sub, rest);
      InMiddle(head, sub, rest);
      if HasChildren(t, c) {
        var ls := Lines(t, c, prefix + Indent(isLast), k == |kids| - 1);
        assert sub == ls;
        assert forall l :: l in ls ==> l in here;
      }
    }
  }

  lemma InRest<T>(a: seq<T>, b: seq<T>)
    ensures forall x :: x in b ==> x in a + b
  {
  }

  lemma InHead<T>(a: seq<T>, b: seq<T>)
    ensures forall x :: x in a ==> x in a + b
  {
  }

  lemma InMiddle<T>(a: seq<T>, b: seq<T>, c: seq<T>)
    ensures forall x :: x in b ==> x in a + b + c
  {
  }

  /** Every node below `p` is drawn by the walk from `p`. */
  lemma {:induction false} LinesComplete(t: Tree, p: Path, prefix: string, isLast: bool, n: Path)
    requires Valid(t) && |p| <= Depth(t.order)
    requires n in t.isFile && |n| > |p| && n[..|p|] == p
    ensures exists l :: l in Lines(t, p, prefix, isLast) && l.node == n
    decreases |n| - |p|
  {
    var c := n[..|p| + 1];
    AncestorIn(t, n, |p| + 1);
    TakeTake(n, |p|, |p| + 1);
    var kids := Children(t, p);
    assert c in kids;
    var k :| 0 <= k < |kids| && kids[k] == c;
    EntriesMembers(t, p, 0, prefix, isLast, k);
    if n == c {
      assert Line(c, prefix, Connector(isLast), Name(c), !IsFileNode(t, c) && HasChildren(t, c)) in Lines(t, p, prefix, isLast);
    } else {
      var d := n[..|p| + 2];
      AncestorIn(t, n, |p| + 2);
      TakeTake(n, |p| + 1, |p| + 2);
      assert IsChild(c, d);
      assert d in Children(t, c);
      LinesComplete(t, c, prefix + Indent(isLast), k == |kids| - 1, n);
      var l :| l in Lines(t, c, prefix + Indent(isLast), k == |kids| - 1) && l.node == n;
      assert l in Lines(t, p, prefix, isLast);
    }
  }

  // ------------------------------------------------------------ uniqueness

  /** No two lines show the same node. */
  ghost predicate DistinctNodes(ls: seq<Line>)
  {
    forall a, b :: 0 <= a < b < |ls| ==> ls[a].node != ls[b].node
  }

  /** No line of `xs` shows a node that a line of `ys` shows. */
  ghost predicate Disjoint(xs: seq<Line>, ys: seq<Line>)
  {
    forall a, b :: 0 <= a < |xs| && 0 <= b < |ys| ==> xs[a].node != ys[b].node
  }

  lemma DistinctConcat(xs: seq<Line>, ys: seq<Line>, zs: seq<Line>)
    requires DistinctNodes(xs) && DistinctNodes(ys) && DistinctNodes(zs)
    requires Disjoint(xs, ys) && Disjoint(xs, zs) && Disjoint(ys, zs)
    ensures DistinctNodes(xs + ys + zs)
  {
    var s := xs + ys + zs;
    forall a, b | 0 <= a < b < |s|
      ensures s[a].node != s[b].node
    {
      if b < |xs| {
        assert s[a] == xs[a] && s[b] == xs[b];
      } else if b < |xs| + |ys| {
        if a < |xs| {
          assert s[a] == xs[a] && s[b] == ys[b - |xs|];
        } else {
          assert s[a] == ys[a - |xs|] && s[b] == ys[b - |xs|];
        }
      } else {
        assert s[b] == zs[b - |xs| - |ys|];
        if a < |xs| {
          assert s[a] == xs[a];
        } else if a < |xs| + |ys| {
          assert s[a] == ys[a - |xs|];
        } else {
          assert s[a] == zs[a - |xs| - |ys|];
        }
      }
    }
  }

  /** Every line shows a node of the subtree of `c`, a child of `p`. */
  ghost predicate UnderAll(ls: seq<Line>, p: Path, c: Path)
  {
    forall j :: 0 <= j < |ls| ==> |ls[j].node| > |p| && ls[j].node[..|p| + 1] == c
  }

  /** No line shows a node of the subtree of `x`, a child of `p`. */
  ghost predicate NotUnder(ls: seq<Line>, p: Path, x: Path)
  {
    forall j :: 0 <= j < |ls| ==> |ls[j].node| <= |p| || ls[j].node[..|p| + 1] != x
  }

  lemma UnderDisjoint(xs: seq<Line>, ys: seq<Line>, p: Path, c: Path)
    requires UnderAll(xs, p, c) && NotUnder(ys, p, c)
    ensures Disjoint(xs, ys)
  {
  }

  lemma UnderNotUnder(ls: seq<Line>, p: Path, c: Path, x: Path)
    requires UnderAll(ls, p, c) && x != c
    ensures NotUnder(ls, p, x)
  {
  }

  lemma UnderConcat(xs: seq<Line>, ys: seq<Line>, p: Path, c: Path)
    requires UnderAll(xs, p, c) && UnderAll(ys, p, c)
    ensures UnderAll(xs + ys, p, c)
  {
    var s := xs + ys;
    forall j | 0 <= j < |s|
      ensures |s[j].node| > |p| && s[j].node[..|p| + 1] == c
    {
      if j < |xs| {
        assert s[j] == xs[j];
      } else {
        assert s[j] == ys[j - |xs|];
      }
    }
  }

  lemma NotUnderConcat(xs: seq<Line>, ys: seq<Line>, p: Path, c: Path)
    requires NotUnder(xs, p, c) && NotUnder(ys, p, c)
    ensures NotUnder(xs + ys, p, c)
  {
    var s := xs + ys;
    forall j | 0 <= j < |s|
      ensures |s[j].node| <= |p| || s[j].node[..|p| + 1] != c
    {
      if j < |xs| {
        assert s[j] == xs[j];
      } else {
        assert s[j] == ys[j - |xs|];
      }
    }
  }

  /** The lines of a walk from a child `c` of `p` all lie in the subtree of `c`. */
  lemma ShapeUnder(t: Tree, p: Path, c: Path, prefix: string, isLast: bool, ls: seq<Line>)
    requires IsChild(p, c) && AllLineAt(t, c, prefix, isLast, ls)
    ensures UnderAll(ls, p, c)
  {
    forall j | 0 <= j < |ls|
      ensures |ls[j].node| > |p| && ls[j].node[..|p| + 1] == c
    {
      assert LineAt(t, c, prefix, isLast, ls[j]);
      TakeTake(ls[j].node, |p| + 1, |c|);
    }
  }

  /** The lines of one entry lie in the entry's subtree. */
  lemma EntryUnder(t: Tree, p: Path, c: Path, prefix: string, isLast: bool, last: bool)
    requires Valid(t) && |p| <= Depth(t.order)
    requires c in t.order && IsChild(p, c)
    ensures UnderAll(EntryLines(t, p, c, prefix, isLast, last), p, c)
  {
    var head := [Line(c, prefix, Connector(isLast), Name(c), !IsFileNode(t, c) && HasChildren(t, c))];
    assert UnderAll(head, p, c) by {
      assert head[0].node[..|p| + 1] == c;
    }
    var sub := if HasChildren(t, c) then Lines(t, c, prefix + Indent(isLast), last) else [];
    if HasChildren(t, c) {
      LinesShape(t, c, prefix + Indent(isLast), last);
      ShapeUnder(t, p, c, prefix + Indent(isLast), last, sub);
    }
    UnderConcat(head, sub, p, c);
  }

  /** The lines of one entry show distinct nodes. */
  lemma {:induction false} EntryDistinct(t: Tree, p: Path, c: Path, prefix: string, isLast: bool, last: bool)
    requires Valid(t) && |p| <= Depth(t.order)
    requires c in t.order && IsChild(p, c)
    ensures DistinctNodes(EntryLines(t, p, c, prefix, isLast, last))
    decreases Depth(t.order) - |p|, 0, 0
  {
    var head := [Line(c, prefix, Connector(isLast), Name(c), !IsFileNode(t, c) && HasChildren(t, c))];
    if HasChildren(t, c) {
      var sub := Lines(t, c, prefix + Indent(isLast), last);
      LinesShape(t, c, prefix + Indent(isLast), last);
      LinesDistinct(t, c, prefix + Indent(isLast), last);
      HeadDistinct(t, c, prefix + Indent(isLast), last, head, sub);
    }
  }

  /** A line for `c` followed by lines of the walk below `c` shows distinct nodes. */
  lemma HeadDistinct(t: Tree, c: Path, prefix: string, isLast: bool, head: seq<Line>, sub: seq<Line>)
    requires |head| == 1 && head[0].node == c
    requires AllLineAt(t, c, prefix, isLast, sub) && DistinctNodes(sub)
    ensures DistinctNodes(head + sub)
  {
    DeeperDisjoint(t, c, prefix, isLast, head, sub);
    DistinctConcat(head, sub, []);
    assert head + sub + [] == head + sub;
  }

  lemma DeeperDisjoint(t: Tree, c: Path, prefix: string, isLast: bool, head: seq<Line>, sub: seq<Line>)
    requires forall a :: 0 <= a < |head| ==> head[a].node == c
    requires AllLineAt(t, c, prefix, isLast, sub)
    ensures Disjoint(head, sub)
  {
    forall a, b | 0 <= a < |head| && 0 <= b < |sub|
      ensures head[a].node != sub[b].node
    {
      assert LineAt(t, c, prefix, isLast, sub[b]);
    }
  }

  /** The lines from entry `i` on avoid the subtree of every node that is not among the entries `i..`. */
  lemma {:induction false} EntriesAvoid(t: Tree, p: Path, kids: seq<Path>, i: nat, prefix: string, isLast: bool, x: Path)
    requires Valid(t) && |p| <= Depth(t.order)
    requires AllChildren(t, p, kids) && i <= |kids|
    requires forall k :: i <= k < |kids| ==> kids[k] != x
    ensures NotUnder(Entries(t, p, kids, i, prefix, isLast), p, x)
    decreases |kids| - i
  {
    if i < |kids| {
      var c := kids[i];
      assert c in t.order && IsChild(p, c);
      var here := EntryLines(t, p, c, prefix, isLast, i == |kids| - 1);
      EntryUnder(t, p, c, prefix, isLast, i == |kids| - 1);
      UnderNotUnder(here, p, c, x);
      EntriesAvoid(t, p, kids, i + 1, prefix, isLast, x);
      NotUnderConcat(here, Entries(t, p, kids, i + 1, prefix, isLast), p, x);
    }
  }

  /** Each node is drawn by at most one line of a walk. */
  lemma {:induction false} LinesDistinct(t: Tree, p: Path, prefix: string, isLast: bool)
    requires Valid(t) && |p| <= Depth(t.order)
    ensures DistinctNodes(Lines(t, p, prefix, isLast))
    decreases Depth(t.order) - |p|, 1, 0
  {
    ChildrenNoDup(t, p);
    EntriesDistinct(t, p, Children(t, p), 0, prefix, isLast);
  }

  lemma {:induction false} EntriesDistinct(t: Tree, p: Path, kids: seq<Path>, i: nat, prefix: string, isLast: bool)
    requires Valid(t) && |p| <= Depth(t.order)
    requires AllChildren(t, p, kids) && NoDup(kids) && i <= |kids|
    ensures DistinctNodes(Entries(t, p, kids, i, prefix, isLast))
    decreases Depth(t.order) - |p|, 0, |kids| - i
  {
    if i < |kids| {
      var c := kids[i];
      assert c in t.order && IsChild(p, c);
      var here := EntryLines(t, p, c, prefix, isLast, i == |kids| - 1);
      var rest := Entries(t, p, kids, i + 1, prefix, isLast);
      EntryUnder(t, p, c, prefix, isLast, i == |kids| - 1);
      EntryDistinct(t, p, c, prefix, isLast, i == |kids| - 1);
      EntriesDistinct(t, p, kids, i + 1, prefix, isLast);
      EntriesAvoid(t, p, kids, i + 1, prefix, isLast, c);
      UnderDistinct(here, rest, p, c);
    }
  }

  /** Lines of the subtree of `c` followed by lines that avoid it show distinct nodes. */
  lemma UnderDistinct(here: seq<Line>, rest: seq<Line>, p: Path, c: Path)
    requires UnderAll(here, p, c) && NotUnder(rest, p, c)
    requires DistinctNodes(here) && DistinctNodes(rest)
    ensures DistinctNodes(here + rest)
  {
    UnderDisjoint(here, rest, p, c);
    DistinctConcat(here, rest, []);
    assert here + rest + [] == here + rest;
  }

  // ------------------------------------------------------ the whole tree

  /**
   * The walk from the top level of the tree of `files` draws every path
   * prefix exactly once and nothing else; each line carries the node's own
   * segment, a `/` exactly on directories that have entries, and the
   * connector of its parent's call: `└── ` on the top level, and below it
   * `└── ` exactly when the parent is the last entry of its own level.
   */
  lemma TreeWalk(files: seq<string>)
    ensures var t := Build(files);
            var ls := Lines(t, [], "", true);
            && DistinctNodes(ls)
            && (forall n :: IsNodeOf(files, n) ==> exists l :: l in ls && l.node == n)
            && (forall j :: 0 <= j < |ls| ==> IsNodeOf(files, ls[j].node) && LineMeaning(files, ls[j]))
  {
    var t := Build(files);
    var ls := Lines(t, [], "", true);
    BuildValid(files);
    BuildNodes(files);
    LinesDistinct(t, [], "", true);
    LinesShape(t, [], "", true);
    forall n | IsNodeOf(files, n)
      ensures exists l :: l in ls && l.node == n
    {
      LinesComplete(t, [], "", true, n);
    }
    forall j | 0 <= j < |ls|
      ensures IsNodeOf(files, ls[j].node) && LineMeaning(files, ls[j])
    {
      assert LineAt(t, [], "", true, ls[j]);
    }
  }

  /** One line of the walk from the top level, in terms of the selected paths. */
  ghost predicate LineMeaning(files: seq<string>, l: Line)
  {
    var t := Build(files);
    var n := l.node;
    && |n| >= 1
    && l.name == Name(n)
    && l.slash == (!IsFileOf(files, n) && HasChildren(t, n))
    && l.connector == (if |n| == 1 then "└── " else Connector(IsLastChild(t, Parent(n))))
    && l.prefix == PrefixAt(t, [], "", true, Parent(n))
  }

  // ------------------------------------------------------- the procedures

  /** The two `forEach` loops that fill the nested object, one segment at a time. */
  method BuildTree(files: seq<string>) returns (t: Tree)
    ensures t == Build(files)
  {
    t := EmptyTree;
    var i := 0;
    while i < |files|
      invariant i <= |files|
      invariant t == Build(files[..i])
    {
      t := InsertSegments(t, Split(files[i], '/'));
      assert files[..i + 1][..i] == files[..i];
      i := i + 1;
    }
    assert files[..|files|] == files;
  }

  /** The inner `parts.forEach`: create each missing prefix node, and flag the whole path as a file. */
  method InsertSegments(t0: Tree, parts: seq<string>) returns (t: Tree)
    ensures t == InsertParts(t0, parts, 0)
  {
    t := t0;
    var idx := 0;
    while idx < |parts|
      invariant idx <= |parts|
      invariant InsertParts(t, parts, idx) == InsertParts(t0, parts, 0)
    {
      var n := parts[..idx + 1];
      if n !in t.isFile {
        t := Tree(t.isFile[n := false], t.order + [n]);
      }
      if idx == |parts| - 1 {
        t := Tree(t.isFile[n := true], t.order);
      }
      idx := idx + 1;
    }
  }

  /** The string each call of `buildTreeString` returns, built entry by entry as the loop appends it. */
  function LinesText(t: Tree, p: Path, prefix: string, isLast: bool): string
    requires |p| <= Depth(t.order)
    decreases Depth(t.order) - |p|, 1
  {
    EntriesText(t, p, Children(t, p), 0, prefix, isLast)
  }

  function EntriesText(t: Tree, p: Path, kids: seq<Path>, i: nat, prefix: string, isLast: bool): string
    requires |p| <= Depth(t.order)
    requires AllChildren(t, p, kids)
    requires i <= |kids|
    decreases Depth(t.order) - |p|, 0, |kids| - i
  {
    if i == |kids| then ""
    else
      assert kids[i] in t.order && IsChild(p, kids[i]);
      EntryText(t, p, kids[i], prefix, isLast, i == |kids| - 1) + EntriesText(t, p, kids, i + 1, prefix, isLast)
  }

  function EntryText(t: Tree, p: Path, c: Path, prefix: string, isLast: bool, last: bool): string
    requires |p| <= Depth(t.order)
    requires c in t.order && IsChild(p, c)
    decreases Depth(t.order) - |p|, 0, 0
  {
    LineText(Line(c, prefix, Connector(isLast), Name(c), !IsFileNode(t, c) && HasChildren(t, c)))
      + (if HasChildren(t, c) then LinesText(t, c, prefix + Indent(isLast), last) else "")
  }

  /** The string built by the loops is the rendering of the walk's lines. */
  lemma {:induction false} LinesTextRender(t: Tree, p: Path, prefix: string, isLast: bool)
    requires |p| <= Depth(t.order)
    ensures LinesText(t, p, prefix, isLast) == Render(Lines(t, p, prefix, isLast))
    decreases Depth(t.order) - |p|, 1, 0
  {
    EntriesTextRender(t, p, Children(t, p), 0, prefix, isLast);
  }

  lemma {:induction false} EntriesTextRender(t: Tree, p: Path, kids: seq<Path>, i: nat, prefix: string, isLast: bool)
    requires |p| <= Depth(t.order)
    requires AllChildren(t, p, kids)
    requires i <= |kids|
    ensures EntriesText(t, p, kids, i, prefix, isLast) == Render(Entries(t, p, kids, i, prefix, isLast))
    decreases Depth(t.order) - |p|, 0, |kids| - i
  {
    if i < |kids| {
      var c := kids[i];
      assert c in t.order && IsChild(p, c);
      EntryTextRender(t, p, c, prefix, isLast, i == |kids| - 1);
      EntriesTextRender(t, p, kids, i + 1, prefix, isLast);
      RenderAppend(EntryLines(t, p, c, prefix, isLast, i == |kids| - 1), Entries(t, p, kids, i + 1, prefix, isLast));
    }
  }

  lemma {:induction false} EntryTextRender(t: Tree, p: Path, c: Path, prefix: string, isLast: bool, last: bool)
    requires |p| <= Depth(t.order)
    requires c in t.order && IsChild(p, c)
    ensures EntryText(t, p, c, prefix, isLast, last) == Render(EntryLines(t, p, c, prefix, isLast, last))
    decreases Depth(t.order) - |p|, 0, 0
  {
    var head := Line(c, prefix, Connector(isLast), Name(c), !IsFileNode(t, c) && HasChildren(t, c));
    assert Render([head]) == LineText(head) by {
      assert [head][1..] == [];
    }
    if HasChildren(t, c) {
      var sub := Lines(t, c, prefix + Indent(isLast), last);
      LinesTextRender(t, c, prefix + Indent(isLast), last);
      RenderAppend([head], sub);
    } else {
      assert [head] + [] == [head];
      assert LineText(head) + "" == LineText(head);
    }
  }

  /** `buildTreeString(children of p, prefix, isLast)`: the string of the walk's lines. */
  method BuildTreeString(t: Tree, p: Path, prefix: string, isLast: bool) returns (result: string)
    requires |p| <= Depth(t.order)
    ensures result == LinesText(t, p, prefix, isLast)
    ensures result == Render(Lines(t, p, prefix, isLast))
    decreases Depth(t.order) - |p|, 2
  {
    var entries := Children(t, p);
    result := RenderEntries(t, p, entries, prefix, isLast);
    LinesTextRender(t, p, prefix, isLast);
  }

  /** The `entries.forEach` loop, appending each entry's string to `result`. */
  method RenderEntries(t: Tree, p: Path, entries: seq<Path>, prefix: string, isLast: bool) returns (result: string)
    requires |p| <= Depth(t.order)
    requires AllChildren(t, p, entries)
    ensures result == EntriesText(t, p, entries, 0, prefix, isLast)
    decreases Depth(t.order) - |p|, 1
  {
    result := "";
    var index: nat := 0;
    while index < |entries|
      invariant index <= |entries|
      invariant result + EntriesText(t, p, entries, index, prefix, isLast) == EntriesText(t, p, entries, 0, prefix, isLast)
    {
      assert entries[index] in t.order && IsChild(p, entries[index]);
      var piece := EntryString(t, p, entries[index], prefix, isLast, index == |entries| - 1);
      ghost var rest := EntriesText(t, p, entries, index + 1, prefix, isLast);
      AppendAssoc(result, piece, rest);
      result := result + piece;
      index := index + 1;
      assert rest == EntriesText(t, p, entries, index, prefix, isLast);
    }
    assert result + "" == result;
  }

  /** The body of the `forEach` for one entry: its line, then the string of its subtree. */
  method EntryString(t: Tree, p: Path, c: Path, prefix: string, isLast: bool, isLastEntry: bool) returns (piece: string)
    requires |p| <= Depth(t.order)
    requires c in t.order && IsChild(p, c)
    ensures piece == EntryText(t, p, c, prefix, isLast, isLastEntry)
    decreases Depth(t.order) - |p|, 0
  {
    var hasChildren := HasChildren(t, c);
    var isFile := IsFileNode(t, c);
    piece := WriteLine(c, prefix, isLast, !isFile && hasChildren);
    if hasChildren {
      var sub := BuildTreeString(t, c, prefix + Indent(isLast), isLastEntry);
      piece := piece + sub;
    } else {
      assert piece + "" == piece;
    }
  }

  /** `result += prefix + connector + name; if (!isFile && hasChildren) result += '/'; result += '\n'`. */
  method WriteLine(node: Path, prefix: string, isLast: bool, slash: bool) returns (s: string)
    requires |node| >= 1
    ensures s == LineText(Line(node, prefix, Connector(isLast), Name(node), slash))
  {
    s := prefix + (if isLast then "└── " else "├── ") + Name(node);
    if slash {
      s := s + "/";
    } else {
      assert s + "" == s;
    }
    s := s + "\n";
  }

  /** The whole tree string: the root line, then the placeholder or the walk from the top level. */
  function TreeText(files: seq<string>, rootName: string): string
  {
    rootName + "/\n" + (if |files| == 0 then "└── (无选中文件)\n" else Render(Lines(Build(files), [], "", true)))
  }

  method GenerateDirectoryTree(files: seq<string>, rootName: string) returns (treeString: string)
    ensures treeString == TreeText(files, rootName)
  {
    var t := BuildTree(files);
    treeString := rootName + "/\n";
    if |files| == 0 {
      treeString := treeString + "└── (无选中文件)\n";
    } else {
      var body := BuildTreeString(t, [], "", true);
      treeString := treeString + body;
    }
  }

  /** The root label of the mobile page: `projectName || '项目'`. */
  function MobileRootName(projectName: string): (r: string)
    ensures projectName != "" ==> r == projectName
    ensures projectName == "" ==> r == "项目"
  {
    if projectName == "" then "项目" else projectName
  }
}
