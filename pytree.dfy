/**
 * The directory tree of the desktop tool (`GenerateThread._build_tree` and
 * its inner `_render` in `repo2md_gui/repo2md_gui.py`).
 *
 * The source nests dictionaries: a directory is a `dict` from names to
 * entries and a file is `None`. As in `DirTree`, the nesting is flattened:
 * a node is its sequence of segments, `isDir` says whether the value at
 * that node is a dictionary, and `order` lists the nodes in the order their
 * keys were first inserted, which is the order `dict.items()` yields them.
 */
module PyTree {
  import opened Wrappers
  import opened Text
  import opened Sorting
  import opened DirTree

  datatype Dict = Dict(isDir: map<Path, bool>, order: seq<Path>)

  const EmptyDict := Dict(map[], [])

  /** `m` lies strictly below `n`. */
  predicate Under(n: Path, m: Path)
  {
    |m| > |n| && m[..|n|] == n
  }

  /** Well-formed dictionaries: `order` lists the nodes once each, and every node below the top level sits in a dictionary. */
  ghost predicate Valid(d: Dict)
  {
    && (forall n :: n in d.isDir <==> n in d.order)
    && NoDup(d.order)
    && (forall n :: n in d.isDir ==> |n| >= 1)
    && (forall n :: n in d.isDir && |n| >= 2 ==> Parent(n) in d.isDir && d.isDir[Parent(n)])
  }

  // ------------------------------------------------------------ insertion

  /**
   * `node = node.setdefault(part, {})` for the node `n`: a missing key gets
   * an empty dictionary. When the key holds `None` (a file inserted
   * earlier) the walk fails: the next step calls `setdefault` or assigns an
   * item on `None`, which raises. `None` stands for that exception.
   */
  function SetDefault(d: Dict, n: Path): (r: Option<Dict>)
    ensures r.None? <==> n in d.isDir && !d.isDir[n]
    ensures r.Some? ==> n in r.value.isDir && r.value.isDir[n]
    ensures r.Some? ==> forall m :: m != n ==> (m in r.value.isDir <==> m in d.isDir)
    ensures r.Some? ==> forall m :: m != n && m in d.isDir ==> r.value.isDir[m] == d.isDir[m]
  {
    if n in d.isDir then (if d.isDir[n] then Some(d) else None)
    else Some(Dict(d.isDir[n := true], d.order + [n]))
  }

  /** The nodes of `order` that do not lie below `n`, in their order. */
  function Prune(order: seq<Path>, n: Path): (r: seq<Path>)
    ensures forall m :: m in r <==> m in order && !Under(n, m)
  {
    if |order| == 0 then []
    else (if Under(n, order[0]) then [] else [order[0]]) + Prune(order[1..], n)
  }

  lemma {:induction false} PruneNoDup(order: seq<Path>, n: Path)
    requires NoDup(order)
    ensures NoDup(Prune(order, n))
  {
    if |order| > 0 {
      assert NoDup(order[1..]) by {
        forall i, j | 0 <= i < j < |order[1..]|
          ensures order[1..][i] != order[1..][j]
        {
          assert order[1..][i] == order[i + 1] && order[1..][j] == order[j + 1];
        }
      }
      PruneNoDup(order[1..], n);
      var rest := Prune(order[1..], n);
      if !Under(n, order[0]) {
        var r := [order[0]] + rest;
        forall i, j | 0 <= i < j < |r|
          ensures r[i] != r[j]
        {
          if i > 0 {
            assert r[i] == rest[i - 1] && r[j] == rest[j - 1];
          } else {
            assert r[j] in order[1..];
            var k :| 0 <= k < |order[1..]| && order[1..][k] == r[j];
            assert order[k + 1] == r[j];
          }
        }
      } else {
        assert Prune(order, n) == rest;
      }
    }
  }

  /**
   * `node[parts[-1]] = None` for the node `n`: a new key is appended; an
   * existing key keeps its place and now holds `None`, so a dictionary that
   * was there is dropped with everything below it.
   */
  function Assign(d: Dict, n: Path): (r: Dict)
    ensures n in r.isDir && !r.isDir[n]
    ensures n in d.isDir ==> forall m :: m != n ==> (m in r.isDir <==> m in d.isDir && !Under(n, m))
    ensures n !in d.isDir ==> forall m :: m != n ==> (m in r.isDir <==> m in d.isDir)
    ensures forall m :: m != n && m in r.isDir ==> r.isDir[m] == d.isDir[m]
  {
    if n in d.isDir then
      Dict((map m | m in d.isDir && !Under(n, m) :: d.isDir[m])[n := false], Prune(d.order, n))
    else Dict(d.isDir[n := false], d.order + [n])
  }

  /** The loop over `parts[:-1]` from the segment that ends at `k`, then the assignment of the last segment. */
  function InsertPath(d: Dict, parts: seq<string>, k: nat): Option<Dict>
    requires 1 <= k <= |parts|
    decreases |parts| - k
  {
    if k == |parts| then Some(Assign(d, parts))
    else
      match SetDefault(d, parts[..k])
      case None => None
      case Some(d1) => InsertPath(d1, parts, k + 1)
  }

  /** The `for p in paths` loop: `None` when some insertion raises. */
  function Build(paths: seq<string>): Option<Dict>
  {
    if |paths| == 0 then Some(EmptyDict)
    else
      match Build(paths[..|paths| - 1])
      case None => None
      case Some(d) => InsertPath(d, Split(paths[|paths| - 1], '/'), 1)
  }

  /** The insertion raises exactly when a directory segment of the path names a file inserted earlier. */
  lemma {:induction false} InsertPathFails(d: Dict, parts: seq<string>, k: nat)
    requires 1 <= k <= |parts|
    ensures InsertPath(d, parts, k).None? <==>
              exists j :: k <= j < |parts| && parts[..j] in d.isDir && !d.isDir[parts[..j]]
    decreases |parts| - k
  {
    if k < |parts| {
      var n := parts[..k];
      var e := SetDefault(d, n);
      if e.Some? {
        InsertPathFails(e.value, parts, k + 1);
        forall j | k < j < |parts|
          ensures (parts[..j] in e.value.isDir && !e.value.isDir[parts[..j]]) <==>
                  (parts[..j] in d.isDir && !d.isDir[parts[..j]])
        {
          assert |parts[..j]| != |n|;
        }
      }
    }
  }

  /** Every node below a node of a well-formed dictionary has that node as an ancestor in it. */
  lemma {:induction false} AncestorPresent(d: Dict, n: Path, m: Path)
    requires Valid(d) && |n| >= 1 && m in d.isDir && Under(n, m)
    ensures n in d.isDir
    decreases |m|
  {
    var q := Parent(m);
    assert q[..|n|] == m[..|n|];
    if |q| == |n| {
      assert q == n;
    } else {
      AncestorPresent(d, n, q);
    }
  }

  /** A later file replaces a directory of the same path, and everything below it disappears. */
  lemma {:induction false} FileReplacesDirectory(d: Dict, parts: seq<string>, k: nat)
    requires Valid(d) && 1 <= k <= |parts|
    requires forall j :: 1 <= j < k ==> parts[..j] in d.isDir && d.isDir[parts[..j]]
    requires InsertPath(d, parts, k).Some?
    ensures var r := InsertPath(d, parts, k).value;
            && parts in r.isDir && !r.isDir[parts]
            && (forall m :: Under(parts, m) ==> m !in r.isDir)
    decreases |parts| - k
  {
    if k == |parts| {
      forall m | Under(parts, m) && m in d.isDir && parts !in d.isDir
        ensures false
      {
        AncestorPresent(d, parts, m);
      }
    } else {
      var d1 := SetDefault(d, parts[..k]).value;
      SetDefaultStep(d, parts, k);
      FileReplacesDirectory(d1, parts, k + 1);
    }
  }

  /** One `setdefault` step of the walk keeps the dictionary well formed and the walked prefixes dictionaries. */
  lemma SetDefaultStep(d: Dict, parts: seq<string>, k: nat)
    requires Valid(d) && 1 <= k < |parts|
    requires forall j :: 1 <= j < k ==> parts[..j] in d.isDir && d.isDir[parts[..j]]
    requires InsertPath(d, parts, k).Some?
    ensures SetDefault(d, parts[..k]).Some?
    ensures Valid(SetDefault(d, parts[..k]).value)
    ensures InsertPath(d, parts, k) == InsertPath(SetDefault(d, parts[..k]).value, parts, k + 1)
    ensures forall j :: 1 <= j < k + 1 ==>
              parts[..j] in SetDefault(d, parts[..k]).value.isDir && SetDefault(d, parts[..k]).value.isDir[parts[..j]]
  {
    var n := parts[..k];
    var d1 := SetDefault(d, n).value;
    if |n| >= 2 {
      assert Parent(n) == parts[..k - 1];
    }
    SetDefaultValid(d, n);
    forall j | 1 <= j < k + 1
      ensures parts[..j] in d1.isDir && d1.isDir[parts[..j]]
    {
      if j < k {
        assert |parts[..j]| != |n|;
      }
    }
  }

  /** Creating a dictionary below a dictionary keeps the whole well formed. */
  lemma SetDefaultValid(d: Dict, n: Path)
    requires Valid(d) && |n| >= 1
    requires |n| >= 2 ==> Parent(n) in d.isDir && d.isDir[Parent(n)]
    requires SetDefault(d, n).Some?
    ensures Valid(SetDefault(d, n).value)
  {
    var d1 := SetDefault(d, n).value;
    if n !in d.isDir {
      assert d1.order == d.order + [n];
      assert NoDup(d1.order) by {
        forall i, j | 0 <= i < j < |d1.order|
          ensures d1.order[i] != d1.order[j]
        {
          if j == |d.order| {
            assert d1.order[i] == d.order[i];
          } else {
            assert d1.order[i] == d.order[i] && d1.order[j] == d.order[j];
          }
        }
      }
    }
  }

  /** Inserting keeps the dictionary well formed. */
  lemma {:induction false} InsertPathValid(d: Dict, parts: seq<string>, k: nat)
    requires Valid(d) && 1 <= k <= |parts|
    requires forall j :: 1 <= j < k ==> parts[..j] in d.isDir && d.isDir[parts[..j]]
    requires InsertPath(d, parts, k).Some?
    ensures Valid(InsertPath(d, parts, k).value)
    decreases |parts| - k
  {
    if k == |parts| {
      AssignValid(d, parts);
    } else {
      var d1 := SetDefault(d, parts[..k]).value;
      SetDefaultStep(d, parts, k);
      InsertPathValid(d1, parts, k + 1);
    }
  }

  lemma AssignValid(d: Dict, n: Path)
    requires Valid(d) && |n| >= 1
    requires |n| >= 2 ==> Parent(n) in d.isDir && d.isDir[Parent(n)]
    ensures Valid(Assign(d, n))
  {
    if n in d.isDir {
      ReplaceValid(d, n);
    } else {
      var r := Assign(d, n);
      assert NoDup(r.order) by {
        forall i, j | 0 <= i < j < |r.order|
          ensures r.order[i] != r.order[j]
        {
          if j == |d.order| {
            assert r.order[i] == d.order[i];
          } else {
            assert r.order[i] == d.order[i] && r.order[j] == d.order[j];
          }
        }
      }
    }
  }

  /** Replacing an existing entry by `None` keeps the dictionary well formed. */
  lemma ReplaceValid(d: Dict, n: Path)
    requires Valid(d) && |n| >= 1 && n in d.isDir
    ensures Valid(Assign(d, n))
  {
    var r := Assign(d, n);
    PruneNoDup(d.order, n);
    forall m | m in r.isDir && |m| >= 2
      ensures Parent(m) in r.isDir && r.isDir[Parent(m)]
    {
      if m != n {
        assert !Under(n, m);
        assert Parent(m) in d.isDir && d.isDir[Parent(m)];
        assert |Parent(m)| >= |n| ==> Parent(m)[..|n|] == m[..|n|];
      }
    }
  }

  lemma {:induction false} BuildValid(paths: seq<string>)
    requires Build(paths).Some?
    ensures Valid(Build(paths).value)
  {
    if |paths| > 0 {
      var init := paths[..|paths| - 1];
      BuildValid(init);
      InsertPathValid(Build(init).value, Split(paths[|paths| - 1], '/'), 1);
    }
  }

  /** Once an insertion raises, so does the whole loop. */
  lemma {:induction false} BuildFailsLater(paths: seq<string>, i: nat)
    requires i <= |paths| && Build(paths[..i]).None?
    ensures Build(paths).None?
    decreases |paths| - i
  {
    if i < |paths| {
      assert paths[..i + 1][..i] == paths[..i];
      BuildFailsLater(paths, i + 1);
    } else {
      assert paths[..i] == paths;
    }
  }

  /** The two loops of `_build_tree`; `None` when the insertion raises. */
  method BuildTreeDict(paths: seq<string>) returns (r: Option<Dict>)
    ensures r == Build(paths)
  {
    var d := EmptyDict;
    var i: nat := 0;
    while i < |paths|
      invariant i <= |paths|
      invariant Build(paths[..i]) == Some(d)
    {
      var parts := Split(paths[i], '/');
      assert paths[..i + 1][..i] == paths[..i];
      ghost var target := InsertPath(d, parts, 1);
      var k: nat := 1;
      while k < |parts|
        invariant 1 <= k <= |parts|
        invariant InsertPath(d, parts, k) == target
      {
        var e := SetDefault(d, parts[..k]);
        if e.None? {
          BuildFailsLater(paths, i + 1);
          return None;
        }
        d := e.value;
        k := k + 1;
      }
      d := Assign(d, parts);
      i := i + 1;
    }
    assert paths[..i] == paths;
    r := Some(d);
  }

  // ------------------------------------------------------- item order

  /** `isinstance(child, dict)`. */
  predicate IsDirNode(d: Dict, c: Path)
  {
    c in d.isDir && d.isDir[c]
  }

  /** The sort key `(0 if isinstance(x[1], dict) else 1, x[0].lower())`. */
  function ItemKey(d: Dict, c: Path): seq<int>
  {
    [if IsDirNode(d, c) then 0 else 1] + (if |c| == 0 then [] else Codes(Lower(Name(c))))
  }

  function ItemKeyOf(d: Dict): Path -> seq<int>
  {
    c => ItemKey(d, c)
  }

  /** Every element of `items` is a node and a child of `p`. */
  predicate AllItems(d: Dict, p: Path, items: seq<Path>)
  {
    forall k :: 0 <= k < |items| ==> items[k] in d.order && IsChild(p, items[k])
  }

  /** `items = list(subtree.items()); items.sort(key=...)` for the dictionary at `p`. */
  function Items(d: Dict, p: Path): (r: seq<Path>)
    ensures forall c :: c in r <==> c in d.order && IsChild(p, c)
    ensures AllItems(d, p, r)
  {
    var kids := Kids(d.order, p);
    SortMembers(kids, ItemKeyOf(d));
    Sort(kids, ItemKeyOf(d))
  }

  lemma ItemsNoDup(d: Dict, p: Path)
    requires Valid(d)
    ensures NoDup(Items(d, p))
  {
    KidsNoDup(d.order, p);
    SortNoDup(Kids(d.order, p), ItemKeyOf(d));
  }

  /** Item order: dictionaries before files, and items of one kind in lower-cased name order. */
  lemma ItemOrder(d: Dict, p: Path, i: nat, j: nat)
    requires i < j < |Items(d, p)|
    ensures var s := Items(d, p);
            (IsDirNode(d, s[j]) ==> IsDirNode(d, s[i])) &&
            (IsDirNode(d, s[i]) == IsDirNode(d, s[j]) ==> !Less(Codes(Lower(Name(s[j]))), Codes(Lower(Name(s[i])))))
  {
    var s := Items(d, p);
    SortSorted(Kids(d.order, p), ItemKeyOf(d));
    var a, b := s[i], s[j];
    assert !Less(ItemKeyOf(d)(b), ItemKeyOf(d)(a));
    assert IsChild(p, a) && IsChild(p, b);
    var ka := Codes(Lower(Name(a)));
    var kb := Codes(Lower(Name(b)));
    assert ItemKeyOf(d)(a) == ItemKey(d, a) == [if IsDirNode(d, a) then 0 else 1] + ka;
    assert ItemKeyOf(d)(b) == ItemKey(d, b) == [if IsDirNode(d, b) then 0 else 1] + kb;
    assert ([if IsDirNode(d, b) then 0 else 1] + kb)[1..] == kb;
    assert ([if IsDirNode(d, a) then 0 else 1] + ka)[1..] == ka;
  }

  // ------------------------------------------------------------ rendering

  /** `_render(subtree, prefix)` for the dictionary at `p`, as lines; its `is_last` argument is never read. */
  function RenderLines(d: Dict, p: Path, prefix: string): seq<Line>
    requires |p| <= Depth(d.order)
    decreases Depth(d.order) - |p|, 1
  {
    ItemsLines(d, p, Items(d, p), 0, prefix)
  }

  /** The `for i, (name, child) in enumerate(items)` loop from item `i` on. */
  function ItemsLines(d: Dict, p: Path, items: seq<Path>, i: nat, prefix: string): seq<Line>
    requires |p| <= Depth(d.order)
    requires AllItems(d, p, items)
    requires i <= |items|
    decreases Depth(d.order) - |p|, 0, |items| - i
  {
    if i == |items| then []
    else
      assert items[i] in d.order && IsChild(p, items[i]);
      ItemLines(d, p, items[i], prefix, i == |items| - 1) + ItemsLines(d, p, items, i + 1, prefix)
  }

  /** One item: its line drawn with its own `last`, then, for a dictionary, its items one indent deeper. */
  function ItemLines(d: Dict, p: Path, c: Path, prefix: string, last: bool): seq<Line>
    requires |p| <= Depth(d.order)
    requires c in d.order && IsChild(p, c)
    decreases Depth(d.order) - |p|, 0, 0
  {
    [Line(c, prefix, Connector(last), Name(c), IsDirNode(d, c))]
      + (if IsDirNode(d, c) then RenderLines(d, c, prefix + Indent(last)) else [])
  }

  // ------------------------------------------------------ the connector rule

  /** `q` is the last item of its dictionary. */
  predicate IsLastItem(d: Dict, q: Path)
    requires |q| >= 1
  {
    var s := Items(d, Parent(q));
    |s| > 0 && s[|s| - 1] == q
  }

  /** The `prefix` of the call that renders the dictionary at `q`: one indent per ancestor, chosen by that ancestor's own position. */
  function PrefixAt(d: Dict, p: Path, prefix: string, q: Path): string
    requires |q| >= |p|
    decreases |q|
  {
    if |q| == |p| then prefix
    else PrefixAt(d, p, prefix, Parent(q)) + Indent(IsLastItem(d, q))
  }

  /** What the line of a node looks like in a rendering of the dictionary at `p`. */
  ghost predicate ItemAt(d: Dict, p: Path, prefix: string, l: Line)
  {
    var n := l.node;
    && |n| > |p| && n[..|p|] == p && n in d.isDir
    && l.name == Name(n)
    && l.connector == Connector(IsLastItem(d, n))
    && l.prefix == PrefixAt(d, p, prefix, Parent(n))
    && l.slash == IsDirNode(d, n)
  }

  ghost predicate AllItemAt(d: Dict, p: Path, prefix: string, ls: seq<Line>)
  {
    forall j :: 0 <= j < |ls| ==> ItemAt(d, p, prefix, ls[j])
  }

  lemma AllItemAtConcat(d: Dict, p: Path, prefix: string, a: seq<Line>, b: seq<Line>, c: seq<Line>)
    requires AllItemAt(d, p, prefix, a) && AllItemAt(d, p, prefix, b) && AllItemAt(d, p, prefix, c)
    ensures AllItemAt(d, p, prefix, a + b + c)
  {
    var s := a + b + c;
    forall j | 0 <= j < |s|
      ensures ItemAt(d, p, prefix, s[j])
    {
      if j < |a| {
        assert s[j] == a[j];
      } else if j < |a| + |b| {
        assert s[j] == b[j - |a|];
      } else {
        assert s[j] == c[j - |a| - |b|];
      }
    }
  }

  /** Seen from the parent's call, the prefixes of the call for item `c` are the parent's. */
  lemma {:induction false} PrefixRebase(d: Dict, p: Path, prefix: string, c: Path, q: Path)
    requires IsChild(p, c) && |q| >= |c| && q[..|c|] == c
    ensures PrefixAt(d, c, prefix + Indent(IsLastItem(d, c)), q) == PrefixAt(d, p, prefix, q)
    decreases |q|
  {
    if |q| == |c| {
      assert q == c;
      assert Parent(q) == p;
    } else {
      var r := Parent(q);
      assert r[..|c|] == c;
      PrefixRebase(d, p, prefix, c, r);
    }
  }

  /** The item at position `i` is the last of its dictionary exactly when it is the last item. */
  lemma ItemLast(d: Dict, p: Path, i: nat)
    requires Valid(d) && i < |Items(d, p)|
    ensures IsChild(p, Items(d, p)[i])
    ensures IsLastItem(d, Items(d, p)[i]) == (i == |Items(d, p)| - 1)
  {
    ItemOf(d, p, i);
    ItemsNoDup(d, p);
    LastIndex(Items(d, p), i);
  }

  /** The item at position `i` is a child of `p`. */
  lemma ItemOf(d: Dict, p: Path, i: nat)
    requires i < |Items(d, p)|
    ensures IsChild(p, Items(d, p)[i]) && Parent(Items(d, p)[i]) == p
  {
    assert Items(d, p)[i] in Items(d, p);
  }

  /** Every line of a rendering shows a node below `p`, with its own connector, the indentation its ancestors choose, and a slash exactly on dictionaries. */
  lemma {:induction false} RenderShape(d: Dict, p: Path, prefix: string)
    requires Valid(d) && |p| <= Depth(d.order)
    ensures AllItemAt(d, p, prefix, RenderLines(d, p, prefix))
    decreases Depth(d.order) - |p|, 1, 0, 0
  {
    ItemsShape(d, p, 0, prefix);
  }

  lemma {:induction false} ItemsShape(d: Dict, p: Path, i: nat, prefix: string)
    requires Valid(d) && |p| <= Depth(d.order)
    requires i <= |Items(d, p)|
    ensures AllItemAt(d, p, prefix, ItemsLines(d, p, Items(d, p), i, prefix))
    decreases Depth(d.order) - |p|, 0, |Items(d, p)| - i, 1
  {
    if i < |Items(d, p)| {
      ItemShape(d, p, i, prefix);
    }
  }

  /** One item: its own line, then its dictionary's lines, then the later items. */
  lemma {:induction false} ItemShape(d: Dict, p: Path, i: nat, prefix: string)
    requires Valid(d) && |p| <= Depth(d.order)
    requires i < |Items(d, p)|
    ensures AllItemAt(d, p, prefix, ItemsLines(d, p, Items(d, p), i, prefix))
    decreases Depth(d.order) - |p|, 0, |Items(d, p)| - i, 0
  {
    var items := Items(d, p);
    var c := items[i];
    var last := i == |items| - 1;
    var head := HeadItem(d, p, i, prefix);
    var sub := if IsDirNode(d, c) then RenderLines(d, c, prefix + Indent(last)) else [];
    if IsDirNode(d, c) {
      SubShape(d, p, i, prefix);
    }
    ItemsShape(d, p, i + 1, prefix);
    ItemsUnfold(d, p, items, i, prefix);
    AllItemAtConcat(d, p, prefix, [head], sub, ItemsLines(d, p, items, i + 1, prefix));
  }

  lemma ItemsUnfold(d: Dict, p: Path, items: seq<Path>, i: nat, prefix: string)
    requires |p| <= Depth(d.order)
    requires AllItems(d, p, items)
    requires i < |items|
    ensures var c := items[i];
            var last := i == |items| - 1;
            ItemsLines(d, p, items, i, prefix) ==
              [Line(c, prefix, Connector(last), Name(c), IsDirNode(d, c))]
              + (if IsDirNode(d, c) then RenderLines(d, c, prefix + Indent(last)) else [])
              + ItemsLines(d, p, items, i + 1, prefix)
  {
  }

  /** The line an item draws for itself. */
  lemma HeadItem(d: Dict, p: Path, i: nat, prefix: string) returns (head: Line)
    requires Valid(d) && i < |Items(d, p)|
    ensures var c := Items(d, p)[i];
            head == Line(c, prefix, Connector(i == |Items(d, p)| - 1), Name(c), IsDirNode(d, c))
    ensures AllItemAt(d, p, prefix, [head])
  {
    var items := Items(d, p);
    var c := items[i];
    assert c in d.order && IsChild(p, c);
    ItemLast(d, p, i);
    assert Parent(c) == p;
    head := Line(c, prefix, Connector(i == |items| - 1), Name(c), IsDirNode(d, c));
    assert [head][0] == head;
  }

  /** The lines of a dictionary item, seen from its parent's rendering. */
  lemma {:induction false} SubShape(d: Dict, p: Path, i: nat, prefix: string)
    requires Valid(d) && |p| <= Depth(d.order)
    requires i < |Items(d, p)|
    requires IsDirNode(d, Items(d, p)[i])
    ensures Items(d, p)[i] in d.order && |Items(d, p)[i]| <= Depth(d.order)
    ensures AllItemAt(d, p, prefix, RenderLines(d, Items(d, p)[i], prefix + Indent(i == |Items(d, p)| - 1)))
    decreases Depth(d.order) - |p|, 0, 0, 0
  {
    var items := Items(d, p);
    var c := items[i];
    assert c in d.order && IsChild(p, c);
    ItemLast(d, p, i);
    var last := i == |items| - 1;
    RenderShape(d, c, prefix + Indent(last));
    var ls := RenderLines(d, c, prefix + Indent(last));
    forall j | 0 <= j < |ls|
      ensures ItemAt(d, p, prefix, ls[j])
    {
      var l := ls[j];
      assert ItemAt(d, c, prefix + Indent(last), l);
      var n := l.node;
      NodeBelow(p, c, n);
      PrefixRebase(d, p, prefix, c, Parent(n));
    }
  }

  // ------------------------------------------------------- the procedures

  /** `_render(subtree, prefix)`: the string of the lines of the dictionary at `p`. */
  method RenderString(d: Dict, p: Path, prefix: string) returns (result: string)
    requires |p| <= Depth(d.order)
    ensures result == Render(RenderLines(d, p, prefix))
    decreases Depth(d.order) - |p|, 2
  {
    var items := Items(d, p);
    if |items| == 0 {
      return "";
    }
    result := RenderItems(d, p, items, prefix);
  }

  /** The loop over the sorted items, appending each item's string to `result`. */
  method RenderItems(d: Dict, p: Path, items: seq<Path>, prefix: string) returns (result: string)
    requires |p| <= Depth(d.order)
    requires AllItems(d, p, items)
    ensures result == Render(ItemsLines(d, p, items, 0, prefix))
    decreases Depth(d.order) - |p|, 1
  {
    result := "";
    var i: nat := 0;
    while i < |items|
      invariant i <= |items|
      invariant result + Render(ItemsLines(d, p, items, i, prefix)) == Render(ItemsLines(d, p, items, 0, prefix))
    {
      assert items[i] in d.order && IsChild(p, items[i]);
      var piece := ItemString(d, p, items[i], prefix, i == |items| - 1);
      ghost var here := ItemLines(d, p, items[i], prefix, i == |items| - 1);
      ghost var rest := ItemsLines(d, p, items, i + 1, prefix);
      RenderAppend(here, rest);
      AppendAssoc(result, piece, Render(rest));
      result := result + piece;
      i := i + 1;
      assert rest == ItemsLines(d, p, items, i, prefix);
    }
    assert result + "" == result;
  }

  /** The body of the loop for one item: its line, then for a dictionary the string of its items. */
  method ItemString(d: Dict, p: Path, c: Path, prefix: string, last: bool) returns (piece: string)
    requires |p| <= Depth(d.order)
    requires c in d.order && IsChild(p, c)
    ensures piece == Render(ItemLines(d, p, c, prefix, last))
    decreases Depth(d.order) - |p|, 0
  {
    var isDir := IsDirNode(d, c);
    var line := prefix + (if last then "└── " else "├── ") + Name(c);
    if isDir {
      line := line + "/";
    }
    piece := line + "\n";
    ghost var head := Line(c, prefix, Connector(last), Name(c), isDir);
    assert piece == LineText(head);
    assert Render([head]) == LineText(head) by {
      assert [head][1..] == [];
    }
    if isDir {
      var sub := RenderString(d, c, prefix + (if last then "    " else "│   "));
      RenderAppend([head], RenderLines(d, c, prefix + Indent(last)));
      piece := piece + sub;
    } else {
      assert [head] + [] == [head];
    }
  }

  /** What `_build_tree(paths)` returns; `None` when building the dictionary raises. */
  function TreeText(paths: seq<string>, rootName: string): Option<string>
  {
    if |paths| == 0 then Some(rootName + "/\n└── (无选中文件)")
    else
      match Build(paths)
      case None => None
      case Some(d) => Some(rootName + "/\n" + Render(RenderLines(d, [], "")))
  }

  method BuildTree(paths: seq<string>, rootName: string) returns (r: Option<string>)
    ensures r == TreeText(paths, rootName)
  {
    if |paths| == 0 {
      return Some(rootName + "/\n└── (无选中文件)");
    }
    var built := BuildTreeDict(paths);
    if built.None? {
      return None;
    }
    var body := RenderString(built.value, [], "");
    r := Some(rootName + "/\n" + body);
  }

  /** The rendering from the top level draws each line with the item's own last flag and a slash exactly on directories. */
  lemma TreeShape(paths: seq<string>)
    requires Build(paths).Some?
    ensures var d := Build(paths).value;
            AllItemAt(d, [], "", RenderLines(d, [], ""))
  {
    BuildValid(paths);
    RenderShape(Build(paths).value, [], "");
  }
}
