/**
 * The item model of the Qt application (`repo2md_gui.py`): the
 * `QStandardItemModel` tree that `build_tree_model` fills, the check-box
 * cascade of `on_item_changed` (every checkable descendant takes the new
 * state, then each ancestor takes the tri-state of its children), the
 * collection of the checked files, and the extension filter of the proxy.
 *
 * The items live in one arena: index 0 is the model's invisible root,
 * every other item records the index of its parent (always smaller than its
 * own) and the indices of its rows in order.
 */
module QtModel {
  import opened Wrappers
  import opened Text
  import opened Sorting
  import opened Extension

  datatype CheckState = Unchecked | PartiallyChecked | Checked

  /**
   * One `QStandardItem`: its label, its parent and rows, its check box and
   * the user-role data (extension, relative path, size; all `None` on a
   * directory).
   */
  datatype Item = Item(text: string, parent: int, children: seq<nat>, checkable: bool, state: CheckState,
                       ext: Option<string>, relPath: Option<string>, size: Option<nat>)

  /** Parents come first, rows come after their parent, and each item is a row of its parent. */
  predicate WellFormed(items: seq<Item>)
  {
    && |items| >= 1
    && items[0].parent == -1
    && (forall i :: 1 <= i < |items| ==> 0 <= items[i].parent < i)
    && (forall i :: 1 <= i < |items| ==> i in items[items[i].parent].children)
    && (forall i, k :: 0 <= i < |items| && 0 <= k < |items[i].children| ==> i < items[i].children[k] < |items|)
  }

  /** The two arenas differ at most in the check states. */
  predicate SameShape(a: seq<Item>, b: seq<Item>)
  {
    |a| == |b| && forall i :: 0 <= i < |a| ==> a[i].(state := Unchecked) == b[i].(state := Unchecked)
  }

  lemma SameShapeWellFormed(a: seq<Item>, b: seq<Item>)
    requires WellFormed(a) && SameShape(a, b)
    ensures WellFormed(b)
  {
    forall i | 0 <= i < |a|
      ensures a[i].parent == b[i].parent && a[i].children == b[i].children
    {
      assert a[i].(state := Unchecked).parent == b[i].(state := Unchecked).parent;
      assert a[i].(state := Unchecked).children == b[i].(state := Unchecked).children;
    }
  }

  // ---------------------------------------------------------- descendants

  /** Every item below `p`: its rows, their rows, and so on. */
  function Under(items: seq<Item>, p: nat): (r: set<nat>)
    requires WellFormed(items) && p < |items|
    ensures forall i :: i in r ==> p < i < |items|
    decreases |items| - p, 1
  {
    UnderRows(items, p, |items[p].children|)
  }

  /** The items below the first `n` rows of `p`, those rows included. */
  function UnderRows(items: seq<Item>, p: nat, n: nat): (r: set<nat>)
    requires WellFormed(items) && p < |items| && n <= |items[p].children|
    ensures forall i :: i in r ==> p < i < |items|
    decreases |items| - p, 0, n
  {
    if n == 0 then {}
    else
      var c := items[p].children[n - 1];
      UnderRows(items, p, n - 1) + {c} + Under(items, c)
  }

  lemma {:induction false} UnderShape(a: seq<Item>, b: seq<Item>, p: nat)
    requires WellFormed(a) && SameShape(a, b) && p < |a|
    ensures WellFormed(b) && Under(a, p) == Under(b, p)
    decreases |a| - p, 1
  {
    SameShapeWellFormed(a, b);
    assert a[p].(state := Unchecked).children == b[p].(state := Unchecked).children;
    UnderRowsShape(a, b, p, |a[p].children|);
  }

  lemma {:induction false} UnderRowsShape(a: seq<Item>, b: seq<Item>, p: nat, n: nat)
    requires WellFormed(a) && SameShape(a, b) && p < |a| && n <= |a[p].children|
    requires a[p].children == b[p].children
    ensures WellFormed(b) && UnderRows(a, p, n) == UnderRows(b, p, n)
    decreases |a| - p, 0, n
  {
    SameShapeWellFormed(a, b);
    if n > 0 {
      UnderRowsShape(a, b, p, n - 1);
      UnderShape(a, b, a[p].children[n - 1]);
    }
  }

  /** The items of `s` that are checkable take state `st`; everything else stays. */
  function Stamp(items: seq<Item>, s: set<nat>, st: CheckState): (r: seq<Item>)
    ensures |r| == |items|
  {
    seq(|items|, i requires 0 <= i < |items| => if i in s && items[i].checkable then items[i].(state := st) else items[i])
  }

  /** Stamping no item changes nothing. */
  lemma StampNothing(items: seq<Item>, st: CheckState)
    ensures Stamp(items, {}, st) == items
  {
  }

  lemma StampShape(items: seq<Item>, s: set<nat>, st: CheckState)
    ensures SameShape(items, Stamp(items, s, st))
  {
  }

  lemma StampStamp(items: seq<Item>, s: set<nat>, t: set<nat>, st: CheckState)
    ensures Stamp(Stamp(items, s, st), t, st) == Stamp(items, s + t, st)
  {
  }

  lemma StampOne(items: seq<Item>, s: set<nat>, c: nat, st: CheckState)
    requires c < |items|
    ensures Stamp(items, s + {c}, st) ==
              if items[c].checkable then Stamp(items, s, st)[c := items[c].(state := st)] else Stamp(items, s, st)
  {
  }

  lemma UnderRowsStep(items: seq<Item>, p: nat, n: nat)
    requires WellFormed(items) && p < |items| && n < |items[p].children|
    ensures UnderRows(items, p, n + 1) == UnderRows(items, p, n) + {items[p].children[n]} + Under(items, items[p].children[n])
  {
  }

  /** Stamping one more row `c` is what `setCheckState` does to a checkable row. */
  lemma StampRow(items0: seq<Item>, s: set<nat>, c: nat, st: CheckState, pre: seq<Item>, post: seq<Item>)
    requires WellFormed(items0) && c < |items0|
    requires pre == Stamp(items0, s, st)
    requires post == if pre[c].checkable then pre[c := pre[c].(state := st)] else pre
    ensures post == Stamp(items0, s + {c}, st) && WellFormed(post)
  {
    StampOne(items0, s, c, st);
    StampShape(items0, s + {c}, st);
    SameShapeWellFormed(items0, post);
  }

  /** After the recursive call on row `n` of `p`, the rows up to `n` are done. */
  lemma StampBelow(items0: seq<Item>, p: nat, n: nat, st: CheckState, before: seq<Item>, after: seq<Item>)
    requires WellFormed(items0) && p < |items0| && n < |items0[p].children|
    requires before == Stamp(items0, UnderRows(items0, p, n) + {items0[p].children[n]}, st)
    requires WellFormed(before)
    requires after == Stamp(before, Under(before, items0[p].children[n]), st)
    ensures after == Stamp(items0, UnderRows(items0, p, n + 1), st)
  {
    var c := items0[p].children[n];
    StampShape(items0, UnderRows(items0, p, n) + {c}, st);
    UnderShape(items0, before, c);
    StampStamp(items0, UnderRows(items0, p, n) + {c}, Under(items0, c), st);
    UnderRowsStep(items0, p, n);
  }

  /** A row without rows of its own is done once it is stamped. */
  lemma StampLeaf(items0: seq<Item>, p: nat, n: nat, st: CheckState, items: seq<Item>)
    requires WellFormed(items0) && p < |items0| && n < |items0[p].children|
    requires items == Stamp(items0, UnderRows(items0, p, n) + {items0[p].children[n]}, st)
    requires |items[items0[p].children[n]].children| == 0
    ensures items == Stamp(items0, UnderRows(items0, p, n + 1), st)
  {
    var c := items0[p].children[n];
    assert items0[c].children == [];
    UnderRowsStep(items0, p, n);
    assert UnderRows(items0, p, n) + {c} + Under(items0, c) == UnderRows(items0, p, n) + {c};
  }

  lemma UnderAll(items: seq<Item>, p: nat)
    requires WellFormed(items) && p < |items|
    ensures Under(items, p) == UnderRows(items, p, |items[p].children|)
  {
  }

  lemma {:induction false} UnderRowsGrow(items: seq<Item>, p: nat, n: nat, n2: nat)
    requires WellFormed(items) && p < |items| && n <= n2 <= |items[p].children|
    ensures UnderRows(items, p, n) <= UnderRows(items, p, n2)
    decreases n2
  {
    if n < n2 {
      UnderRowsGrow(items, p, n, n2 - 1);
    }
  }

  /** Everything below a descendant `q` of `p` is below `p`. */
  lemma {:induction false} UnderTrans(items: seq<Item>, p: nat, q: nat)
    requires WellFormed(items) && p < |items| && q in Under(items, p)
    ensures Under(items, q) <= Under(items, p)
    decreases |items| - p, 1
  {
    UnderRowsTrans(items, p, |items[p].children|, q);
  }

  lemma {:induction false} UnderRowsTrans(items: seq<Item>, p: nat, n: nat, q: nat)
    requires WellFormed(items) && p < |items| && n <= |items[p].children| && q in UnderRows(items, p, n)
    ensures Under(items, q) <= UnderRows(items, p, n)
    decreases |items| - p, 0, n
  {
    var c := items[p].children[n - 1];
    if q in UnderRows(items, p, n - 1) {
      UnderRowsTrans(items, p, n - 1, q);
    } else if q != c {
      UnderTrans(items, c, q);
    }
  }

  /** Every item but the invisible root is below it. */
  lemma {:induction false} EveryRowBelowRoot(items: seq<Item>, i: nat)
    requires WellFormed(items) && 1 <= i < |items|
    ensures i in Under(items, 0)
    decreases i
  {
    var p := items[i].parent as nat;
    var k :| 0 <= k < |items[p].children| && items[p].children[k] == i;
    UnderRowsGrow(items, p, k + 1, |items[p].children|);
    assert i in Under(items, p);
    if p != 0 {
      EveryRowBelowRoot(items, p);
      UnderTrans(items, 0, p);
    }
  }

  // ---------------------------------------------------------- tri-state

  /** Every item but the invisible root has a check box, as `build_tree_model` makes them. */
  predicate AllCheckable(items: seq<Item>)
  {
    forall i :: 1 <= i < |items| ==> items[i].checkable
  }

  /** The states of the checkable items among `rows`, in row order. */
  function RowStates(items: seq<Item>, rows: seq<nat>): seq<CheckState>
    requires forall k :: 0 <= k < |rows| ==> rows[k] < |items|
  {
    if |rows| == 0 then []
    else
      var c := items[rows[|rows| - 1]];
      RowStates(items, rows[..|rows| - 1]) + (if c.checkable then [c.state] else [])
  }

  /** How many of `ss` are `st`. */
  function Tally(ss: seq<CheckState>, st: CheckState): nat
  {
    if |ss| == 0 then 0 else Tally(ss[..|ss| - 1], st) + (if ss[|ss| - 1] == st then 1 else 0)
  }

  /** The decision of `_update_parent_tristate` from its four counters: `None` when no row is checkable. */
  function Decide(checkedCount: nat, uncheckedCount: nat, partiallyCount: nat, total: nat): Option<CheckState>
  {
    if total == 0 then None
    else if partiallyCount > 0 || (checkedCount > 0 && uncheckedCount > 0) then Some(PartiallyChecked)
    else if checkedCount == total then Some(Checked)
    else Some(Unchecked)
  }

  /** The state a parent takes from the states of its checkable rows. */
  function TriState(ss: seq<CheckState>): Option<CheckState>
  {
    Decide(Tally(ss, Checked), Tally(ss, Unchecked), Tally(ss, PartiallyChecked), |ss|)
  }

  lemma {:induction false} TallyParts(ss: seq<CheckState>)
    ensures Tally(ss, Checked) + Tally(ss, Unchecked) + Tally(ss, PartiallyChecked) == |ss|
  {
    if |ss| > 0 {
      TallyParts(ss[..|ss| - 1]);
    }
  }

  lemma {:induction false} TallyZero(ss: seq<CheckState>, st: CheckState)
    ensures Tally(ss, st) == 0 <==> st !in ss
  {
    if |ss| > 0 {
      TallyZero(ss[..|ss| - 1], st);
      assert ss == ss[..|ss| - 1] + [ss[|ss| - 1]];
    }
  }

  lemma {:induction false} TallyAll(ss: seq<CheckState>, st: CheckState)
    ensures Tally(ss, st) == |ss| <==> forall i :: 0 <= i < |ss| ==> ss[i] == st
  {
    if |ss| > 0 {
      var init := ss[..|ss| - 1];
      TallyAll(init, st);
      TallyBound(init, st);
      assert forall i :: 0 <= i < |init| ==> init[i] == ss[i];
    }
  }

  lemma {:induction false} TallyBound(ss: seq<CheckState>, st: CheckState)
    ensures Tally(ss, st) <= |ss|
  {
    if |ss| > 0 {
      TallyBound(ss[..|ss| - 1], st);
    }
  }

  /**
   * The tri-state rule: no checkable row leaves the parent alone; all rows
   * checked gives checked, all unchecked gives unchecked, and a partial row
   * or a mixture gives partially checked.
   */
  lemma TriStateMeaning(ss: seq<CheckState>)
    ensures TriState(ss) == None <==> |ss| == 0
    ensures TriState(ss) == Some(Checked) <==> |ss| > 0 && forall i :: 0 <= i < |ss| ==> ss[i] == Checked
    ensures TriState(ss) == Some(Unchecked) <==> |ss| > 0 && forall i :: 0 <= i < |ss| ==> ss[i] == Unchecked
    ensures TriState(ss) == Some(PartiallyChecked) <==> PartiallyChecked in ss || (Checked in ss && Unchecked in ss)
  {
    TallyParts(ss);
    TallyZero(ss, Checked);
    TallyZero(ss, Unchecked);
    TallyZero(ss, PartiallyChecked);
    TallyAll(ss, Checked);
    TallyAll(ss, Unchecked);
  }

  /** The counting loop of `_update_parent_tristate` over the rows of one parent. */
  method CountRows(items: seq<Item>, rows: seq<nat>) returns (checkedCount: nat, uncheckedCount: nat, partiallyCount: nat, total: nat)
    requires forall k :: 0 <= k < |rows| ==> rows[k] < |items|
    ensures checkedCount == Tally(RowStates(items, rows), Checked)
    ensures uncheckedCount == Tally(RowStates(items, rows), Unchecked)
    ensures partiallyCount == Tally(RowStates(items, rows), PartiallyChecked)
    ensures total == |RowStates(items, rows)|
  {
    checkedCount, uncheckedCount, partiallyCount, total := 0, 0, 0, 0;
    var row := 0;
    while row < |rows|
      invariant row <= |rows|
      invariant checkedCount == Tally(RowStates(items, rows[..row]), Checked)
      invariant uncheckedCount == Tally(RowStates(items, rows[..row]), Unchecked)
      invariant partiallyCount == Tally(RowStates(items, rows[..row]), PartiallyChecked)
      invariant total == |RowStates(items, rows[..row])|
    {
      var child := items[rows[row]];
      RowStatesSnoc(items, rows, row);
      TallySnoc(RowStates(items, rows[..row]), child.checkable, child.state);
      row := row + 1;
      if !child.checkable {
        continue;
      }
      total := total + 1;
      if child.state == Checked {
        checkedCount := checkedCount + 1;
      } else if child.state == Unchecked {
        uncheckedCount := uncheckedCount + 1;
      } else {
        partiallyCount := partiallyCount + 1;
      }
    }
    assert rows[..row] == rows;
  }

  lemma RowStatesSnoc(items: seq<Item>, rows: seq<nat>, n: nat)
    requires forall k :: 0 <= k < |rows| ==> rows[k] < |items|
    requires n < |rows|
    ensures RowStates(items, rows[..n + 1]) ==
              RowStates(items, rows[..n]) + (if items[rows[n]].checkable then [items[rows[n]].state] else [])
  {
    assert rows[..n + 1][..n] == rows[..n];
  }

  lemma TallySnoc(ss: seq<CheckState>, present: bool, x: CheckState)
    ensures forall st :: Tally(ss + (if present then [x] else []), st) == Tally(ss, st) + (if present && x == st then 1 else 0)
  {
    if present {
      assert (ss + [x])[..|ss|] == ss;
    } else {
      assert ss + [] == ss;
    }
  }

  /** Setting one check state keeps the arena's shape. */
  lemma SetStateShape(items: seq<Item>, p: nat, st: CheckState)
    requires WellFormed(items) && p < |items|
    ensures SameShape(items, items[p := items[p].(state := st)]) && WellFormed(items[p := items[p].(state := st)])
  {
    SameShapeWellFormed(items, items[p := items[p].(state := st)]);
  }

  /**
   * `_update_parent_tristate(p)`: `p` takes the tri-state of its checkable
   * rows, then the walk goes on to its parent; it stops at an item without
   * rows, without a checkable row, or after the invisible root.
   */
  function RefreshUp(items: seq<Item>, p: nat): (r: seq<Item>)
    requires WellFormed(items) && p < |items|
    ensures WellFormed(r) && |r| == |items|
    decreases p
  {
    if |items[p].children| == 0 then items
    else
      match TriState(RowStates(items, items[p].children))
      case None => items
      case Some(st) =>
        var next := items[p := items[p].(state := st)];
        SetStateShape(items, p, st);
        if items[p].parent >= 0 then RefreshUp(next, items[p].parent) else next
  }

  lemma RefreshUpUnfold(items: seq<Item>, p: nat)
    requires WellFormed(items) && p < |items| && |items[p].children| > 0
    ensures TriState(RowStates(items, items[p].children)).None? ==> RefreshUp(items, p) == items
    ensures TriState(RowStates(items, items[p].children)).Some? ==>
              var next := items[p := items[p].(state := TriState(RowStates(items, items[p].children)).value)];
              WellFormed(next) &&
              RefreshUp(items, p) == if items[p].parent >= 0 then RefreshUp(next, items[p].parent) else next
  {
    if TriState(RowStates(items, items[p].children)).Some? {
      SetStateShape(items, p, TriState(RowStates(items, items[p].children)).value);
    }
  }

  /** `p`, its parent, its parent's parent, up to the invisible root. */
  function Chain(items: seq<Item>, p: nat): (r: seq<nat>)
    requires WellFormed(items) && p < |items|
    ensures |r| >= 1 && r[0] == p
    ensures forall k :: 0 <= k < |r| ==> r[k] <= p
    decreases p
  {
    [p] + (if items[p].parent >= 0 then Chain(items, items[p].parent) else [])
  }

  lemma {:induction false} ChainShape(a: seq<Item>, b: seq<Item>, p: nat)
    requires WellFormed(a) && SameShape(a, b) && p < |a|
    ensures WellFormed(b) && Chain(a, p) == Chain(b, p)
    decreases p
  {
    SameShapeWellFormed(a, b);
    assert a[p].(state := Unchecked).parent == b[p].(state := Unchecked).parent;
    if a[p].parent >= 0 {
      ChainShape(a, b, a[p].parent);
    }
  }

  /** The walk changes check states only. */
  lemma {:induction false} RefreshUpShape(items: seq<Item>, p: nat, r: seq<Item>)
    requires WellFormed(items) && p < |items| && r == RefreshUp(items, p)
    ensures SameShape(items, r)
    decreases p
  {
    if |items[p].children| > 0 && TriState(RowStates(items, items[p].children)).Some? {
      var st := TriState(RowStates(items, items[p].children)).value;
      var next := items[p := items[p].(state := st)];
      SetStateShape(items, p, st);
      if items[p].parent >= 0 {
        RefreshUpShape(next, items[p].parent, r);
        SameShapeTrans(items, next, r);
      }
    }
  }

  /** The walk changes only the items of the chain of `p`. */
  lemma {:induction false} RefreshUpFrame(items: seq<Item>, p: nat, r: seq<Item>)
    requires WellFormed(items) && p < |items| && r == RefreshUp(items, p)
    ensures forall i :: 0 <= i < |items| && i !in Chain(items, p) ==> r[i] == items[i]
    ensures forall i :: p < i < |items| ==> r[i] == items[i]
    decreases p
  {
    if |items[p].children| > 0 && TriState(RowStates(items, items[p].children)).Some? {
      var st := TriState(RowStates(items, items[p].children)).value;
      var next := items[p := items[p].(state := st)];
      SetStateShape(items, p, st);
      if items[p].parent >= 0 {
        var q := items[p].parent;
        RefreshUpFrame(next, q, r);
        ChainShape(items, next, q);
        assert Chain(items, p) == [p] + Chain(next, q);
      }
    }
  }

  lemma SameShapeTrans(a: seq<Item>, b: seq<Item>, c: seq<Item>)
    requires SameShape(a, b) && SameShape(b, c)
    ensures SameShape(a, c)
  {
  }

  /** Rows that agree in two arenas have the same states. */
  lemma {:induction false} RowStatesSame(a: seq<Item>, b: seq<Item>, rows: seq<nat>)
    requires forall k :: 0 <= k < |rows| ==> rows[k] < |a| && rows[k] < |b| && a[rows[k]] == b[rows[k]]
    ensures RowStates(a, rows) == RowStates(b, rows)
  {
    if |rows| > 0 {
      RowStatesSame(a, b, rows[..|rows| - 1]);
    }
  }

  lemma {:induction false} RowStatesAllCheckable(items: seq<Item>, rows: seq<nat>)
    requires forall k :: 0 <= k < |rows| ==> 1 <= rows[k] < |items|
    requires AllCheckable(items)
    ensures |RowStates(items, rows)| == |rows|
  {
    if |rows| > 0 {
      RowStatesAllCheckable(items, rows[..|rows| - 1]);
    }
  }

  /** `a` shows the tri-state of its checkable rows (or has none). */
  predicate Settled(items: seq<Item>, a: nat)
    requires WellFormed(items) && a < |items|
  {
    TriState(RowStates(items, items[a].children)).Some? ==> items[a].state == TriState(RowStates(items, items[a].children)).value
  }

  /**
   * After the walk from an item with rows, every item on its chain shows
   * the tri-state of its rows: the walk goes bottom-up, so each item is
   * decided after the rows below it are.
   */
  lemma {:induction false} RefreshUpSettles(items: seq<Item>, p: nat, r: seq<Item>)
    requires WellFormed(items) && AllCheckable(items) && p < |items| && |items[p].children| > 0
    requires r == RefreshUp(items, p)
    ensures WellFormed(r)
    ensures forall a :: a in Chain(items, p) ==> a < |r| && Settled(r, a)
    decreases p
  {
    RowStatesAllCheckable(items, items[p].children);
    var st := TriState(RowStates(items, items[p].children)).value;
    if items[p].parent >= 0 {
      var q := items[p].parent;
      var next := items[p := items[p].(state := st)];
      WalkStep(items, p, st, q);
      RefreshUpSettles(next, q, r);
      SettledBelowWalk(items, p, st, q);
    } else {
      SettledAtRoot(items, p, st);
    }
  }

  /** One step of the walk from `p` to its parent `q`. */
  lemma WalkStep(items: seq<Item>, p: nat, st: CheckState, q: nat)
    requires WellFormed(items) && AllCheckable(items) && p < |items| && |items[p].children| > 0
    requires TriState(RowStates(items, items[p].children)) == Some(st)
    requires q == items[p].parent && q >= 0
    ensures WellFormed(items[p := items[p].(state := st)]) && AllCheckable(items[p := items[p].(state := st)])
    ensures |items[p := items[p].(state := st)][q].children| > 0
    ensures Chain(items, p) == [p] + Chain(items[p := items[p].(state := st)], q)
    ensures RefreshUp(items, p) == RefreshUp(items[p := items[p].(state := st)], q)
  {
    var next := items[p := items[p].(state := st)];
    SetStateShape(items, p, st);
    assert p in next[q].children;
    ChainShape(items, next, q);
  }

  /** The walk ends at the invisible root, which then shows the tri-state of its rows. */
  lemma SettledAtRoot(items: seq<Item>, p: nat, st: CheckState)
    requires WellFormed(items) && p < |items| && |items[p].children| > 0
    requires TriState(RowStates(items, items[p].children)) == Some(st)
    requires items[p].parent < 0
    ensures Chain(items, p) == [p]
    ensures Settled(RefreshUp(items, p), p)
  {
    RowsKeepStates(items, p, st);
    RefreshUpUnfold(items, p);
  }

  /** Setting the state of `p` leaves the states of its rows as they were. */
  lemma RowsKeepStates(items: seq<Item>, p: nat, st: CheckState)
    requires WellFormed(items) && p < |items|
    ensures WellFormed(items[p := items[p].(state := st)])
    ensures items[p := items[p].(state := st)][p].children == items[p].children
    ensures RowStates(items[p := items[p].(state := st)], items[p].children) == RowStates(items, items[p].children)
  {
    var rows := items[p].children;
    var next := items[p := items[p].(state := st)];
    SetStateShape(items, p, st);
    forall k | 0 <= k < |rows|
      ensures next[rows[k]] == items[rows[k]]
    {
      assert p < rows[k];
    }
    RowStatesSame(next, items, rows);
  }

  /** The item the walk leaves keeps the state it was given: the walk above never touches it or its rows. */
  lemma SettledBelowWalk(items: seq<Item>, p: nat, st: CheckState, q: nat)
    requires WellFormed(items) && p < |items| && |items[p].children| > 0
    requires TriState(RowStates(items, items[p].children)) == Some(st)
    requires q == items[p].parent && q >= 0
    ensures WellFormed(items[p := items[p].(state := st)])
    ensures Settled(RefreshUp(items, p), p)
  {
    var rows := items[p].children;
    var next := items[p := items[p].(state := st)];
    SetStateShape(items, p, st);
    var r := RefreshUp(next, q);
    assert RefreshUp(items, p) == r;
    RefreshUpFrame(next, q, r);
    forall k | 0 <= k < |rows|
      ensures r[rows[k]] == next[rows[k]] && next[rows[k]] == items[rows[k]]
    {
      assert p < rows[k];
    }
    RowStatesSame(r, items, rows);
    assert r[p] == next[p];
  }

  // ---------------------------------------------------------- checked files

  /** What `_accumulate_selected` gathers: a total size and the relative paths, or `None` when it raises. */
  type Gathered = Option<(nat, seq<string>)>

  const NoPaths: seq<string> := []

  function Plus(a: Gathered, b: Gathered): Gathered
  {
    if a.None? || b.None? then None else Some((a.value.0 + b.value.0, a.value.1 + b.value.1))
  }

  /**
   * What a row without rows adds. As written, a checked row without a size
   * (a directory with nothing in it, such as the root of an empty folder)
   * makes `total += size` raise; otherwise such a row adds nothing.
   */
  function LeafPart(it: Item, asWritten: bool): Gathered
  {
    if it.state != Checked then Some((0, []))
    else if it.size.None? && asWritten then None
    else Some((if it.size.Some? then it.size.value else 0,
               if it.relPath.Some? && it.relPath.value != "" then [it.relPath.value] else []))
  }

  /** `_accumulate_selected(p, paths)`: depth first, rows in order, only rows without rows count. */
  function Collect(items: seq<Item>, p: nat, asWritten: bool): Gathered
    requires WellFormed(items) && p < |items|
    decreases |items| - p, 1
  {
    CollectRows(items, p, |items[p].children|, asWritten)
  }

  function CollectRows(items: seq<Item>, p: nat, n: nat, asWritten: bool): Gathered
    requires WellFormed(items) && p < |items| && n <= |items[p].children|
    decreases |items| - p, 0, n
  {
    if n == 0 then Some((0, []))
    else
      var c := items[p].children[n - 1];
      Plus(CollectRows(items, p, n - 1, asWritten),
           if |items[c].children| > 0 then Collect(items, c, asWritten) else LeafPart(items[c], asWritten))
  }

  /** Without the failing addition the walk always finishes. */
  lemma {:induction false} CollectNeverFails(items: seq<Item>, p: nat)
    requires WellFormed(items) && p < |items|
    ensures Collect(items, p, false).Some?
    decreases |items| - p, 1
  {
    CollectRowsNeverFail(items, p, |items[p].children|);
  }

  lemma {:induction false} CollectRowsNeverFail(items: seq<Item>, p: nat, n: nat)
    requires WellFormed(items) && p < |items| && n <= |items[p].children|
    ensures CollectRows(items, p, n, false).Some?
    decreases |items| - p, 0, n
  {
    if n > 0 {
      CollectRowsNeverFail(items, p, n - 1);
      var c := items[p].children[n - 1];
      if |items[c].children| > 0 {
        CollectNeverFails(items, c);
      }
    }
  }

  /** The checked files below `p` and their total size, as `update_selected_size` should gather them. */
  function Selected(items: seq<Item>, p: nat): (nat, seq<string>)
    requires WellFormed(items) && p < |items|
  {
    CollectNeverFails(items, p);
    Collect(items, p, false).value
  }

  /** Item `i` is a checked row without rows whose relative path is `x`. */
  predicate CheckedFile(items: seq<Item>, i: nat, x: string)
    requires i < |items|
  {
    |items[i].children| == 0 && items[i].state == Checked && items[i].relPath == Some(x) && x != ""
  }

  /** The gathered paths are exactly the paths of the checked files below `p`. */
  lemma {:induction false} CollectMembers(items: seq<Item>, p: nat, x: string)
    requires WellFormed(items) && p < |items|
    ensures Collect(items, p, false).Some?
    ensures x in Collect(items, p, false).value.1 <==> exists i :: i in Under(items, p) && CheckedFile(items, i, x)
    decreases |items| - p, 1
  {
    CollectRowsMembers(items, p, |items[p].children|, x);
  }

  lemma {:induction false} CollectRowsMembers(items: seq<Item>, p: nat, n: nat, x: string)
    requires WellFormed(items) && p < |items| && n <= |items[p].children|
    ensures CollectRows(items, p, n, false).Some?
    ensures x in CollectRows(items, p, n, false).value.1 <==> exists i :: i in UnderRows(items, p, n) && CheckedFile(items, i, x)
    decreases |items| - p, 0, n
  {
    if n > 0 {
      var c := items[p].children[n - 1];
      CollectRowsMembers(items, p, n - 1, x);
      var part := if |items[c].children| > 0 then Collect(items, c, false) else LeafPart(items[c], false);
      if |items[c].children| > 0 {
        CollectMembers(items, c, x);
        assert !CheckedFile(items, c, x);
      } else {
        assert Under(items, c) == {};
        assert x in part.value.1 <==> CheckedFile(items, c, x);
      }
      var before := UnderRows(items, p, n - 1);
      assert UnderRows(items, p, n) == before + {c} + Under(items, c);
      if x in CollectRows(items, p, n, false).value.1 {
        if x in CollectRows(items, p, n - 1, false).value.1 {
          var i :| i in before && CheckedFile(items, i, x);
          assert i in UnderRows(items, p, n);
        } else if |items[c].children| > 0 {
          var i :| i in Under(items, c) && CheckedFile(items, i, x);
          assert i in UnderRows(items, p, n);
        } else {
          assert c in UnderRows(items, p, n);
        }
      }
    }
  }

  /** With nothing checked below `p`, nothing is gathered. */
  lemma {:induction false} NothingCheckedGathersNothing(items: seq<Item>, p: nat)
    requires WellFormed(items) && p < |items|
    requires forall i :: i in Under(items, p) ==> items[i].state != Checked
    ensures Collect(items, p, true) == Some((0, []))
    decreases |items| - p, 1
  {
    NothingCheckedRows(items, p, |items[p].children|);
  }

  lemma {:induction false} NothingCheckedRows(items: seq<Item>, p: nat, n: nat)
    requires WellFormed(items) && p < |items| && n <= |items[p].children|
    requires forall i :: i in UnderRows(items, p, n) ==> items[i].state != Checked
    ensures CollectRows(items, p, n, true) == Some((0, []))
    decreases |items| - p, 0, n
  {
    if n > 0 {
      var c := items[p].children[n - 1];
      assert UnderRows(items, p, n) == UnderRows(items, p, n - 1) + {c} + Under(items, c);
      assert c in UnderRows(items, p, n);
      NothingCheckedRows(items, p, n - 1);
      if |items[c].children| > 0 {
        NothingCheckedGathersNothing(items, c);
      }
      assert NoPaths + NoPaths == NoPaths;
    }
  }

  /** Where every checked row without rows has a size, the walk as written succeeds and agrees. */
  lemma {:induction false} AsWrittenAgrees(items: seq<Item>, p: nat)
    requires WellFormed(items) && p < |items|
    requires forall i :: i in Under(items, p) && |items[i].children| == 0 && items[i].state == Checked ==> items[i].size.Some?
    ensures Collect(items, p, true) == Collect(items, p, false)
    decreases |items| - p, 1
  {
    AsWrittenAgreesRows(items, p, |items[p].children|);
  }

  lemma {:induction false} AsWrittenAgreesRows(items: seq<Item>, p: nat, n: nat)
    requires WellFormed(items) && p < |items| && n <= |items[p].children|
    requires forall i :: i in UnderRows(items, p, n) && |items[i].children| == 0 && items[i].state == Checked ==> items[i].size.Some?
    ensures CollectRows(items, p, n, true) == CollectRows(items, p, n, false)
    decreases |items| - p, 0, n
  {
    if n > 0 {
      var c := items[p].children[n - 1];
      assert UnderRows(items, p, n) == UnderRows(items, p, n - 1) + {c} + Under(items, c);
      AsWrittenAgreesRows(items, p, n - 1);
      if |items[c].children| > 0 {
        AsWrittenAgrees(items, c);
      }
    }
  }

  /** The model `build_tree_model` makes for a folder without files: the invisible root and the root row. */
  function EmptyFolder(rootName: string, rootState: CheckState): seq<Item>
  {
    [Item("", -1, [1], false, Unchecked, None, None, None),
     Item(rootName + "/", 0, [], true, rootState, None, None, None)]
  }

  /** Checking the root of an empty folder: as written the addition fails; corrected, nothing is gathered. */
  lemma EmptyFolderCheckFails(rootName: string)
    ensures WellFormed(EmptyFolder(rootName, Checked))
    ensures Collect(EmptyFolder(rootName, Checked), 0, true) == None
    ensures Selected(EmptyFolder(rootName, Checked), 0) == (0, [])
  {
    var e := EmptyFolder(rootName, Checked);
    assert e[1].children == [];
    assert CollectRows(e, 0, 0, true) == Some((0, []));
    assert LeafPart(e[1], true) == None;
    assert LeafPart(e[1], false) == Some((0, NoPaths));
    assert CollectRows(e, 0, 0, false) == Some((0, NoPaths));
    assert NoPaths + NoPaths == NoPaths;
    assert CollectRows(e, 0, 1, false) == Plus(Some((0, NoPaths)), Some((0, NoPaths)));
    assert Collect(e, 0, false) == Some((0, NoPaths));
  }

  /** Every row without rows, below the invisible root, carries a size. */
  predicate LeavesSized(items: seq<Item>)
  {
    forall i :: 1 <= i < |items| && |items[i].children| == 0 ==> items[i].size.Some?
  }

  /** Where every row without rows has a size, `update_selected_size` as written gathers what the corrected walk does. */
  lemma LeavesSizedAgrees(items: seq<Item>)
    requires WellFormed(items) && LeavesSized(items)
    ensures Collect(items, 0, true) == Some(Selected(items, 0))
  {
    CollectNeverFails(items, 0);
    AsWrittenAgrees(items, 0);
  }

  /** Check states do not change which rows have rows or a size. */
  lemma SameShapeLeavesSized(a: seq<Item>, b: seq<Item>)
    requires SameShape(a, b) && LeavesSized(a)
    ensures LeavesSized(b)
  {
    forall i | 1 <= i < |b|
      ensures b[i].children == a[i].children && b[i].size == a[i].size
    {
      assert a[i].(state := Unchecked).children == b[i].(state := Unchecked).children;
      assert a[i].(state := Unchecked).size == b[i].(state := Unchecked).size;
    }
  }

  /**
   * `_accumulate_selected`, corrected: rows without a size add nothing. From
   * the invisible root of a tree, the total is the flat sum of the sizes of
   * the checked rows without rows, and the appended paths are distinct when
   * the rows' paths are.
   */
  method AccumulateSelected(items: seq<Item>, p: nat, paths: seq<string>) returns (total: nat, out: seq<string>)
    requires WellFormed(items) && p < |items|
    ensures total == Selected(items, p).0 && out == paths + Selected(items, p).1
    ensures p == 0 && IsTree(items) ==> total == CheckedTotal(items, |items|)
    ensures p == 0 && IsTree(items) && DistinctRelPaths(items) ==> NoDup(out[|paths|..])
    decreases |items| - p
  {
    total, out := 0, paths;
    ghost var gathered: seq<string> := [];
    var row := 0;
    while row < |items[p].children|
      invariant row <= |items[p].children|
      invariant CollectRows(items, p, row, false) == Some((total, gathered))
      invariant out == paths + gathered
    {
      var child := items[p].children[row];
      assert p < child;
      var sub: nat, more: seq<string> := 0, [];
      if |items[child].children| > 0 {
        sub, more := AccumulateSelected(items, child, []);
        CollectNeverFails(items, child);
        assert NoPaths + Selected(items, child).1 == Selected(items, child).1;
      } else if items[child].state == Checked {
        sub := if items[child].size.Some? then items[child].size.value else 0;
        if items[child].relPath.Some? && items[child].relPath.value != "" {
          more := [items[child].relPath.value];
        }
      }
      RowStep(items, p, row, total, gathered, sub, more);
      AppendAssoc(paths, gathered, more);
      total, out, gathered := total + sub, out + more, gathered + more;
      row := row + 1;
    }
    if p == 0 {
      RootSelected(items, paths, out);
    }
  }

  /** One row of `_accumulate_selected`'s loop: what the row adds extends the running result. */
  lemma RowStep(items: seq<Item>, p: nat, n: nat, total: nat, gathered: seq<string>, sub: nat, more: seq<string>)
    requires WellFormed(items) && p < |items| && n < |items[p].children|
    requires CollectRows(items, p, n, false) == Some((total, gathered))
    requires (if |items[items[p].children[n]].children| > 0 then Collect(items, items[p].children[n], false)
              else LeafPart(items[items[p].children[n]], false)) == Some((sub, more))
    ensures CollectRows(items, p, n + 1, false) == Some((total + sub, gathered + more))
  {
    CollectRowsStep(items, p, n);
  }

  lemma CollectRowsStep(items: seq<Item>, p: nat, n: nat)
    requires WellFormed(items) && p < |items| && n < |items[p].children|
    ensures CollectRows(items, p, n + 1, false) ==
              Plus(CollectRows(items, p, n, false),
                   if |items[items[p].children[n]].children| > 0 then Collect(items, items[p].children[n], false)
                   else LeafPart(items[items[p].children[n]], false))
  {
  }

  /** What `update_selected_size` gathers from the invisible root: the path of every checked file row in the tree. */
  lemma SelectedAreCheckedFiles(items: seq<Item>, x: string)
    requires WellFormed(items)
    ensures x in Selected(items, 0).1 <==> exists i :: 1 <= i < |items| && CheckedFile(items, i, x)
  {
    CollectMembers(items, 0, x);
    if exists i :: 1 <= i < |items| && CheckedFile(items, i, x) {
      var i :| 1 <= i < |items| && CheckedFile(items, i, x);
      EveryRowBelowRoot(items, i);
    }
  }

  // ---------------------------------------------------------- each row once

  /** Every row's parent is the item that lists it. */
  predicate ChildParents(items: seq<Item>)
  {
    forall i, k :: 0 <= i < |items| && 0 <= k < |items[i].children| && items[i].children[k] < |items| ==>
      items[items[i].children[k]].parent == i
  }

  /** No item lists a row twice. */
  predicate RowsOnce(items: seq<Item>)
  {
    forall i, a, b :: 0 <= i < |items| && 0 <= a < b < |items[i].children| ==> items[i].children[a] != items[i].children[b]
  }

  /** The arena is a tree, as `appendRow` builds one: every row hangs below exactly one item, once. */
  predicate IsTree(items: seq<Item>)
  {
    WellFormed(items) && ChildParents(items) && RowsOnce(items)
  }

  lemma SameShapeTree(a: seq<Item>, b: seq<Item>)
    requires IsTree(a) && SameShape(a, b)
    ensures IsTree(b)
  {
    SameShapeWellFormed(a, b);
    forall i | 0 <= i < |a|
      ensures a[i].parent == b[i].parent && a[i].children == b[i].children
    {
      assert a[i].(state := Unchecked).parent == b[i].(state := Unchecked).parent;
      assert a[i].(state := Unchecked).children == b[i].(state := Unchecked).children;
    }
  }

  /** The rows below `p` in the order `_accumulate_selected` visits them: each row, then the rows below it. */
  function Order(items: seq<Item>, p: nat): (r: seq<nat>)
    requires WellFormed(items) && p < |items|
    decreases |items| - p, 1
  {
    OrderRows(items, p, |items[p].children|)
  }

  function OrderRows(items: seq<Item>, p: nat, n: nat): (r: seq<nat>)
    requires WellFormed(items) && p < |items| && n <= |items[p].children|
    decreases |items| - p, 0, n
  {
    if n == 0 then []
    else
      var c := items[p].children[n - 1];
      OrderRows(items, p, n - 1) + ([c] + Order(items, c))
  }

  /** The visit order lists exactly the rows below `p`. */
  lemma {:induction false} OrderMembers(items: seq<Item>, p: nat)
    requires WellFormed(items) && p < |items|
    ensures forall x :: x in Order(items, p) <==> x in Under(items, p)
    decreases |items| - p, 1
  {
    OrderRowsMembers(items, p, |items[p].children|);
  }

  lemma {:induction false} OrderRowsMembers(items: seq<Item>, p: nat, n: nat)
    requires WellFormed(items) && p < |items| && n <= |items[p].children|
    ensures forall x :: x in OrderRows(items, p, n) <==> x in UnderRows(items, p, n)
    decreases |items| - p, 0, n
  {
    if n > 0 {
      var c := items[p].children[n - 1];
      OrderRowsMembers(items, p, n - 1);
      OrderMembers(items, c);
    }
  }

  /** `c` is `x` or one of the items above it. */
  predicate AncestorOrSelf(items: seq<Item>, c: nat, x: nat)
    requires WellFormed(items) && x < |items|
    decreases x
  {
    x == c || (x > c && AncestorOrSelf(items, c, items[x].parent as nat))
  }

  lemma {:induction false} AncestorBelow(items: seq<Item>, c: nat, x: nat)
    requires WellFormed(items) && x < |items| && AncestorOrSelf(items, c, x)
    ensures c <= x
    decreases x
  {
    if x != c {
      AncestorBelow(items, c, items[x].parent as nat);
    }
  }

  lemma {:induction false} AncestorTrans(items: seq<Item>, a: nat, b: nat, x: nat)
    requires WellFormed(items) && b < |items| && x < |items|
    requires AncestorOrSelf(items, a, b) && AncestorOrSelf(items, b, x)
    ensures AncestorOrSelf(items, a, x)
    decreases x
  {
    if x != b {
      AncestorTrans(items, a, b, items[x].parent as nat);
      AncestorBelow(items, a, b);
    }
  }

  /** In a tree, every row below `c` has `c` above it. */
  lemma {:induction false} UnderAncestor(items: seq<Item>, c: nat, x: nat)
    requires IsTree(items) && c < |items| && x in Under(items, c)
    ensures AncestorOrSelf(items, c, x)
    decreases |items| - c, 1
  {
    UnderRowsAncestor(items, c, |items[c].children|, x);
  }

  lemma {:induction false} UnderRowsAncestor(items: seq<Item>, c: nat, n: nat, x: nat)
    requires IsTree(items) && c < |items| && n <= |items[c].children| && x in UnderRows(items, c, n)
    ensures AncestorOrSelf(items, c, x)
    decreases |items| - c, 0, n
  {
    var d := items[c].children[n - 1];
    assert items[d].parent == c;
    assert AncestorOrSelf(items, c, d);
    if x in UnderRows(items, c, n - 1) {
      UnderRowsAncestor(items, c, n - 1, x);
    } else if x != d {
      UnderAncestor(items, d, x);
      AncestorTrans(items, c, d, x);
    }
  }

  /** Two different rows of the same item have no row below both. */
  lemma {:induction false} SiblingsApart(items: seq<Item>, c1: nat, c2: nat, x: nat)
    requires WellFormed(items) && 1 <= c1 < |items| && 1 <= c2 < |items| && x < |items|
    requires c1 != c2 && items[c1].parent == items[c2].parent
    ensures !(AncestorOrSelf(items, c1, x) && AncestorOrSelf(items, c2, x))
    decreases x
  {
    var p := items[c1].parent as nat;
    if x == c1 {
      if AncestorOrSelf(items, c2, x) {
        AncestorBelow(items, c2, p);
      }
    } else if x == c2 {
      if AncestorOrSelf(items, c1, x) {
        AncestorBelow(items, c1, p);
      }
    } else if x > c1 && x > c2 {
      SiblingsApart(items, c1, c2, items[x].parent as nat);
    }
  }

  /** A row below the first `n` rows of `p` has one of them above it. */
  lemma {:induction false} UnderRowsWitness(items: seq<Item>, p: nat, n: nat, x: nat) returns (j: nat)
    requires IsTree(items) && p < |items| && n <= |items[p].children| && x in UnderRows(items, p, n)
    ensures j < n && AncestorOrSelf(items, items[p].children[j], x)
    decreases n
  {
    var c := items[p].children[n - 1];
    if x in UnderRows(items, p, n - 1) {
      j := UnderRowsWitness(items, p, n - 1, x);
    } else {
      j := n - 1;
      if x != c {
        UnderAncestor(items, c, x);
      }
    }
  }

  lemma NoDupConcat<T>(a: seq<T>, b: seq<T>)
    requires NoDup(a) && NoDup(b) && forall x :: x in a ==> x !in b
    ensures NoDup(a + b)
  {
    var s := a + b;
    forall i, j | 0 <= i < j < |s|
      ensures s[i] != s[j]
    {
      if i < |a| && j >= |a| {
        assert s[i] in a && s[j] == b[j - |a|];
      } else if i >= |a| {
        assert s[i] == b[i - |a|] && s[j] == b[j - |a|];
      } else {
        assert s[i] == a[i] && s[j] == a[j];
      }
    }
  }

  /** In a tree, the walk visits every row below `p` exactly once. */
  lemma {:induction false} OrderNoDup(items: seq<Item>, p: nat)
    requires IsTree(items) && p < |items|
    ensures NoDup(Order(items, p))
    decreases |items| - p, 1
  {
    OrderRowsNoDup(items, p, |items[p].children|);
  }

  lemma {:induction false} OrderRowsNoDup(items: seq<Item>, p: nat, n: nat)
    requires IsTree(items) && p < |items| && n <= |items[p].children|
    ensures NoDup(OrderRows(items, p, n))
    decreases |items| - p, 0, n
  {
    if n > 0 {
      var c := items[p].children[n - 1];
      OrderRowsNoDup(items, p, n - 1);
      SubtreeNoDup(items, c);
      forall x | x in OrderRows(items, p, n - 1)
        ensures x !in [c] + Order(items, c)
      {
        FrontAvoidsBack(items, p, n, x);
      }
      NoDupConcat(OrderRows(items, p, n - 1), [c] + Order(items, c));
    }
  }

  /** A row and the rows below it, in visit order, hold each row once. */
  lemma SubtreeNoDup(items: seq<Item>, c: nat)
    requires IsTree(items) && c < |items|
    ensures NoDup([c] + Order(items, c))
    decreases |items| - c, 2
  {
    OrderNoDup(items, c);
    OrderMembers(items, c);
    NoDupConcat([c], Order(items, c));
  }

  /** A row visited as part of row `c` or below it has `c` above it. */
  lemma InSubtreeAncestor(items: seq<Item>, c: nat, x: nat)
    requires IsTree(items) && c < |items| && x < |items|
    ensures x in [c] + Order(items, c) ==> AncestorOrSelf(items, c, x)
  {
    OrderMembers(items, c);
    if x != c && x in Order(items, c) {
      UnderAncestor(items, c, x);
    }
  }

  /** What the first `n - 1` rows of `p` visit is not visited again by row `n - 1`. */
  lemma FrontAvoidsBack(items: seq<Item>, p: nat, n: nat, x: nat)
    requires IsTree(items) && p < |items| && 0 < n <= |items[p].children| && x in OrderRows(items, p, n - 1)
    ensures x !in [items[p].children[n - 1]] + Order(items, items[p].children[n - 1])
  {
    var c := items[p].children[n - 1];
    OrderRowsMembers(items, p, n - 1);
    var j := UnderRowsWitness(items, p, n - 1, x);
    var c' := items[p].children[j];
    assert c' != c;
    assert items[c].parent == p && items[c'].parent == p;
    SiblingsApart(items, c', c, x);
    InSubtreeAncestor(items, c, x);
  }

  // ---------------------------------------------------------- the total as a flat sum

  /** What row `it` adds to the total: its size when it is a checked row without rows. */
  function LeafSize(it: Item): nat
  {
    if |it.children| == 0 && it.state == Checked && it.size.Some? then it.size.value else 0
  }

  /** The path row `it` adds: its own, when it is a checked row without rows and a non-empty path. */
  function LeafPaths(it: Item): seq<string>
  {
    if |it.children| == 0 && it.state == Checked && it.relPath.Some? && it.relPath.value != "" then [it.relPath.value] else []
  }

  /** The sizes of the rows `s` added up. */
  function Weight(items: seq<Item>, s: seq<nat>): nat
  {
    if |s| == 0 then 0 else (if s[0] < |items| then LeafSize(items[s[0]]) else 0) + Weight(items, s[1..])
  }

  /** The paths of the rows `s`, in order. */
  function PathsOf(items: seq<Item>, s: seq<nat>): seq<string>
  {
    if |s| == 0 then [] else (if s[0] < |items| then LeafPaths(items[s[0]]) else []) + PathsOf(items, s[1..])
  }

  lemma {:induction false} WeightAppend(items: seq<Item>, a: seq<nat>, b: seq<nat>)
    ensures Weight(items, a + b) == Weight(items, a) + Weight(items, b)
    ensures PathsOf(items, a + b) == PathsOf(items, a) + PathsOf(items, b)
  {
    if |a| > 0 {
      assert (a + b)[1..] == a[1..] + b;
      WeightAppend(items, a[1..], b);
      AppendAssoc(if a[0] < |items| then LeafPaths(items[a[0]]) else [], PathsOf(items, a[1..]), PathsOf(items, b));
    } else {
      assert a + b == b;
    }
  }

  /** Gathering two runs of rows one after the other gathers the rows of both. */
  lemma PlusWeight(items: seq<Item>, front: seq<nat>, back: seq<nat>, a: Gathered, b: Gathered)
    requires a == Some((Weight(items, front), PathsOf(items, front)))
    requires b == Some((Weight(items, back), PathsOf(items, back)))
    ensures Plus(a, b) == Some((Weight(items, front + back), PathsOf(items, front + back)))
  {
    WeightAppend(items, front, back);
  }

  /** The walk gathers the sizes and paths of the rows it visits, in visit order. */
  lemma {:induction false} CollectIsWeight(items: seq<Item>, p: nat)
    requires WellFormed(items) && p < |items|
    ensures Collect(items, p, false) == Some((Weight(items, Order(items, p)), PathsOf(items, Order(items, p))))
    decreases |items| - p, 1
  {
    CollectRowsIsWeight(items, p, |items[p].children|);
  }

  lemma {:induction false} CollectRowsIsWeight(items: seq<Item>, p: nat, n: nat)
    requires WellFormed(items) && p < |items| && n <= |items[p].children|
    ensures CollectRows(items, p, n, false) == Some((Weight(items, OrderRows(items, p, n)), PathsOf(items, OrderRows(items, p, n))))
    decreases |items| - p, 0, n
  {
    if n > 0 {
      var c := items[p].children[n - 1];
      var front, back := OrderRows(items, p, n - 1), [c] + Order(items, c);
      var part := if |items[c].children| > 0 then Collect(items, c, false) else LeafPart(items[c], false);
      CollectRowsIsWeight(items, p, n - 1);
      PartIsWeight(items, c);
      PlusWeight(items, front, back, CollectRows(items, p, n - 1, false), part);
      assert CollectRows(items, p, n, false) == Plus(CollectRows(items, p, n - 1, false), part);
    } else {
      assert NoPaths == [];
    }
  }

  /** What one row adds to the walk: the sizes and paths of the row and the rows below it. */
  lemma {:induction false} PartIsWeight(items: seq<Item>, c: nat)
    requires WellFormed(items) && c < |items|
    ensures (if |items[c].children| > 0 then Collect(items, c, false) else LeafPart(items[c], false)) ==
              Some((Weight(items, [c] + Order(items, c)), PathsOf(items, [c] + Order(items, c))))
    decreases |items| - c, 2
  {
    WeightAppend(items, [c], Order(items, c));
    assert Weight(items, [c]) == LeafSize(items[c]) + Weight(items, []);
    assert PathsOf(items, [c]) == LeafPaths(items[c]) + PathsOf(items, []);
    if |items[c].children| > 0 {
      CollectIsWeight(items, c);
      assert LeafSize(items[c]) == 0 && LeafPaths(items[c]) == [];
      assert PathsOf(items, [c]) + PathsOf(items, Order(items, c)) == PathsOf(items, Order(items, c));
    } else {
      assert Order(items, c) == [];
      assert [c] + Order(items, c) == [c];
      assert LeafPaths(items[c]) + [] == LeafPaths(items[c]);
      if items[c].state == Checked {
        assert LeafPart(items[c], false) == Some((LeafSize(items[c]), LeafPaths(items[c])));
      }
    }
  }

  /** The rows `1 .. n - 1` of the arena, in arena order. */
  function Rows(n: nat): (r: seq<nat>)
    ensures |r| == if n <= 1 then 0 else n - 1
    ensures forall k :: 0 <= k < |r| ==> r[k] == k + 1
  {
    if n <= 1 then [] else Rows(n - 1) + [n - 1]
  }

  /** The flat sum over the arena: the size of every checked row without rows, each once. */
  function CheckedTotal(items: seq<Item>, n: nat): nat
    requires n <= |items|
  {
    if n <= 1 then 0 else CheckedTotal(items, n - 1) + LeafSize(items[n - 1])
  }

  lemma {:induction false} RowsWeight(items: seq<Item>, n: nat)
    requires n <= |items|
    ensures Weight(items, Rows(n)) == CheckedTotal(items, n)
  {
    if n > 1 {
      RowsWeight(items, n - 1);
      WeightAppend(items, Rows(n - 1), [n - 1]);
    }
  }

  lemma {:induction false} NoDupCount(s: seq<nat>, x: nat)
    requires NoDup(s)
    ensures multiset(s)[x] == if x in s then 1 else 0
  {
    if |s| > 0 {
      assert s == [s[0]] + s[1..];
      assert NoDup(s[1..]) by {
        forall i, j | 0 <= i < j < |s[1..]|
          ensures s[1..][i] != s[1..][j]
        {
          assert s[1..][i] == s[i + 1] && s[1..][j] == s[j + 1];
        }
      }
      NoDupCount(s[1..], x);
      assert s[0] !in s[1..] by {
        forall k | 0 <= k < |s[1..]|
          ensures s[1..][k] != s[0]
        {
          assert s[1..][k] == s[k + 1];
        }
      }
      assert multiset(s) == multiset([s[0]]) + multiset(s[1..]);
    }
  }

  /** Two duplicate-free sequences with the same elements are permutations of each other. */
  lemma SameElementsPermutation(s: seq<nat>, t: seq<nat>)
    requires NoDup(s) && NoDup(t) && forall x :: x in s <==> x in t
    ensures multiset(s) == multiset(t)
  {
    forall x | true
      ensures multiset(s)[x] == multiset(t)[x]
    {
      NoDupCount(s, x);
      NoDupCount(t, x);
    }
  }

  /** The total does not depend on the order of the rows. */
  lemma {:induction false} WeightPermutation(items: seq<Item>, s: seq<nat>, t: seq<nat>)
    requires multiset(s) == multiset(t)
    ensures Weight(items, s) == Weight(items, t)
    decreases |s|
  {
    if |s| > 0 {
      var x := s[0];
      assert x in multiset(t);
      var k :| 0 <= k < |t| && t[k] == x;
      var rest := t[..k] + t[k + 1..];
      assert t == t[..k] + [x] + t[k + 1..];
      assert s == [x] + s[1..];
      assert multiset(t) == multiset(t[..k]) + multiset([x]) + multiset(t[k + 1..]);
      assert multiset(s) == multiset([x]) + multiset(s[1..]);
      assert multiset(rest) == multiset(t[..k]) + multiset(t[k + 1..]);
      forall y
        ensures multiset(s[1..])[y] == multiset(rest)[y]
      {
        assert multiset(s)[y] == multiset(t)[y];
      }
      assert multiset(s[1..]) == multiset(rest);
      WeightPermutation(items, s[1..], rest);
      WeightAppend(items, t[..k] + [x], t[k + 1..]);
      WeightAppend(items, t[..k], [x]);
      WeightAppend(items, t[..k], t[k + 1..]);
    } else {
      assert |t| == |multiset(t)| == 0;
    }
  }

  /**
   * In a tree, `update_selected_size` shows the flat sum of the sizes of
   * the checked rows without rows: every checked file row counts once.
   */
  lemma SelectedTotal(items: seq<Item>)
    requires IsTree(items)
    ensures Selected(items, 0).0 == CheckedTotal(items, |items|)
  {
    CollectIsWeight(items, 0);
    var o := Order(items, 0);
    OrderNoDup(items, 0);
    OrderMembers(items, 0);
    var r := Rows(|items|);
    forall x
      ensures x in o <==> x in r
    {
      if 1 <= x < |items| {
        EveryRowBelowRoot(items, x);
        assert r[x - 1] == x;
      }
    }
    SameElementsPermutation(o, r);
    WeightPermutation(items, o, r);
    RowsWeight(items, |items|);
  }

  /** Below the invisible root, no two rows carry the same path. */
  predicate DistinctRelPaths(items: seq<Item>)
  {
    forall i, j :: 1 <= i < j < |items| && items[i].relPath.Some? && items[j].relPath.Some? ==>
      items[i].relPath != items[j].relPath
  }

  /** A row outside `s` whose path is `v` keeps `v` out of the paths of `s`. */
  lemma {:induction false} PathsOfAvoid(items: seq<Item>, s: seq<nat>, r: nat, v: string)
    requires DistinctRelPaths(items) && 1 <= r < |items| && items[r].relPath == Some(v) && r !in s
    requires forall k :: 0 <= k < |s| ==> 1 <= s[k]
    ensures v !in PathsOf(items, s)
  {
    if |s| > 0 {
      assert s[0] != r;
      assert forall k :: 0 <= k < |s[1..]| ==> s[1..][k] == s[k + 1];
      PathsOfAvoid(items, s[1..], r, v);
      if s[0] < |items| && items[s[0]].relPath.Some? {
        assert items[s[0]].relPath != items[r].relPath;
      }
    }
  }

  lemma {:induction false} PathsOfNoDup(items: seq<Item>, s: seq<nat>)
    requires NoDup(s) && DistinctRelPaths(items) && forall k :: 0 <= k < |s| ==> 1 <= s[k]
    ensures NoDup(PathsOf(items, s))
  {
    if |s| > 0 {
      var head := if s[0] < |items| then LeafPaths(items[s[0]]) else [];
      assert forall k :: 0 <= k < |s[1..]| ==> s[1..][k] == s[k + 1];
      assert s[0] !in s[1..];
      PathsOfNoDup(items, s[1..]);
      if |head| > 0 {
        PathsOfAvoid(items, s[1..], s[0], head[0]);
      }
      NoDupConcat(head, PathsOf(items, s[1..]));
    }
  }

  /** In a tree whose rows carry distinct paths, the gathered paths hold each path once. */
  lemma SelectedNoDup(items: seq<Item>)
    requires IsTree(items) && DistinctRelPaths(items)
    ensures NoDup(Selected(items, 0).1)
  {
    CollectIsWeight(items, 0);
    OrderNoDup(items, 0);
    OrderMembers(items, 0);
    var o := Order(items, 0);
    forall k | 0 <= k < |o|
      ensures 1 <= o[k]
    {
      assert o[k] in Under(items, 0);
    }
    PathsOfNoDup(items, o);
  }

  /** From the invisible root of a tree the walk sums each checked file row once and repeats no path it was given distinct. */
  lemma RootSelected(items: seq<Item>, paths: seq<string>, out: seq<string>)
    requires WellFormed(items) && out == paths + Selected(items, 0).1
    ensures IsTree(items) ==> Selected(items, 0).0 == CheckedTotal(items, |items|)
    ensures IsTree(items) && DistinctRelPaths(items) ==> NoDup(out[|paths|..])
  {
    if IsTree(items) {
      SelectedTotal(items);
      if DistinctRelPaths(items) {
        SelectedNoDup(items);
        assert out[|paths|..] == Selected(items, 0).1;
      }
    }
  }

  /** Check states do not change the rows' paths. */
  lemma SameShapeDistinct(a: seq<Item>, b: seq<Item>)
    requires SameShape(a, b) && DistinctRelPaths(a)
    ensures DistinctRelPaths(b)
  {
    forall i | 0 <= i < |a|
      ensures a[i].relPath == b[i].relPath
    {
      assert a[i].(state := Unchecked).relPath == b[i].(state := Unchecked).relPath;
    }
  }

  // ---------------------------------------------------------- a click

  /** The item whose check box the user sets to `st`; nothing else changes. */
  function Click(items: seq<Item>, i: nat, st: CheckState): (r: seq<Item>)
    requires WellFormed(items) && i < |items|
    ensures WellFormed(r) && SameShape(items, r)
  {
    SetStateShape(items, i, st);
    items[i := items[i].(state := st)]
  }

  /** `_set_children_state(item, item.checkState())` when `i` has rows. */
  function Follow(items: seq<Item>, i: nat): (r: seq<Item>)
    requires WellFormed(items) && i < |items|
    ensures WellFormed(r) && SameShape(items, r)
  {
    StampShape(items, Under(items, i), items[i].state);
    SameShapeWellFormed(items, Stamp(items, Under(items, i), items[i].state));
    if |items[i].children| > 0 then Stamp(items, Under(items, i), items[i].state) else items
  }

  /**
   * `on_item_changed` for row `i`, whose state has just changed: the rows
   * below it take its state, then the walk goes up from its parent.
   */
  function ItemChanged(items: seq<Item>, i: nat): (r: seq<Item>)
    requires WellFormed(items) && 1 <= i < |items|
    ensures WellFormed(r) && SameShape(items, r)
  {
    var stamped := Follow(items, i);
    assert stamped[i].(state := Unchecked).parent == items[i].(state := Unchecked).parent;
    var r := RefreshUp(stamped, items[i].parent as nat);
    RefreshUpShape(stamped, items[i].parent as nat, r);
    SameShapeTrans(items, stamped, r);
    r
  }

  /** The rows below `i` take its state; nothing else changes. */
  lemma FollowEffect(items: seq<Item>, i: nat)
    requires WellFormed(items) && AllCheckable(items) && 1 <= i < |items|
    ensures forall j :: j in Under(items, i) ==> Follow(items, i)[j].state == items[i].state
    ensures forall j :: 0 <= j < |items| && j !in Under(items, i) ==> Follow(items, i)[j] == items[j]
  {
    var stamped := Follow(items, i);
    if |items[i].children| == 0 {
      assert Under(items, i) == {};
    }
    forall j | j in Under(items, i)
      ensures stamped[j].state == items[i].state
    {
      assert items[j].checkable;
    }
  }

  /**
   * After a click on row `i`: `i` keeps the state it was given, every row
   * below it has that state, and nothing changes but those rows and the
   * chain above `i`.
   */
  lemma ItemChangedEffect(items: seq<Item>, i: nat, r: seq<Item>)
    requires WellFormed(items) && AllCheckable(items) && 1 <= i < |items|
    requires r == ItemChanged(items, i)
    ensures r[i].state == items[i].state
    ensures forall j :: j in Under(items, i) ==> r[j].state == items[i].state
    ensures forall j :: 0 <= j < |items| && j != i && j !in Under(items, i) && j !in Chain(items, items[i].parent as nat) ==>
              r[j] == items[j]
  {
    ItemChangedBelow(items, i, r);
    ItemChangedElsewhere(items, i, r);
  }

  lemma ItemChangedBelow(items: seq<Item>, i: nat, r: seq<Item>)
    requires WellFormed(items) && AllCheckable(items) && 1 <= i < |items|
    requires r == ItemChanged(items, i)
    ensures r[i].state == items[i].state
    ensures forall j :: j in Under(items, i) ==> r[j].state == items[i].state
  {
    var p := items[i].parent as nat;
    var stamped := Follow(items, i);
    FollowEffect(items, i);
    RefreshUpFrame(stamped, p, r);
    assert p < i;
  }

  lemma ItemChangedElsewhere(items: seq<Item>, i: nat, r: seq<Item>)
    requires WellFormed(items) && AllCheckable(items) && 1 <= i < |items|
    requires r == ItemChanged(items, i)
    ensures forall j :: 0 <= j < |items| && j != i && j !in Under(items, i) && j !in Chain(items, items[i].parent as nat) ==>
              r[j] == items[j]
  {
    var p := items[i].parent as nat;
    var stamped := Follow(items, i);
    FollowEffect(items, i);
    RefreshUpFrame(stamped, p, r);
    ChainShape(items, stamped, p);
  }

  /** After a click on row `i`, every item on the chain above `i` shows the tri-state of its rows. */
  lemma ItemChangedSettles(items: seq<Item>, i: nat, r: seq<Item>)
    requires WellFormed(items) && AllCheckable(items) && 1 <= i < |items|
    requires r == ItemChanged(items, i)
    ensures forall a :: a in Chain(items, items[i].parent as nat) ==> Settled(r, a)
  {
    var p := items[i].parent as nat;
    var stamped := Follow(items, i);
    assert stamped[p].(state := Unchecked).children == items[p].(state := Unchecked).children;
    assert i in stamped[p].children;
    assert AllCheckable(stamped) by {
      forall j | 1 <= j < |stamped|
        ensures stamped[j].checkable
      {
        assert stamped[j].(state := Unchecked).checkable == items[j].(state := Unchecked).checkable;
      }
    }
    RefreshUpSettles(stamped, p, r);
    ChainShape(items, stamped, p);
  }

  // ---------------------------------------------------------- the extension filter

  /** `filterAcceptsRow`: no filter accepts all; a directory (no extension) always shows. */
  function FilterAcceptsRow(allowed: Option<set<string>>, ext: Option<string>): bool
  {
    allowed.None? || ext.None? || ext.value in allowed.value
  }

  /** The checked entries of the extension list, in list order. */
  function CheckedNames(checks: seq<(string, bool)>): (r: seq<string>)
    ensures forall x :: x in r <==> exists i :: 0 <= i < |checks| && checks[i].1 && checks[i].0 == x
  {
    if |checks| == 0 then []
    else
      var rest := CheckedNames(checks[..|checks| - 1]);
      assert forall i :: 0 <= i < |checks| - 1 ==> checks[..|checks| - 1][i] == checks[i];
      rest + (if checks[|checks| - 1].1 then [checks[|checks| - 1].0] else [])
  }

  /** `set_allowed_extensions(allowed if allowed else None)`. */
  function AllowedOf(checks: seq<(string, bool)>): Option<set<string>>
  {
    var names := CheckedNames(checks);
    if |names| == 0 then None else Some(set x | x in names)
  }

  /** The loop of `on_extension_filter_changed`. */
  method CheckedExtensions(checks: seq<(string, bool)>) returns (allowed: seq<string>)
    ensures allowed == CheckedNames(checks)
  {
    allowed := [];
    var i := 0;
    while i < |checks|
      invariant i <= |checks|
      invariant allowed == CheckedNames(checks[..i])
    {
      assert checks[..i + 1][..i] == checks[..i];
      if checks[i].1 {
        allowed := allowed + [checks[i].0];
      }
      i := i + 1;
    }
    assert checks[..i] == checks;
  }

  /**
   * After the extension list changes, a file row shows exactly when its
   * extension is checked, except that unchecking every extension shows
   * every file again; directory rows always show.
   */
  lemma FilterAfterChange(checks: seq<(string, bool)>, ext: Option<string>)
    ensures FilterAcceptsRow(AllowedOf(checks), ext) <==>
              || ext.None?
              || (forall i :: 0 <= i < |checks| ==> !checks[i].1)
              || (exists i :: 0 <= i < |checks| && checks[i].1 && checks[i].0 == ext.value)
  {
    var names := CheckedNames(checks);
    if |names| == 0 {
      forall i | 0 <= i < |checks|
        ensures !checks[i].1
      {
        assert checks[i].0 !in names;
      }
    } else {
      assert names[0] in names;
    }
  }

  // ---------------------------------------------------------- the model object

  /** The `QStandardItemModel` behind the tree view. */
  class ItemModel {
    var items: seq<Item>

    constructor ()
      ensures items == [Item("", -1, [], false, Unchecked, None, None, None)]
    {
      items := [Item("", -1, [], false, Unchecked, None, None, None)];
    }

    /** `_set_children_state`: every checkable item below `p` takes `state`; nothing else changes. */
    method SetChildrenState(p: nat, state: CheckState)
      requires WellFormed(items) && p < |items|
      modifies this
      ensures items == Stamp(old(items), Under(old(items), p), state)
      decreases |items| - p, 1
    {
      ghost var items0 := items;
      StampNothing(items0, state);
      var n := |items[p].children|;
      for row := 0 to n
        invariant items == Stamp(items0, UnderRows(items0, p, row), state)
      {
        SetChildState(p, row, state, items0);
      }
      UnderAll(items0, p);
    }

    /** One pass of the loop of `_set_children_state`: row `row` of `p` and everything below it. */
    method SetChildState(p: nat, row: nat, state: CheckState, ghost items0: seq<Item>)
      requires WellFormed(items0) && p < |items0| && row < |items0[p].children|
      requires items == Stamp(items0, UnderRows(items0, p, row), state)
      modifies this
      ensures items == Stamp(items0, UnderRows(items0, p, row + 1), state)
      ensures |items| == |items0| && items[p].children == items0[p].children
      decreases |items| - p, 0
    {
      assert items[p].children == items0[p].children;
      var c := items[p].children[row];
      ghost var pre := items;
      if items[c].checkable {
        items := items[c := items[c].(state := state)];
      }
      StampRow(items0, UnderRows(items0, p, row), c, state, pre, items);
      if |items[c].children| > 0 {
        ghost var before := items;
        SetChildrenState(c, state);
        StampBelow(items0, p, row, state, before, items);
      } else {
        StampLeaf(items0, p, row, state, items);
      }
    }

    /** `_update_parent_tristate`: the walk up from `p`. */
    method UpdateParentTristate(p: nat)
      requires WellFormed(items) && p < |items|
      modifies this
      ensures items == RefreshUp(old(items), p)
      decreases p
    {
      if |items[p].children| == 0 {
        return;
      }
      var checkedCount, uncheckedCount, partiallyCount, total := CountRows(items, items[p].children);
      ghost var verdict := TriState(RowStates(items, items[p].children));
      assert verdict == Decide(checkedCount, uncheckedCount, partiallyCount, total);
      RefreshUpUnfold(items, p);
      if total == 0 {
        return;
      }
      var newState: CheckState;
      if partiallyCount > 0 || (checkedCount > 0 && uncheckedCount > 0) {
        newState := PartiallyChecked;
      } else if checkedCount == total {
        newState := Checked;
      } else {
        newState := Unchecked;
      }
      assert verdict == Some(newState);
      SetStateShape(items, p, newState);
      if items[p].state != newState {
        items := items[p := items[p].(state := newState)];
      } else {
        assert items == items[p := items[p].(state := newState)];
      }
      var grandParent := items[p].parent;
      if grandParent >= 0 {
        UpdateParentTristate(grandParent);
      }
    }

    /**
     * The tree half of `on_item_changed` for row `i`: when it has rows they
     * take its state, then the items from its parent up are refreshed.
     */
    method Propagate(i: nat)
      requires WellFormed(items) && 1 <= i < |items|
      modifies this
      ensures items == ItemChanged(old(items), i)
    {
      ghost var items0 := items;
      var parent := items[i].parent as nat;
      if |items[i].children| > 0 {
        SetChildrenState(i, items[i].state);
      }
      assert items == Follow(items0, i);
      UpdateParentTristate(parent);
    }
  }
}
