/**
 * The main window of the Qt application, reduced to the state its handlers
 * keep: the item model behind the tree view, the extension list with its
 * check boxes, the filter of the proxy model, the selected paths with
 * their total size, and the `_updating` guard of `on_item_changed`.
 * Widgets, dialogs and threads are left out; the user's answer to the
 * sensitive-files question is a parameter.
 */
module QtWindow {
  import opened Wrappers
  import opened QtModel
  import opened QtTree
  import opened Sorting
  import Markdown

  /** What `generate_markdown` does with the current selection. */
  datatype GenerateOutcome =
    | NeedSelection                                    // warning: select at least one file
    | Declined(asked: seq<string>)                     // the user said no to the sensitive-files question
    | Started(asked: seq<string>, paths: seq<string>)  // `GenerateThread` runs on `paths`

  function Min(a: nat, b: nat): nat
  {
    if a < b then a else b
  }

  /**
   * `generate_markdown`: an empty selection only warns; otherwise the first
   * five flagged paths are shown in a question, and generation starts
   * unless the user answers no to it.
   */
  function GenerateRequest(selectedPaths: seq<string>, answersYes: bool): (r: GenerateOutcome)
    ensures r.NeedSelection? <==> |selectedPaths| == 0
    ensures r.Declined? <==>
              !answersYes && exists i :: 0 <= i < |selectedPaths| && Markdown.Flagged(selectedPaths[i], Markdown.PyKeywords)
    ensures r.Started? ==> r.paths == selectedPaths
    ensures !r.NeedSelection? ==>
              && (|r.asked| > 0 <==> exists i :: 0 <= i < |selectedPaths| && Markdown.Flagged(selectedPaths[i], Markdown.PyKeywords))
              && |r.asked| <= 5
              && forall p :: p in r.asked ==> p in selectedPaths && Markdown.Flagged(p, Markdown.PyKeywords)
  {
    if |selectedPaths| == 0 then NeedSelection
    else
      var sensitive := Markdown.SensitivePaths(selectedPaths, Markdown.PyKeywords);
      Markdown.HasSensitiveMeaning(selectedPaths, Markdown.PyKeywords);
      var asked := sensitive[..Min(5, |sensitive|)];
      assert |asked| > 0 ==> sensitive[0] in sensitive;
      assert forall p :: p in asked ==> p in sensitive;
      if |sensitive| > 0 && !answersYes then Declined(asked) else Started(asked, selectedPaths)
  }

  /** The extension list as `on_scan_finished` fills it: every entry checked. */
  function AllChecked(extensions: seq<string>): (r: seq<(string, bool)>)
    ensures |r| == |extensions| && forall k :: 0 <= k < |r| ==> r[k] == (extensions[k], true)
  {
    seq(|extensions|, k requires 0 <= k < |extensions| => (extensions[k], true))
  }

  /**
   * What a click on a user-checkable, not user-tristate check box does in
   * Qt: a checked box is cleared, any other is checked. The state always
   * changes, so the model always reports the change.
   */
  function Toggled(st: CheckState): (r: CheckState)
    ensures r != st && r != PartiallyChecked
    ensures r == Unchecked <==> st == Checked
  {
    if st == Checked then Unchecked else Checked
  }

  class MainWindow {
    const treeModel: ItemModel
    var fileMap: seq<(string, nat)>
    var extChecks: seq<(string, bool)>
    var allowed: Option<set<string>>
    var selectedPaths: seq<string>
    var selectedSize: nat
    var updating: bool

    /** The tree has the shape the handlers rely on. */
    ghost predicate Valid()
      reads this, treeModel
    {
      WellFormed(treeModel.items) && AllCheckable(treeModel.items)
    }

    constructor ()
      ensures Valid() && fresh(treeModel)
      ensures |treeModel.items| == 1 && fileMap == [] && extChecks == [] && allowed.None?
      ensures selectedPaths == [] && selectedSize == 0 && !updating
    {
      treeModel := new ItemModel();
      fileMap, extChecks, allowed := [], [], None;
      selectedPaths, selectedSize, updating := [], 0, false;
    }

    /**
     * `on_scan_finished` followed by `build_tree_model`: the tree is rebuilt
     * from the scan, every extension is listed checked and the filter allows
     * exactly the listed extensions (an empty list allows none). The old
     * selection is kept as it was.
     */
    method OnScanFinished(rootName: string, files: seq<(string, nat)>, extensions: seq<string>)
      returns (ghost pathToItem: map<string, nat>, ghost pathOf: seq<string>, ghost dirRows: nat)
      modifies this, treeModel
      ensures Valid()
      ensures DirRows(rootName, treeModel.items, pathToItem, pathOf, dirRows)
      ensures FileRows(treeModel.items, pathToItem, dirRows, files, |files|)
      ensures |files| > 0 ==> LeavesSized(treeModel.items)
      ensures NoDup(Paths(files)) ==> DistinctRelPaths(treeModel.items)
      ensures fileMap == files && extChecks == AllChecked(extensions)
      ensures allowed == Some(set x | x in extensions)
      ensures selectedPaths == old(selectedPaths) && selectedSize == old(selectedSize) && updating == old(updating)
    {
      fileMap := files;
      var items, m;
      items, m, pathOf, dirRows := BuildTreeModel(rootName, files);
      if |files| > 0 {
        BuiltLeavesSized(rootName, items, m, pathOf, dirRows, files);
      }
      pathToItem := m;
      treeModel.items := items;
      extChecks := AllChecked(extensions);
      allowed := Some(set x | x in extensions);
    }

    /** Whether the proxy model shows row `i` of the tree. */
    function RowShown(i: nat): (r: bool)
      requires i < |treeModel.items|
      reads this, treeModel
      ensures treeModel.items[i].ext.None? ==> r
      ensures allowed.None? ==> r
    {
      FilterAcceptsRow(allowed, treeModel.items[i].ext)
    }

    /** The user ticks or clears entry `k` of the extension list. */
    method ToggleExtension(k: nat, checked: bool)
      requires k < |extChecks|
      modifies this
      ensures extChecks == old(extChecks)[k := (old(extChecks)[k].0, checked)]
      ensures allowed == AllowedOf(extChecks)
      ensures fileMap == old(fileMap) && selectedPaths == old(selectedPaths) && selectedSize == old(selectedSize)
      ensures updating == old(updating)
    {
      extChecks := extChecks[k := (extChecks[k].0, checked)];
      OnExtensionFilterChanged();
    }

    /** `on_extension_filter_changed`: the checked entries become the filter, none of them means no filter. */
    method OnExtensionFilterChanged()
      modifies this
      ensures allowed == AllowedOf(extChecks)
      ensures extChecks == old(extChecks) && fileMap == old(fileMap)
      ensures selectedPaths == old(selectedPaths) && selectedSize == old(selectedSize) && updating == old(updating)
    {
      var names := CheckedExtensions(extChecks);
      allowed := if |names| > 0 then Some(set x | x in names) else None;
    }

    /**
     * `update_selected_size`: the checked files of the whole tree and their
     * total size, gathered by the corrected walk `AccumulateSelected`. In a
     * tree the size is the sum over the arena of the sizes of the checked
     * rows without rows, and the paths are distinct when the rows' paths
     * are. Where every row without rows has a size (any tree built from at
     * least one file) the walk as written gathers the same.
     */
    method UpdateSelectedSize()
      requires WellFormed(treeModel.items)
      modifies this
      ensures (selectedSize, selectedPaths) == Selected(treeModel.items, 0)
      ensures IsTree(treeModel.items) ==> selectedSize == CheckedTotal(treeModel.items, |treeModel.items|)
      ensures IsTree(treeModel.items) && DistinctRelPaths(treeModel.items) ==> NoDup(selectedPaths)
      ensures LeavesSized(treeModel.items) ==> Collect(treeModel.items, 0, true) == Some((selectedSize, selectedPaths))
      ensures fileMap == old(fileMap) && extChecks == old(extChecks) && allowed == old(allowed) && updating == old(updating)
    {
      selectedPaths := [];
      var total, paths := AccumulateSelected(treeModel.items, 0, selectedPaths);
      assert paths == Selected(treeModel.items, 0).1;
      selectedSize, selectedPaths := total, paths;
      if LeavesSized(treeModel.items) {
        LeavesSizedAgrees(treeModel.items);
      }
      assert paths[0..] == paths;
    }

    /**
     * `on_item_changed` for row `i`: while a change is being handled it
     * does nothing; otherwise the rows below `i` follow it, the items above
     * it are refreshed and the selection is gathered again, by the corrected
     * walk. Where every row without rows has a size, the walk as written
     * gathers the same and finishes, so the guard is released as in the
     * source.
     */
    method OnItemChanged(i: nat)
      requires Valid() && 1 <= i < |treeModel.items|
      modifies this, treeModel
      ensures Valid()
      ensures old(LeavesSized(treeModel.items)) ==> LeavesSized(treeModel.items)
      ensures !old(updating) && LeavesSized(treeModel.items) ==>
                Collect(treeModel.items, 0, true) == Some((selectedSize, selectedPaths))
      ensures old(updating) ==> treeModel.items == old(treeModel.items) && selectedPaths == old(selectedPaths) &&
                                selectedSize == old(selectedSize) && updating
      ensures !old(updating) ==> treeModel.items == ItemChanged(old(treeModel.items), i) && !updating &&
                                 (selectedSize, selectedPaths) == Selected(treeModel.items, 0)
      ensures fileMap == old(fileMap) && extChecks == old(extChecks) && allowed == old(allowed)
    {
      if updating {
        return;
      }
      updating := true;
      ghost var items0 := treeModel.items;
      ItemChangedCheckable(items0, i);
      if LeavesSized(items0) {
        SameShapeLeavesSized(items0, ItemChanged(items0, i));
      }
      treeModel.Propagate(i);
      UpdateSelectedSize();
      updating := false;
    }

    /**
     * The user clicks the check box of row `i`: Qt toggles it and, since the
     * state changed, reports the change. Row `i` ends toggled, and so does
     * every row below it. The selection is gathered by the corrected walk;
     * in a tree whose rows without rows all have a size it is what the walk
     * as written gathers.
     */
    method UserClicks(i: nat)
      requires Valid() && 1 <= i < |treeModel.items|
      modifies this, treeModel
      ensures Valid()
      ensures old(updating) ==>
                treeModel.items == Click(old(treeModel.items), i, Toggled(old(treeModel.items)[i].state)) && updating &&
                selectedPaths == old(selectedPaths) && selectedSize == old(selectedSize)
      ensures !old(updating) ==>
                treeModel.items == ItemChanged(Click(old(treeModel.items), i, Toggled(old(treeModel.items)[i].state)), i) &&
                !updating && (selectedSize, selectedPaths) == Selected(treeModel.items, 0)
      ensures treeModel.items[i].state == Toggled(old(treeModel.items)[i].state)
      ensures !old(updating) ==>
                forall j :: j in Under(treeModel.items, i) ==> treeModel.items[j].state == Toggled(old(treeModel.items)[i].state)
      ensures old(LeavesSized(treeModel.items)) ==> LeavesSized(treeModel.items)
      ensures !old(updating) && LeavesSized(treeModel.items) ==>
                Collect(treeModel.items, 0, true) == Some((selectedSize, selectedPaths))
      ensures fileMap == old(fileMap) && extChecks == old(extChecks) && allowed == old(allowed)
    {
      var st := Toggled(treeModel.items[i].state);
      ClickCheckable(treeModel.items, i, st);
      ghost var items0 := treeModel.items;
      treeModel.items := Click(treeModel.items, i, st);
      ghost var clicked := treeModel.items;
      assert clicked[i].state == st;
      if LeavesSized(items0) {
        SameShapeLeavesSized(items0, clicked);
      }
      ghost var wasUpdating := updating;
      OnItemChanged(i);
      if !wasUpdating {
        ItemChangedEffect(clicked, i, treeModel.items);
        UnderShape(clicked, treeModel.items, i);
      }
    }

    /** `generate_markdown` on the current selection. */
    function GenerateMarkdown(answersYes: bool): (r: GenerateOutcome)
      reads this
      ensures r.NeedSelection? <==> |selectedPaths| == 0
      ensures r.Started? ==> r.paths == selectedPaths
    {
      GenerateRequest(selectedPaths, answersYes)
    }
  }

  /**
   * In a tree, what `on_item_changed` leaves is a tree whose selection
   * totals the checked rows without rows, each once, and whose selected
   * paths are distinct when the rows' paths are.
   */
  lemma ItemChangedSelection(items: seq<Item>, i: nat)
    requires IsTree(items) && 1 <= i < |items|
    ensures IsTree(ItemChanged(items, i))
    ensures Selected(ItemChanged(items, i), 0).0 == CheckedTotal(ItemChanged(items, i), |items|)
    ensures DistinctRelPaths(items) ==> DistinctRelPaths(ItemChanged(items, i)) && NoDup(Selected(ItemChanged(items, i), 0).1)
  {
    var r := ItemChanged(items, i);
    SameShapeTree(items, r);
    SelectedTotal(r);
    if DistinctRelPaths(items) {
      SameShapeDistinct(items, r);
      SelectedNoDup(r);
    }
  }

  /** The same after a click on row `i`: Qt's toggle, then `on_item_changed`. */
  lemma ClickSelection(items: seq<Item>, i: nat)
    requires IsTree(items) && 1 <= i < |items|
    ensures IsTree(Click(items, i, Toggled(items[i].state)))
    ensures var r := ItemChanged(Click(items, i, Toggled(items[i].state)), i);
              IsTree(r) && Selected(r, 0).0 == CheckedTotal(r, |items|) &&
              (DistinctRelPaths(items) ==> DistinctRelPaths(r) && NoDup(Selected(r, 0).1))
  {
    var clicked := Click(items, i, Toggled(items[i].state));
    SameShapeTree(items, clicked);
    if DistinctRelPaths(items) {
      SameShapeDistinct(items, clicked);
    }
    ItemChangedSelection(clicked, i);
  }

  /** `on_item_changed` keeps every row after the root checkable. */
  lemma ItemChangedCheckable(items: seq<Item>, i: nat)
    requires WellFormed(items) && AllCheckable(items) && 1 <= i < |items|
    ensures AllCheckable(ItemChanged(items, i))
  {
    var r := ItemChanged(items, i);
    forall j | 1 <= j < |r|
      ensures r[j].checkable
    {
      assert r[j].(state := Unchecked).checkable == items[j].(state := Unchecked).checkable;
    }
  }
}
