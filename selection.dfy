/**
 * The selection state of the extension's webview (`fileMap`,
 * `selectedPaths`, `extensionFilters`, `prevSelected`, and the jsTree
 * selection and visibility it drives) with the handlers that reassign it,
 * and the selection rule shared with the root `script.js`: the selected
 * paths are the selected ids that are `fileMap` keys, in selection order,
 * and the displayed total is the sum of their sizes.
 */
module Selection {
  import opened Sorting
  import opened Extension
  import opened Webview

  /** `ids.filter(id => fileMap[id])`: the selected ids that are file keys, in selection order. */
  function SelectedFiles(ids: seq<string>, fileMap: map<string, nat>): (r: seq<string>)
    ensures forall x :: x in r <==> x in ids && x in fileMap
    ensures |r| <= |ids|
  {
    if |ids| == 0 then []
    else (if ids[0] in fileMap then [ids[0]] else []) + SelectedFiles(ids[1..], fileMap)
  }

  /** The filter keeps order: it distributes over concatenation. */
  lemma {:induction false} SelectedFilesAppend(a: seq<string>, b: seq<string>, fileMap: map<string, nat>)
    ensures SelectedFiles(a + b, fileMap) == SelectedFiles(a, fileMap) + SelectedFiles(b, fileMap)
  {
    if |a| == 0 {
      assert a + b == b;
    } else {
      assert (a + b)[0] == a[0];
      assert (a + b)[1..] == a[1..] + b;
      SelectedFilesAppend(a[1..], b, fileMap);
    }
  }

  /** A list of file keys is kept whole, so filtering twice changes nothing. */
  lemma {:induction false} SelectedFilesOfKeys(ids: seq<string>, fileMap: map<string, nat>)
    requires forall x :: x in ids ==> x in fileMap
    ensures SelectedFiles(ids, fileMap) == ids
  {
    if |ids| > 0 {
      SelectedFilesOfKeys(ids[1..], fileMap);
    }
  }

  lemma SelectedFilesIdempotent(ids: seq<string>, fileMap: map<string, nat>)
    ensures SelectedFiles(SelectedFiles(ids, fileMap), fileMap) == SelectedFiles(ids, fileMap)
  {
    SelectedFilesOfKeys(SelectedFiles(ids, fileMap), fileMap);
  }

  /** The size `fileMap[path]?.size || 0`. */
  function SizeOf(path: string, fileMap: map<string, nat>): nat
  {
    if path in fileMap then fileMap[path] else 0
  }

  /** `paths.reduce((sum, path) => sum + (fileMap[path]?.size || 0), 0)`. */
  function TotalBytes(paths: seq<string>, fileMap: map<string, nat>): nat
  {
    if |paths| == 0 then 0 else SizeOf(paths[0], fileMap) + TotalBytes(paths[1..], fileMap)
  }

  lemma {:induction false} TotalBytesAppend(a: seq<string>, b: seq<string>, fileMap: map<string, nat>)
    ensures TotalBytes(a + b, fileMap) == TotalBytes(a, fileMap) + TotalBytes(b, fileMap)
  {
    if |a| == 0 {
      assert a + b == b;
    } else {
      assert (a + b)[0] == a[0];
      assert (a + b)[1..] == a[1..] + b;
      TotalBytesAppend(a[1..], b, fileMap);
    }
  }

  /** Ids that are not keys add nothing: the total of the selected paths is the total of all selected ids. */
  lemma {:induction false} TotalOfSelected(ids: seq<string>, fileMap: map<string, nat>)
    ensures TotalBytes(SelectedFiles(ids, fileMap), fileMap) == TotalBytes(ids, fileMap)
  {
    if |ids| > 0 {
      TotalOfSelected(ids[1..], fileMap);
      TotalBytesAppend(if ids[0] in fileMap then [ids[0]] else [], SelectedFiles(ids[1..], fileMap), fileMap);
    }
  }

  /** Each selected path's size is part of the total. */
  lemma {:induction false} TotalCoversEach(paths: seq<string>, fileMap: map<string, nat>, x: string)
    requires x in paths
    ensures SizeOf(x, fileMap) <= TotalBytes(paths, fileMap)
  {
    if paths[0] != x {
      TotalCoversEach(paths[1..], fileMap, x);
    }
  }

  /** The ids left selected after `deselect_node` on every id in `drop`. */
  function Deselect(sel: seq<string>, drop: set<string>): (r: seq<string>)
    ensures forall x :: x in r <==> x in sel && x !in drop
  {
    if |sel| == 0 then []
    else (if sel[0] in drop then [] else [sel[0]]) + Deselect(sel[1..], drop)
  }

  lemma {:induction false} DeselectMore(sel: seq<string>, drop: set<string>, x: string)
    ensures Deselect(Deselect(sel, drop), {x}) == Deselect(sel, drop + {x})
  {
    if |sel| > 0 {
      DeselectMore(sel[1..], drop, x);
      var head := if sel[0] in drop then [] else [sel[0]];
      assert Deselect(sel, drop) == head + Deselect(sel[1..], drop);
      DeselectAppend(head, Deselect(sel[1..], drop), {x});
    }
  }

  lemma {:induction false} DeselectAppend(a: seq<string>, b: seq<string>, drop: set<string>)
    ensures Deselect(a + b, drop) == Deselect(a, drop) + Deselect(b, drop)
  {
    if |a| == 0 {
      assert a + b == b;
    } else {
      assert (a + b)[0] == a[0];
      assert (a + b)[1..] == a[1..] + b;
      DeselectAppend(a[1..], b, drop);
    }
  }

  lemma {:induction false} DeselectNothing(sel: seq<string>)
    ensures Deselect(sel, {}) == sel
  {
    if |sel| > 0 {
      DeselectNothing(sel[1..]);
    }
  }

  /** The file nodes `applyExtensionFilter` hides: those whose extension is unchecked. */
  function FilteredOut(fileNodes: seq<string>, filters: set<string>): set<string>
  {
    set x | x in fileNodes && GetExtension(x) !in filters
  }

  lemma FilteredOutStep(fileNodes: seq<string>, i: nat, filters: set<string>)
    requires i < |fileNodes|
    ensures forall x :: x in fileNodes[..i + 1] <==> x in fileNodes[..i] || x == fileNodes[i]
    ensures FilteredOut(fileNodes[..i + 1], filters) ==
              FilteredOut(fileNodes[..i], filters) + (if GetExtension(fileNodes[i]) in filters then {} else {fileNodes[i]})
  {
    assert fileNodes[..i + 1] == fileNodes[..i] + [fileNodes[i]];
  }

  /**
   * `tree.select_node(list)`: the ids of `xs` not yet selected are added, in
   * order. jsTree ignores an id that names no node; the model takes every id
   * passed to it to name a node, which holds for `fileMap` keys when no
   * directory joins to the root id (`Webview.WebviewTree`, `Webview.IdAtJoin`).
   */
  function AddSelection(sel: seq<string>, xs: seq<string>): (r: seq<string>)
    ensures forall x :: x in r <==> x in sel || x in xs
    ensures NoDup(sel) ==> NoDup(r)
    decreases |xs|
  {
    if |xs| == 0 then sel
    else AddSelection(if xs[0] in sel then sel else sel + [xs[0]], xs[1..])
  }

  /** Ids that are all selected already add nothing: `select_node` leaves the selection as it was. */
  lemma {:induction false} AddSelectionNothingNew(sel: seq<string>, xs: seq<string>)
    ensures (forall x :: x in xs ==> x in sel) <==> AddSelection(sel, xs) == sel
    decreases |xs|
  {
    if |xs| > 0 {
      if xs[0] in sel {
        AddSelectionNothingNew(sel, xs[1..]);
        assert forall x :: x in xs ==> x == xs[0] || x in xs[1..];
      } else {
        assert xs[0] in AddSelection(sel, xs);
      }
    }
  }

  /** One `{path, size, extension}` entry of the `folderData` message. */
  datatype FileInfo = FileInfo(path: string, size: nat, extension: string)

  /** `fileMap` after the `forEach`: each path maps to the size of its last entry. */
  function FileMapOf(files: seq<FileInfo>): map<string, nat>
  {
    if |files| == 0 then map[]
    else
      var f := files[|files| - 1];
      FileMapOf(files[..|files| - 1])[f.path := f.size]
  }

  /** `Object.keys(fileMap)`: the paths in order of their first entry. */
  function KeysOf(files: seq<FileInfo>): seq<string>
  {
    if |files| == 0 then []
    else
      var ks := KeysOf(files[..|files| - 1]);
      var f := files[|files| - 1];
      if f.path in ks then ks else ks + [f.path]
  }

  /** `allExtensions` after the `forEach`. */
  function ExtensionsOf(files: seq<FileInfo>): set<string>
  {
    if |files| == 0 then {}
    else ExtensionsOf(files[..|files| - 1]) + {files[|files| - 1].extension}
  }

  /** A path is a key exactly when some entry has it; the keys are listed once each, in the same set. */
  lemma {:induction false} FileKeys(files: seq<FileInfo>)
    ensures forall x :: x in FileMapOf(files) <==> exists i :: 0 <= i < |files| && files[i].path == x
    ensures forall x :: x in KeysOf(files) <==> x in FileMapOf(files)
    ensures NoDup(KeysOf(files))
  {
    if |files| > 0 {
      var init := files[..|files| - 1];
      FileKeys(init);
      assert forall i :: 0 <= i < |init| ==> init[i] == files[i];
      var ks := KeysOf(init);
      var f := files[|files| - 1];
      if f.path !in ks {
        assert forall i :: 0 <= i < |ks| ==> (ks + [f.path])[i] == ks[i];
      }
    }
  }

  /** An extension is listed exactly when some entry has it. */
  lemma {:induction false} FileExtensions(files: seq<FileInfo>)
    ensures forall e :: e in ExtensionsOf(files) <==> exists i :: 0 <= i < |files| && files[i].extension == e
  {
    if |files| > 0 {
      var init := files[..|files| - 1];
      FileExtensions(init);
      assert forall i :: 0 <= i < |init| ==> init[i] == files[i];
    }
  }

  /** A later entry for the same path overrides the size of an earlier one. */
  lemma {:induction false} FileMapLast(files: seq<FileInfo>, i: nat)
    requires i < |files|
    requires forall j :: i < j < |files| ==> files[j].path != files[i].path
    ensures files[i].path in FileMapOf(files) && FileMapOf(files)[files[i].path] == files[i].size
  {
    if i < |files| - 1 {
      var init := files[..|files| - 1];
      assert init[i] == files[i];
      FileMapLast(init, i);
    }
  }

  /**
   * The `allFileNodes.each` loop of `applyExtensionFilter` on the selection
   * `sel0` and hidden set `hid0`: a node whose extension is checked is shown,
   * any other is hidden and deselected.
   */
  method FilterNodes(fileNodes: seq<string>, filters: set<string>, sel0: seq<string>, hid0: set<string>)
    returns (sel: seq<string>, hid: set<string>)
    ensures forall x :: x in hid <==> (x in FilteredOut(fileNodes, filters) || (x in hid0 && x !in fileNodes))
    ensures sel == Deselect(sel0, FilteredOut(fileNodes, filters))
  {
    sel := sel0;
    hid := hid0;
    var i := 0;
    DeselectNothing(sel0);
    assert FilteredOut(fileNodes[..0], filters) == {};
    while i < |fileNodes|
      invariant i <= |fileNodes|
      invariant forall x :: x in hid <==>
                  (x in FilteredOut(fileNodes[..i], filters) || (x in hid0 && x !in fileNodes[..i]))
      invariant sel == Deselect(sel0, FilteredOut(fileNodes[..i], filters))
    {
      var nodeId := fileNodes[i];
      var ext := GetExtension(nodeId);
      var shouldShow := ext in filters;
      FilteredOutStep(fileNodes, i, filters);
      if shouldShow {
        hid := hid - {nodeId};
        assert FilteredOut(fileNodes[..i + 1], filters) == FilteredOut(fileNodes[..i], filters);
      } else {
        hid := hid + {nodeId};
        DeselectMore(sel0, FilteredOut(fileNodes[..i], filters), nodeId);
        sel := Deselect(sel, {nodeId});
      }
      i := i + 1;
    }
    assert fileNodes[..|fileNodes|] == fileNodes;
  }

  /** The `msg.files.forEach` loop of the `folderData` handler. */
  method ReadFiles(files: seq<FileInfo>) returns (m: map<string, nat>, ks: seq<string>, exts: set<string>)
    ensures m == FileMapOf(files) && ks == KeysOf(files) && exts == ExtensionsOf(files)
  {
    m := map[];
    ks := [];
    exts := {};
    var i := 0;
    while i < |files|
      invariant i <= |files|
      invariant m == FileMapOf(files[..i]) && ks == KeysOf(files[..i])
      invariant exts == ExtensionsOf(files[..i])
    {
      var f := files[i];
      assert files[..i + 1][..i] == files[..i];
      FileKeys(files[..i]);
      if f.path !in m {
        ks := ks + [f.path];
      }
      m := m[f.path := f.size];
      exts := exts + {f.extension};
      i := i + 1;
    }
    assert files[..|files|] == files;
  }

  /**
   * The webview's state. `selected` is jsTree's selection (`get_selected()`),
   * `hidden` the nodes `hide_node` has hidden, `nodes` the tree's data.
   */
  class Session {
    var projectName: string
    var fileMap: map<string, nat>
    var keys: seq<string>
    var allExtensions: set<string>
    var extensionFilters: set<string>
    var nodes: seq<Record>
    var selected: seq<string>
    var hidden: set<string>
    var selectedPaths: seq<string>
    var totalBytes: nat
    var prevSelected: seq<string>

    /** `selectedPaths` and the displayed total agree with the selection. */
    ghost predicate Consistent()
      reads this
    {
      selectedPaths == SelectedFiles(selected, fileMap) && totalBytes == TotalBytes(selectedPaths, fileMap)
    }

    /** The script's initial state. */
    constructor ()
      ensures projectName == "" && fileMap == map[] && keys == [] && allExtensions == {} && extensionFilters == {}
      ensures nodes == [] && selected == [] && hidden == {} && selectedPaths == [] && totalBytes == 0 && prevSelected == []
      ensures Consistent()
    {
      projectName := "";
      fileMap := map[];
      keys := [];
      allExtensions := {};
      extensionFilters := {};
      nodes := [];
      selected := [];
      hidden := {};
      selectedPaths := [];
      totalBytes := 0;
      prevSelected := [];
    }

    /** `updateSelectedInfo()`: recompute `selectedPaths` and the total from the selection. */
    method UpdateSelectedInfo()
      modifies this
      ensures selectedPaths == SelectedFiles(selected, fileMap)
      ensures totalBytes == TotalBytes(selectedPaths, fileMap) == TotalBytes(selected, fileMap)
      ensures forall x :: x in selectedPaths <==> x in selected && x in fileMap
      ensures Consistent()
      ensures projectName == old(projectName) && fileMap == old(fileMap) && keys == old(keys)
      ensures allExtensions == old(allExtensions) && extensionFilters == old(extensionFilters)
      ensures nodes == old(nodes) && selected == old(selected) && hidden == old(hidden) && prevSelected == old(prevSelected)
    {
      selectedPaths := SelectedFiles(selected, fileMap);
      totalBytes := TotalBytes(selectedPaths, fileMap);
      TotalOfSelected(selected, fileMap);
    }

    /** The `changed.jstree` handler, after jsTree's selection became `ids`. */
    method Changed(ids: seq<string>)
      modifies this
      ensures selected == ids
      ensures selectedPaths == SelectedFiles(ids, fileMap) && Consistent()
      ensures projectName == old(projectName) && fileMap == old(fileMap) && keys == old(keys)
      ensures allExtensions == old(allExtensions) && extensionFilters == old(extensionFilters)
      ensures nodes == old(nodes) && hidden == old(hidden) && prevSelected == old(prevSelected)
    {
      selected := ids;
      UpdateSelectedInfo();
    }

    /**
     * `applyExtensionFilter()` over the file nodes `fileNodes`: show those
     * whose extension is checked, hide and deselect the others, then update
     * the selection info.
     */
    method ApplyExtensionFilter(fileNodes: seq<string>)
      modifies this
      ensures forall x :: x in hidden <==>
                (x in FilteredOut(fileNodes, extensionFilters) || (x in old(hidden) && x !in fileNodes))
      ensures selected == Deselect(old(selected), FilteredOut(fileNodes, extensionFilters))
      ensures selectedPaths == SelectedFiles(selected, fileMap) && Consistent()
      ensures forall x :: x in selectedPaths ==> x in fileMap && (x in fileNodes ==> GetExtension(x) in extensionFilters)
      ensures projectName == old(projectName) && fileMap == old(fileMap) && keys == old(keys)
      ensures allExtensions == old(allExtensions) && extensionFilters == old(extensionFilters)
      ensures nodes == old(nodes) && prevSelected == old(prevSelected)
    {
      var sel, hid := FilterNodes(fileNodes, extensionFilters, selected, hidden);
      selected := sel;
      hidden := hid;
      UpdateSelectedInfo();
    }

    /**
     * `restoreSelected()`: select the remembered paths that are still
     * `fileMap` keys, then forget them. `select_node` is called without
     * suppressing events, so when it selects a node that was not selected
     * jsTree fires `changed.jstree`, whose handler runs `updateSelectedInfo()`.
     */
    method RestoreSelected()
      modifies this
      ensures forall x :: x in selected <==> x in old(selected) || (x in old(prevSelected) && x in fileMap)
      ensures NoDup(old(selected)) ==> NoDup(selected)
      ensures prevSelected == []
      ensures (exists x :: x in old(prevSelected) && x in fileMap && x !in old(selected)) ==> Consistent()
      ensures old(Consistent()) ==> Consistent()
      ensures !(exists x :: x in old(prevSelected) && x in fileMap && x !in old(selected)) ==>
                selected == old(selected) && selectedPaths == old(selectedPaths) && totalBytes == old(totalBytes)
      ensures projectName == old(projectName) && fileMap == old(fileMap) && keys == old(keys)
      ensures allExtensions == old(allExtensions) && extensionFilters == old(extensionFilters)
      ensures nodes == old(nodes) && hidden == old(hidden)
    {
      var toSelect := SelectedFiles(prevSelected, fileMap);
      if |toSelect| > 0 {
        var grown := AddSelection(selected, toSelect);
        AddSelectionNothingNew(selected, toSelect);
        if grown != selected {
          selected := grown;
          UpdateSelectedInfo();
        }
      }
      prevSelected := [];
    }

    /**
     * The `ready.jstree` handler: `applyExtensionFilter()`, then
     * `restoreSelected()`. Afterwards the displayed paths and total agree
     * with the selection.
     */
    method Ready(fileNodes: seq<string>)
      modifies this
      ensures Consistent()
      ensures forall x :: x in selected <==>
                (x in Deselect(old(selected), FilteredOut(fileNodes, extensionFilters)) ||
                 (x in old(prevSelected) && x in fileMap))
      ensures prevSelected == []
      ensures projectName == old(projectName) && fileMap == old(fileMap) && keys == old(keys)
      ensures allExtensions == old(allExtensions) && extensionFilters == old(extensionFilters)
      ensures nodes == old(nodes)
    {
      ApplyExtensionFilter(fileNodes);
      RestoreSelected();
    }

    /** `buildTree()`: the tree's data from the keys; a new tree has nothing selected or hidden. */
    method RebuildTree()
      modifies this
      ensures nodes == TreeNodes(keys, projectName)
      ensures selected == [] && hidden == {}
      ensures projectName == old(projectName) && fileMap == old(fileMap) && keys == old(keys)
      ensures allExtensions == old(allExtensions) && extensionFilters == old(extensionFilters)
      ensures selectedPaths == old(selectedPaths) && totalBytes == old(totalBytes) && prevSelected == old(prevSelected)
    {
      var built := BuildNodes(keys, projectName);
      nodes, selected, hidden := built, [], {};
    }

    /**
     * The `folderData` message: remember the selected paths, refill
     * `fileMap` and the extensions, check every extension, and rebuild the
     * tree (whose selection and hidden set start empty).
     */
    method FolderData(name: string, files: seq<FileInfo>)
      modifies this
      ensures prevSelected == old(selectedPaths)
      ensures projectName == name
      ensures fileMap == FileMapOf(files) && keys == KeysOf(files)
      ensures allExtensions == ExtensionsOf(files) && extensionFilters == allExtensions
      ensures nodes == TreeNodes(keys, name)
      ensures selected == [] && hidden == {}
      ensures selectedPaths == old(selectedPaths) && totalBytes == old(totalBytes)
    {
      prevSelected := selectedPaths;
      projectName := name;
      var m, ks, exts := ReadFiles(files);
      fileMap := m;
      keys := ks;
      allExtensions := exts;
      extensionFilters := exts;
      RebuildTree();
    }
  }
}
