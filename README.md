# repo2md, modelled in Dafny

repo2md turns a source directory into one Markdown document. A document has three parts:

- a title;
- an ASCII drawing of the selected files' directory tree;
- one fenced section per selected file.

The tool has five front ends. Each has a checkbox tree where the user picks the files.

| Front end | Where in the repository |
|---|---|
| Mobile web page, which unpacks an uploaded archive | `mobile/script.js` |
| Earlier web page | `script.js` |
| VS Code extension, with a webview | `repo2md-vscode/src/extension.ts`, and its compiled earlier variant `extension.js` |
| Qt desktop application | `repo2md_gui/repo2md_gui.py` |

This project models the logic the front ends share. It also models each front end's own variant of that logic, including the quirks.

**Archive reading (mobile page)**
- `Tar` is the TAR member reader. It walks 512-byte ustar headers. The name field sits at offset 0, the size field at 124, the type flag at 156 and the prefix at 345.
- `Archive` maps an upload's suffix to its format.

**Classification**
- `Extension` computes a path's extension. The earlier `script.js` keeps the case; the other variants lower-case it.
- `Binary` holds the three binary classifiers:
  - the mobile test: a two-byte signature, then a scan for a NUL byte;
  - the VS Code test: a four-byte probe;
  - the Python test, which also returns a reason.

**Trees and documents**
- `DirTree` is the nested-object tree and the ASCII drawing of the JavaScript front ends. It reproduces the connector rule: every sibling takes its connector and indent from the parent call's `isLast` flag.
- `PyTree` is the Python `_build_tree`. Each item there uses its own last flag, and a later file can replace a directory.
- `Markdown` assembles the documents of every front end. It also holds the sensitive-path checks and the export file name.

**Checkbox views**
- `Webview` flattens a tree into the `{id, parent}` records of jsTree. It includes the id rule that restarts below a directory named like the root id, and the filtered tree of `script.js`.
- `Selection` holds the webview's selection state, as a class:
  - the selected paths and their total;
  - the extension filter;
  - restoring the selection after a rescan.
- `QtModel`, `QtTree` and `QtWindow` model the Qt tree as a class over an arena of items:
  - the layout that `build_tree_model` builds;
  - the tri-state cascade of `on_item_changed`;
  - the gathering of the checked files;
  - the proxy's extension filter;
  - the `generate_markdown` decision.

**Support modules**
- `Text`: split, join, lower-casing and search on strings.
- `Sorting`: a stable insertion sort by an integer-sequence key.
- `Wrappers`: `Option` and `Result`.

Every operation that the source writes as a loop or as recursion over mutable state is a Dafny `method`. Each method is proved equal to a specification function, and the properties are lemmas about those functions.

Some things are inputs to the model rather than modelled:

- File contents: the first bytes and the text, or a failure.
- The user's answer to a confirmation question.
- An ISO timestamp.
- The order of JavaScript object keys and Python dictionary keys, taken as insertion order. Python dictionaries keep it. JavaScript objects list array-index-like keys (such as `1` or `2024`) first, in numeric order; see "## Left out".

## Model

| member | source | states |
|---|---|---|
| Archive.DispatchMeaning | mobile/script.js:175-218 | The lower-cased text after the last `.` alone decides the format: `zip` is ZIP, `tar` is TAR, `gz` or `tgz` is gzip-compressed TAR; any other suffix is the unsupported-format error, and the `.tar.gz` test never adds a case |
| Archive.TarGzHasGzSuffix | mobile/script.js:211 | A name ending in `.tar.gz` already has the suffix `gz` |
| Archive.UpperCaseSuffix | mobile/script.js:176-177 | Example: the name is lower-cased first, so `Src.TGZ` is unpacked as gzip-compressed TAR |
| Archive.DotlessName | mobile/script.js:177 | Example: a name without a dot is its own suffix, so an upload called `zip` counts as ZIP |
| Tar.NulFreeLength | mobile/script.js:126-127 | The length of the NUL-free start of a field: every byte before it is non-zero, and the byte at it is zero when it is inside the field |
| Tar.CField | mobile/script.js:125-134 | A C-string header field is the field's bytes up to the first NUL, at most the field width, and holds no NUL |
| Tar.ScanCField | mobile/script.js:125-134 | The `while` loop that finds the end of the name or prefix field returns exactly that C-string field |
| Tar.DropNulSpace | mobile/script.js:141-145 | The size characters keep no NUL and no space byte, and there are no more of them than field bytes |
| Tar.DropNulSpaceAppend | mobile/script.js:141-145 | Dropping NUL and space bytes distributes over concatenation |
| Tar.DropNulSpaceZeros | mobile/script.js:141-145 | An all-zero size field leaves no size characters |
| Tar.ScanSizeField | mobile/script.js:141-145 | The loop over bytes 124 to 135 collects exactly the field's bytes other than NUL and space |
| Tar.SkipSpaces | mobile/script.js:146 | `parseInt` skips leading white space: the index returned is the first byte that is not a space |
| Tar.DigitsEnd | mobile/script.js:146 | The end of the run of octal digits that `parseInt(…, 8)` reads |
| Tar.ParseMinus1130 | mobile/script.js:146 | `parseInt("-1130", 8)` is -600: the parse accepts a sign |
| Tar.SizeFieldMinus1130 | mobile/script.js:141-146 | A size field of `-1130` and NUL padding yields the size characters `-1130` |
| Tar.CeilBlocksBounds | mobile/script.js:166-167 | For a non-negative size, whole blocks cover the content with less than one block of padding |
| Tar.Advance | mobile/script.js:153-167 | With the clamped size, the next offset moves past the header and the whole content, by a multiple of 512 |
| Tar.AdvanceAgrees | mobile/script.js:146-167 | For a header whose size does not parse negative, the clamped advance equals the advance as written |
| Tar.NegativeSizeStalls | mobile/script.js:166-167 | As written, a size from -1023 to -512 leaves the offset where it was, so the loop does not end |
| Tar.NegativeSizeFieldStalls | mobile/script.js:141-167 | A header whose size field reads `-1130` parses to -600. As written it stalls the reader; with the clamped size the reader moves on by one block |
| Tar.StripDotSlash | mobile/script.js:159 | One leading `./` is removed from an emitted name, and any other name is kept |
| Tar.FullName | mobile/script.js:125-138 | The name `prefix/name`, or the bare name when the prefix field is empty, holds no NUL byte |
| Tar.ScanZeroBlock | mobile/script.js:115-122 | The empty-block loop reports the end marker exactly when all 512 header bytes are zero |
| Tar.NulFreeLengthUnique | mobile/script.js:126-127 | The NUL-free length is the only index with NUL-free bytes before it and a NUL at it |
| Tar.DropNulSpaceSnoc | mobile/script.js:142-145 | One more byte adds a size character exactly when it is neither NUL nor space |
| Tar.ReadHeader | mobile/script.js:124-150 | One header yields its full name, its clamped size and its directory flag (type `5`) |
| Tar.ReadMember | mobile/script.js:110-167 | One turn of the loop reports the end marker, emits the member exactly when the header is not a directory, has a name and has a positive size, and moves to the clamped advance |
| Tar.ParseFromStep | mobile/script.js:110-168 | One step of the walk: the member of the header at `offset`, if any, comes before the walk from the next offset, so records come out in header order |
| Tar.ParseFromEnd | mobile/script.js:110 | No header is read once fewer than 513 bytes remain after `offset` |
| Tar.Parse | mobile/script.js:104-171 | The `while` loop of `TarParser.parse` returns exactly the walk from offset 0, the records in header order |
| Tar.ParseCount | mobile/script.js:110-167 | Each record costs at least one block, so a walk yields no more records than there are blocks after its offset |
| Tar.ShortBufferYieldsNothing | mobile/script.js:110 | A buffer of at most 512 bytes yields nothing, because a header is read only while `offset < length - 512` |
| Tar.ZeroBlockStops | mobile/script.js:114-122 | An all-zero block at the offset ends the walk |
| Tar.ParseRecords | mobile/script.js:155-163 | Every record has a positive size, content no longer than that size, and a NUL-free name |
| Tar.EntryContentExact | mobile/script.js:157 | When the buffer holds the whole declared size, the content is exactly that long |
| Extension.BaseName | mobile/script.js:32-33 | The final `/`-separated segment holds no `/` |
| Extension.RawExtensionMeaning | script.js:9-14 | A base name without a dot gives `[无后缀]`. Otherwise the result is the dot-free text after the last dot, and the base name ends with `.` plus it |
| Extension.NoDot | script.js:12-13 | Without a dot, `lastIndexOf('.')` is -1 |
| Extension.DotTail | script.js:12-13 | The text after the last dot holds no dot and no `/`, and the file name ends with `.` plus it |
| Extension.GetExtensionIsLowerRaw | repo2md-vscode/src/extension.ts:55-60 | The lower-casing variants are the case-keeping variant of `script.js`, folded to lower case |
| Extension.ExtensionHasNoSeparators | repo2md-vscode/src/extension.ts:55-60 | The extension never holds `/` or `.` |
| Extension.ExtensionOfNestedPath | repo2md_gui/repo2md_gui.py:40-46 | Only the final segment matters: a directory in front never changes the extension |
| Extension.UpperCaseExtension | script.js:9-14 | Example: `src/A.JS` has the extension `js` in every variant but `script.js`, where it is `JS` |
| Extension.ImageExtension | mobile/script.js:31-36 | Example: `a.png` has the extension `png` in every variant |
| Binary.Header | mobile/script.js:82 | `file.slice(0, 512)` delivers the first `min(512, length)` bytes |
| Binary.IsBinaryMobile | mobile/script.js:77-101 | The mobile classifier's loop returns the verdict of the specification: a denylisted extension, a failed read, a listed signature, or a NUL in the first 512 bytes |
| Binary.MobileOnlyHeaderMatters | mobile/script.js:82-95 | Bytes after the first 512 never change the mobile verdict |
| Binary.MobileZeroPairRedundant | mobile/script.js:86-95 | Binary exactly when the extension is denylisted, the first two bytes are one of the four non-zero pairs, or a NUL is among the first 512 bytes. The `00 00` test never decides anything |
| Binary.MobileTextFile | mobile/script.js:77-101 | Readable content with no NUL byte and no listed signature is text; empty content in particular |
| Binary.MobileMissesZipAndGzip | mobile/script.js:86-90 | The ZIP (`PK`) and gzip (`1F 8B`) signatures are not in the mobile list: without a NUL byte such content is text |
| Binary.DesktopSignatureMeaning | repo2md-vscode/src/extension.ts:63-85 | For a readable file of at least four bytes with an allowed extension, it is binary exactly when it starts with `%PDF`, `89 PNG`, `FF D8 FF`, `PK` or `1F 8B` |
| Binary.DesktopShortReadIsText | repo2md-vscode/src/extension.js:71-72 | Fewer than four bytes read is text, even for a file holding only `PK` |
| Binary.DeniedOrUnreadableIsBinary | repo2md-vscode/src/extension.ts:64-83 | A denylisted extension is binary whatever the bytes, and a failed read is binary in both the desktop and the mobile classifier |
| Binary.DesktopOnlyFirstFourMatter | repo2md-vscode/src/extension.ts:68-80 | Bytes after the fourth never change the desktop verdict |
| Binary.DenylistsNested | mobile/script.js:10-21 | The mobile denylist contains the desktop one, and `svg` is only in the mobile list |
| Binary.PyAgreesWithDesktop | repo2md_gui/repo2md_gui.py:48-74 | With the magic check on, the Python verdict is the VS Code verdict. With it off, only the denylist counts |
| Binary.PyReasonIffBinary | repo2md_gui/repo2md_gui.py:48-74 | A non-empty reason is returned exactly when the file is judged binary |
| Sorting.LessTransitive | repo2md-vscode/src/extension.ts:134-139 | The comparison key order is transitive |
| Sorting.LessTotal | repo2md-vscode/src/extension.ts:134-139 | Any two keys are equal or ordered one way |
| Sorting.NotLessTransitive | repo2md-vscode/src/extension.ts:134-139 | "Not greater" is transitive, so ties form a total preorder |
| Sorting.Insert | repo2md-vscode/src/extension.ts:134 | Insertion adds exactly one element and keeps the multiset |
| Sorting.Sort | repo2md-vscode/src/extension.ts:134 | The sort is a permutation of its input |
| Sorting.SortSorted | repo2md-vscode/src/extension.ts:134-139 | The sort's output is ordered by the key |
| Sorting.SortMembers | repo2md_gui/repo2md_gui.py:173-174 | Sorting keeps exactly the elements it was given |
| Sorting.SortNoDup | repo2md_gui/repo2md_gui.py:456 | Sorting a sequence without repetitions yields one without repetitions |
| Text.Split | repo2md-vscode/src/extension.ts:124 | `split('/')` gives at least one part, none holding `/` |
| Text.JoinSplit | repo2md_gui/repo2md_gui.py:450-452 | Joining the parts of a split with the separator gives the string back |
| Text.SplitJoin | repo2md_gui/repo2md_gui.py:459-460 | Splitting a join of separator-free parts gives the parts back |
| Text.CountJoin | repo2md_gui/repo2md_gui.py:456 | A join of `n` separator-free parts holds `n - 1` separators: `count('/')` is the depth |
| Text.LastIndexOf | mobile/script.js:34 | `lastIndexOf`/`rfind`: -1 or an index holding the character, with none of it after |
| Text.Lower | mobile/script.js:35 | ASCII lower-casing, character by character, keeping the length |
| Text.ContainsAt | mobile/script.js:591 | `includes` holds exactly when the substring occurs at some index |
| Text.Remove | repo2md-vscode/src/extension.js:285 | `replace(/-/g, '')` leaves no dash and removes exactly the dashes |
| DirTree.InsertPartsNodes | repo2md-vscode/src/extension.ts:126-130 | Inserting one path adds exactly its prefixes as nodes and flags exactly the whole path as a file |
| DirTree.BuildNodes | repo2md-vscode/src/extension.ts:122-131 | The nodes are the path prefixes, and a node is a file exactly when it is a whole inserted path |
| DirTree.BuildValid | repo2md-vscode/src/extension.ts:122-131 | The tree is well formed: creation order lists every node exactly once, no node is empty, and every node's parent is a node |
| DirTree.InsertTwice | repo2md-vscode/src/extension.ts:122-131 | Inserting a path that was already inserted leaves the tree, creation order included, as it was |
| DirTree.BuildMapOrderFree | repo2md-vscode/src/extension.ts:122-131 | Which nodes exist and which are files depends only on the set of paths, not on their order or repetition |
| DirTree.BuildTree | repo2md-vscode/src/extension.ts:123-131 | The two `forEach` loops build the tree the specification describes |
| DirTree.InsertSegments | repo2md-vscode/src/extension.ts:126-130 | The inner loop creates each missing prefix node and flags the whole path as a file |
| DirTree.Kids | repo2md-vscode/src/extension.ts:134 | One level's keys in creation order: exactly the children of the node |
| DirTree.Children | repo2md-vscode/src/extension.ts:134-139 | `Object.entries(node).sort(…)` holds exactly the children of the node |
| DirTree.ChildrenNoDup | repo2md-vscode/src/extension.ts:134 | No entry is listed twice |
| DirTree.SiblingOrder | repo2md-vscode/src/extension.ts:134-139 | Every directory comes before every file, and nodes of one kind are in case-insensitive name order |
| DirTree.Depth | repo2md-vscode/src/extension.ts:151-153 | No node is deeper than the bound the recursion descends towards |
| DirTree.ChildLast | repo2md-vscode/src/extension.ts:143 | The entry at position `i` is its parent's last child exactly when `i` is the last index |
| DirTree.LinesShape | repo2md-vscode/src/extension.ts:142-155 | Every line of a walk shows a node below the starting node. It has the node's own name, the connector of its parent's call, the indentation its ancestors' calls chose, and `/` exactly on a directory with children |
| DirTree.EntryShape | repo2md-vscode/src/extension.ts:142-155 | One entry draws its own line, then its subtree, then the later entries, each as the connector rule says |
| DirTree.AncestorIn | repo2md-vscode/src/extension.ts:126-129 | Every non-empty prefix of a node is a node |
| DirTree.EntriesMembers | repo2md-vscode/src/extension.ts:142-155 | Entry `k` draws its own line and its whole subtree |
| DirTree.LinesComplete | repo2md-vscode/src/extension.ts:133-157 | Every node below the starting node is drawn by the walk |
| DirTree.LinesDistinct | repo2md-vscode/src/extension.ts:133-157 | Each node is drawn by at most one line |
| DirTree.EntriesAvoid | repo2md-vscode/src/extension.ts:142-155 | The later entries of a walk draw nothing of an earlier entry's subtree |
| DirTree.TreeWalk | repo2md-vscode/src/extension.ts:121-166 | The walk from the top level draws every path prefix exactly once and nothing else. Each line carries the node's own segment, `/` exactly on directories, and the connector and indentation of the rule |
| DirTree.LinesTextRender | repo2md-vscode/src/extension.ts:133-157 | The string the recursion builds is the rendering of the walk's lines |
| DirTree.BuildTreeString | repo2md-vscode/src/extension.ts:133-157 | `buildTreeString` returns the rendering of the walk's lines, one `\n`-terminated line each |
| DirTree.RenderEntries | repo2md-vscode/src/extension.ts:142-155 | The `entries.forEach` loop appends each entry's string in sorted order |
| DirTree.EntryString | repo2md-vscode/src/extension.ts:143-154 | One entry's string is its line, then its subtree's string when it has children |
| DirTree.WriteLine | repo2md-vscode/src/extension.ts:147-149 | A line is prefix, the connector chosen by `isLast`, the name, `/` when asked, and `\n` |
| DirTree.GenerateDirectoryTree | repo2md-vscode/src/extension.js:118-166 | The tree string starts with `rootName/\n`. An empty list then adds exactly `└── (无选中文件)\n`; otherwise the rendering of the walk follows |
| DirTree.MobileRootName | mobile/script.js:522 | The mobile root label is `projectName`, or `项目` when that is empty |
| PyTree.SetDefault | repo2md_gui/repo2md_gui.py:166-167 | `setdefault` fails exactly when the key holds a file; otherwise the key holds a dictionary, and no other key changes |
| PyTree.Assign | repo2md_gui/repo2md_gui.py:168 | `node[last] = None` makes the key a file. An existing key keeps its place and loses everything below it; a new key adds only itself |
| PyTree.Prune | repo2md_gui/repo2md_gui.py:168 | The order left after replacing a dictionary holds exactly the keys not below it |
| PyTree.InsertPathFails | repo2md_gui/repo2md_gui.py:163-168 | Inserting a path raises exactly when one of its directory segments names a file inserted earlier |
| PyTree.FileReplacesDirectory | repo2md_gui/repo2md_gui.py:168 | A later file replaces a directory of the same path, and everything below it disappears |
| PyTree.SetDefaultStep | repo2md_gui/repo2md_gui.py:166-167 | One `setdefault` step keeps the dictionary well formed and every walked prefix a dictionary |
| PyTree.InsertPathValid | repo2md_gui/repo2md_gui.py:163-168 | A successful insertion keeps the dictionary well formed |
| PyTree.BuildValid | repo2md_gui/repo2md_gui.py:162-168 | A dictionary built without an exception is well formed |
| PyTree.BuildFailsLater | repo2md_gui/repo2md_gui.py:162-168 | Once an insertion raises, the whole loop raises |
| PyTree.BuildTreeDict | repo2md_gui/repo2md_gui.py:162-168 | The two loops build the specified dictionary, or report the exception |
| PyTree.Items | repo2md_gui/repo2md_gui.py:173-174 | The sorted items are exactly the dictionary's keys |
| PyTree.ItemsNoDup | repo2md_gui/repo2md_gui.py:173 | No item is listed twice |
| PyTree.ItemOrder | repo2md_gui/repo2md_gui.py:174 | Dictionaries come before files, and items of one kind are in lower-cased name order |
| PyTree.ItemLast | repo2md_gui/repo2md_gui.py:178 | The item at position `i` is last exactly when `i` is the last index |
| PyTree.RenderShape | repo2md_gui/repo2md_gui.py:170-185 | Every line shows a node below the starting node. It has its own connector from its own position, the indentation its ancestors' own flags chose, and `/` exactly on dictionaries |
| PyTree.ItemShape | repo2md_gui/repo2md_gui.py:177-184 | One item draws its own line, then its dictionary's lines, then the later items |
| PyTree.RenderString | repo2md_gui/repo2md_gui.py:170-185 | `_render` returns the rendering of the specified lines |
| PyTree.RenderItems | repo2md_gui/repo2md_gui.py:176-185 | The loop over the sorted items appends each item's string in order |
| PyTree.ItemString | repo2md_gui/repo2md_gui.py:178-184 | One item's string is its line, then for a dictionary the string of its items |
| PyTree.BuildTree | repo2md_gui/repo2md_gui.py:158-188 | `_build_tree` gives `root/\n└── (无选中文件)` with no final newline for no paths, nothing when the insertion raises, and otherwise `root/\n` plus the rendering |
| PyTree.TreeShape | repo2md_gui/repo2md_gui.py:158-188 | The rendering from the top level draws each line with the item's own last flag and `/` exactly on directories |
| Markdown.Sections | mobile/script.js:554-580 | One section per selected path |
| Markdown.SectionOf | mobile/script.js:562-579 | One turn of the loop: a binary marker, the fenced content, or the failure marker when the read fails |
| Markdown.PushSections | repo2md-vscode/src/extension.ts:293-317 | The loop appends exactly the sections of the paths, in order |
| Markdown.SectionsSnoc | repo2md-vscode/src/extension.ts:293-317 | The sections of one more path are the earlier sections followed by that path's section |
| Markdown.SectionHeading | repo2md-vscode/src/extension.ts:309-315 | Every section opens with the heading of its own path |
| Markdown.SectionsInOrder | mobile/script.js:554-580 | There is one section per path in selection order, each opening with its path's heading. Changing what one path reads leaves every other path's section as it was, so one failure never stops the others |
| Markdown.GenerateMobile | mobile/script.js:532-585 | The mobile assembly returns the specified document: title, tree heading, tree fence, then either the placeholder or the contents heading and the sections, all joined by blank lines |
| Markdown.MobileEmpty | mobile/script.js:539-550 | With nothing selected, the mobile document is the placeholder tree with a blank line before its closing fence, followed by `*(未选中任何文件)*` |
| Markdown.GenerateTs | repo2md-vscode/src/extension.ts:277-323 | The VS Code handler returns the specified document, or nothing for an empty selection |
| Markdown.TsLayout | repo2md-vscode/src/extension.ts:279-319 | For a non-empty selection, the document is the four header parts followed by the sections, 4 + n parts joined by blank lines |
| Markdown.GenerateCompiled | repo2md-vscode/src/extension.js:220-275 | The compiled handler returns the specified document under its folder, file-count and selection guards |
| Markdown.CompiledAgreesWithTs | repo2md-vscode/src/extension.js:222-240 | The compiled handler gives no document without a folder or files. Otherwise it gives the VS Code document for `message.projectName` or the folder name, so its `*(未选中任何文件)*` branch is never taken |
| Markdown.RunPy | repo2md_gui/repo2md_gui.py:126-156 | `GenerateThread.run` returns the specified lines joined by `\n`. It returns nothing when `_build_tree` raises or when a selected path is no `file_map` key |
| Markdown.PushPySections | repo2md_gui/repo2md_gui.py:139-154 | With every selected path a `file_map` key, the loop appends exactly the Python sections in order. Otherwise `self.file_map[rel_path]` raises `KeyError` and nothing comes out |
| Markdown.PyMissingKeyNoDocument | repo2md_gui/repo2md_gui.py:131-156 | No document comes out exactly when some selected path is no `file_map` key or `_build_tree` raises. A selection kept across a rescan can be left with such a path |
| Markdown.PyEmptyTreeFence | repo2md_gui/repo2md_gui.py:130-136 | With nothing selected, the closing fence lands on the placeholder's line, because the placeholder tree has no final newline |
| Markdown.PySectionIsDesktopPlusNewline | repo2md_gui/repo2md_gui.py:143-154 | Away from the binary case, a Python section is the VS Code section with one more newline |
| Markdown.GenerateScript | script.js:213-234 | The `script.js` handler returns the specified document: the title, `untitled` when there is no name, then the fixed placeholder tree `…/└── ...`, and one section per selected path |
| Markdown.ScriptFencesEverything | script.js:223-231 | `script.js` has no binary check: readable content of any path is fenced, tagged with the path's raw extension |
| Markdown.ScriptFencesImage | script.js:223-231 | Example: `a.png` with readable content is fenced by `script.js`, while VS Code marks it binary |
| Markdown.JoinWithAppend | mobile/script.js:584 | Joining two non-empty runs of parts puts one separator between them |
| Markdown.SensitivePaths | repo2md_gui/repo2md_gui.py:590 | The flagged paths are exactly the selected paths that contain a keyword after lower-casing |
| Markdown.HasSensitiveMeaning | mobile/script.js:588-593 | `hasSensitiveFiles` holds exactly when some path contains a keyword after lower-casing |
| Markdown.MobileWarnsWhenPythonDoes | mobile/script.js:24-28 | The Python keyword list is part of the mobile list, so the mobile page warns whenever the Qt application does |
| Markdown.WebviewKeyIsBroader | repo2md-vscode/src/extension.ts:650-651 | The webview's bare `key` flags every path the `.key` keyword flags |
| Markdown.ExportNameDate | repo2md-vscode/src/extension.js:284-286 | For a timestamp `YYYY-MM-DDT…`, the export name is `(projectName or project)_YYYYMMDD.md` |
| Markdown.DashesRemoved | repo2md-vscode/src/extension.js:285 | Removing the dashes of `y-m-d` leaves `ymd` |
| Webview.BuildNodes | repo2md-vscode/src/extension.ts:555-593 | `buildTree` returns the root record followed by the records of the recursion |
| Webview.Recurse | repo2md-vscode/src/extension.ts:571-592 | `recurse` appends exactly the flattening of the node's subtree |
| Webview.RecurseEntries | repo2md-vscode/src/extension.ts:578-591 | The `sortedEntries.forEach` loop appends each entry's records in sorted order |
| Webview.RecurseEntry | repo2md-vscode/src/extension.ts:579-590 | One entry pushes its record, then recurses when its object has keys |
| Webview.FlattenMatches | repo2md-vscode/src/extension.ts:571-592 | The records of `recurse` pair up one to one with the lines the tree drawing has for the same node |
| Webview.FlattenParents | repo2md-vscode/src/extension.ts:578-591 | A record is pushed only after the record its `parent` names |
| Webview.IdRebase | repo2md-vscode/src/extension.ts:579 | Ids computed in a child's call agree with ids computed from its parent's call |
| Webview.IdAtJoin | repo2md-vscode/src/extension.ts:579 | From the root, a node's id is its `/`-joined path, unless a shorter prefix of it joins to the root id. Its parent id is the root id at the top and the joined parent path below |
| Webview.RootNamedDirectory | repo2md-vscode/src/extension.ts:579 | Below a top-level directory named like the root id, children get bare names, so its child `x` and a top-level `x` get the same id |
| Webview.WebviewTree | mobile/script.js:393-451 | The root record comes first. After it comes one record per line of the tree drawing, one per distinct path prefix, with the id rule's id, parent id and file flag. Every parent record precedes its children |
| Webview.FileIdIsKey | repo2md-vscode/src/extension.ts:579-587 | When no directory joins to the root id, a file record's id is a `fileMap` key |
| Webview.Passing | script.js:128-130 | The filtered tree takes exactly the keys whose case-kept extension is checked |
| Webview.ScriptBuildTree | script.js:125-144 | The filtering loop builds the tree of the passing keys, in `fileMap` order |
| Webview.ScriptStep | script.js:129-143 | One loop turn inserts a passing key and skips any other |
| Webview.ScriptTreeNodes | script.js:128-144 | The filtered tree has a node exactly for each prefix of a passing key: no directory without a passing file below it |
| Webview.ScriptFlattenAgrees | script.js:147-171 | The `flatMap` recursion of `script.js` is the extension's recursion from an empty root id, except that top-level records name `#` as parent |
| Webview.ScriptTree | script.js:147-179 | There is one record per line of the walk over the passing keys, in the same order, each with the id rule's id. Every parent precedes its children, and top-level records have parent `#` |
| Webview.ScriptId | script.js:157-161 | Where the first segment is not empty, an id is the `/`-joined path and its parent the joined parent path, or `#` at the top |
| Webview.ScriptFileIdIsKey | script.js:156-167 | With no key starting with `/`, a file record's id is a key whose extension is checked |
| Selection.SelectedFiles | script.js:186 | The selected ids that are `fileMap` keys, in selection order, and no more than were selected |
| Selection.SelectedFilesAppend | repo2md-vscode/src/extension.ts:536 | The filter keeps order: it distributes over concatenation |
| Selection.SelectedFilesIdempotent | repo2md-vscode/src/extension.ts:536 | Filtering twice changes nothing |
| Selection.TotalOfSelected | script.js:187 | Ids that are not keys add nothing to the total |
| Selection.TotalCoversEach | repo2md-vscode/src/extension.ts:537 | Each selected path's size is part of the displayed total |
| Selection.Deselect | repo2md-vscode/src/extension.ts:515 | The ids left selected after `deselect_node` on every dropped id |
| Selection.DeselectMore | repo2md-vscode/src/extension.ts:508-517 | Deselecting one more id after a set is deselecting the larger set |
| Selection.FilteredOutStep | repo2md-vscode/src/extension.ts:508-517 | One more file node hides itself exactly when its extension is not checked |
| Selection.AddSelection | repo2md-vscode/src/extension.ts:527 | `select_node(list)` adds the listed ids to the selection and keeps it duplicate-free. Every id passed is taken to name a node |
| Selection.FileKeys | repo2md-vscode/src/extension.ts:622-625 | A path is a `fileMap` key exactly when some scanned entry has it, and the keys are listed once each |
| Selection.FileExtensions | repo2md-vscode/src/extension.ts:622-625 | An extension is listed exactly when some entry has it |
| Selection.FileMapLast | repo2md-vscode/src/extension.ts:623 | A later entry for the same path overrides an earlier one's size |
| Selection.FilterNodes | repo2md-vscode/src/extension.ts:508-517 | The loop hides exactly the file nodes whose extension is unchecked, and shows the others. It deselects exactly the hidden ones. Nodes outside the list keep their visibility |
| Selection.ReadFiles | repo2md-vscode/src/extension.ts:622-625 | The entry loop fills `fileMap`, the key order and the extension set as specified |
| Selection.Session.UpdateSelectedInfo | repo2md-vscode/src/extension.ts:532-538 | `selectedPaths` becomes the selected ids that are keys, and the total the sum of their sizes. Nothing else changes |
| Selection.Session.Changed | repo2md-vscode/src/extension.ts:606 | After jsTree's selection changes, the selected paths follow it |
| Selection.Session.ApplyExtensionFilter | mobile/script.js:357-379 | File nodes of unchecked extensions are hidden and deselected, and no other node is. Afterwards every selected path shown in the tree has a checked extension |
| Selection.Session.RestoreSelected | repo2md-vscode/src/extension.ts:522-530 | The selection grows by exactly the remembered paths still in `fileMap` and stays duplicate-free, and the remembered list is cleared. When a node is newly selected, `changed.jstree` recomputes the paths and total from the grown selection. Otherwise selection and info stay as they were, so agreement is kept |
| Selection.Session.Ready | repo2md-vscode/src/extension.ts:602-605 | After `applyExtensionFilter()` then `restoreSelected()`, the selection is the filtered old selection plus the remembered paths still in `fileMap`, and the displayed paths and total agree with it |
| Selection.AddSelectionNothingNew | repo2md-vscode/src/extension.ts:527 | `select_node` leaves the selection as it was exactly when every id is selected already |
| Selection.Session.RebuildTree | repo2md-vscode/src/extension.ts:555-607 | The tree data is rebuilt from the keys, and a new tree has nothing selected or hidden |
| Selection.Session.FolderData | repo2md-vscode/src/extension.ts:613-630 | A scan result remembers the old selected paths, refills `fileMap` and the extensions, checks every extension and rebuilds the tree |
| QtModel.Under | repo2md_gui/repo2md_gui.py:512-518 | Every item below an item lies after it in the arena |
| QtModel.EveryRowBelowRoot | repo2md_gui/repo2md_gui.py:566-567 | Every item but the invisible root is below it |
| QtModel.UnderTrans | repo2md_gui/repo2md_gui.py:512-518 | Everything below a descendant is below the ancestor |
| QtModel.Stamp | repo2md_gui/repo2md_gui.py:515-516 | Stamping a set of items changes no length |
| QtModel.StampRow | repo2md_gui/repo2md_gui.py:514-516 | `setCheckState` on a checkable row stamps that row as well |
| QtModel.ItemModel.SetChildrenState | repo2md_gui/repo2md_gui.py:512-518 | Every checkable item below `p` takes the state, and nothing else changes |
| QtModel.ItemModel.SetChildState | repo2md_gui/repo2md_gui.py:513-518 | One pass of the loop stamps one more row and its subtree |
| QtModel.TriStateMeaning | repo2md_gui/repo2md_gui.py:524-550 | No checkable row leaves the parent alone. All rows checked gives Checked and all unchecked gives Unchecked. A partial row, or both checked and unchecked rows, gives PartiallyChecked |
| QtModel.TallyParts | repo2md_gui/repo2md_gui.py:533-540 | The three counters add up to the number of checkable rows |
| QtModel.CountRows | repo2md_gui/repo2md_gui.py:529-540 | The counting loop gives exactly the tallies of the checkable rows' states and their number |
| QtModel.RefreshUp | repo2md_gui/repo2md_gui.py:520-561 | The walk up keeps the arena well formed and its length |
| QtModel.RefreshUpUnfold | repo2md_gui/repo2md_gui.py:542-561 | With no checkable row the walk stops. Otherwise the item takes the tri-state and the walk goes on to the parent, ending after the invisible root |
| QtModel.RefreshUpShape | repo2md_gui/repo2md_gui.py:552-553 | The walk changes check states only |
| QtModel.RefreshUpFrame | repo2md_gui/repo2md_gui.py:520-561 | The walk changes only the items on the chain from `p` up to the root, and nothing after `p` |
| QtModel.RefreshUpSettles | repo2md_gui/repo2md_gui.py:520-561 | After the walk from an item with rows, every item on its chain shows the tri-state of its rows |
| QtModel.WalkStep | repo2md_gui/repo2md_gui.py:552-557 | One step of the walk, from an item to its parent |
| QtModel.SettledAtRoot | repo2md_gui/repo2md_gui.py:558-561 | The walk ends at the invisible root, which then shows the tri-state of its rows |
| QtModel.ItemModel.UpdateParentTristate | repo2md_gui/repo2md_gui.py:520-561 | `_update_parent_tristate` leaves the arena as the specified walk does |
| QtModel.CollectNeverFails | repo2md_gui/repo2md_gui.py:570-583 | Once the failing addition is corrected, gathering always finishes |
| QtModel.CollectMembers | repo2md_gui/repo2md_gui.py:570-583 | The gathered paths are exactly the paths of the checked file rows below `p` |
| QtModel.NothingCheckedGathersNothing | repo2md_gui/repo2md_gui.py:570-583 | With nothing checked below `p`, even the walk as written gathers nothing and sums to 0 |
| QtModel.AsWrittenAgrees | repo2md_gui/repo2md_gui.py:574-582 | Where every checked row without rows has a size, the walk as written succeeds and agrees with the corrected one |
| QtModel.EmptyFolderCheckFails | repo2md_gui/repo2md_gui.py:577-579 | Checking the root of an empty folder makes the addition as written fail, while the corrected walk gathers nothing |
| QtModel.AccumulateSelected | repo2md_gui/repo2md_gui.py:570-583 | `_accumulate_selected`, corrected, returns the total size and appends the paths in depth-first row order, exactly as gathered. From the invisible root of a tree, the total is the flat sum of the sizes of the checked rows without rows, and the appended paths are distinct when the rows' paths are |
| QtModel.RowStep | repo2md_gui/repo2md_gui.py:572-582 | One turn of the row loop: what the row adds extends the gathered total and paths |
| QtModel.RootSelected | repo2md_gui/repo2md_gui.py:563-583 | From the invisible root of a tree, the gathered total is the flat sum and, for distinct row paths, the gathered paths are distinct |
| QtModel.SelectedTotal | repo2md_gui/repo2md_gui.py:563-583 | In a tree, the total gathered from the invisible root is the sum over the arena of the sizes of the checked rows without rows, each counted once |
| QtModel.SelectedNoDup | repo2md_gui/repo2md_gui.py:563-583 | In a tree whose rows carry distinct paths, no path is gathered twice |
| QtModel.CollectIsWeight | repo2md_gui/repo2md_gui.py:570-583 | The walk gathers the sizes and paths of the rows it visits, in depth-first visit order |
| QtModel.SameShapeTree | repo2md_gui/repo2md_gui.py:494-518 | Changing check states keeps the arena a tree |
| QtModel.SameShapeDistinct | repo2md_gui/repo2md_gui.py:494-518 | Changing check states keeps the rows' paths distinct |
| QtModel.LeavesSizedAgrees | repo2md_gui/repo2md_gui.py:563-583 | When every row without rows below the invisible root has a size, the walk as written finishes and gathers what the corrected walk does |
| QtModel.SameShapeLeavesSized | repo2md_gui/repo2md_gui.py:574-579 | Check states do not change which rows lack rows or a size, so clicks keep that condition |
| QtModel.SelectedAreCheckedFiles | repo2md_gui/repo2md_gui.py:563-567 | From the invisible root, the gathered paths are the paths of every checked file row |
| QtModel.Click | repo2md_gui/repo2md_gui.py:494 | A click changes one check state and keeps the arena's shape |
| QtModel.Follow | repo2md_gui/repo2md_gui.py:499-500 | The cascade down keeps the arena's shape |
| QtModel.FollowEffect | repo2md_gui/repo2md_gui.py:499-500 | The rows below the clicked item take its state, and nothing else changes |
| QtModel.ItemChanged | repo2md_gui/repo2md_gui.py:494-510 | The whole cascade keeps the arena's shape |
| QtModel.ItemModel.Propagate | repo2md_gui/repo2md_gui.py:498-507 | The tree half of `on_item_changed`: the arena becomes the cascade down from the item, then the walk up from its parent |
| QtModel.ItemChangedEffect | repo2md_gui/repo2md_gui.py:494-510 | After a click the item keeps its new state and every row below it has that state. Only those rows and the chain above the item change |
| QtModel.ItemChangedSettles | repo2md_gui/repo2md_gui.py:502-507 | After a click, every item on the chain above the clicked item shows the tri-state of its rows |
| QtModel.CheckedNames | repo2md_gui/repo2md_gui.py:487-491 | The checked entries of the extension list, exactly |
| QtModel.CheckedExtensions | repo2md_gui/repo2md_gui.py:486-491 | The loop collects exactly the checked entries, in list order |
| QtModel.FilterAfterChange | repo2md_gui/repo2md_gui.py:200-208 | After the list changes, a directory row always shows. A file row shows exactly when its extension is checked, except that with nothing checked every row shows |
| QtTree.DirsOfMembers | repo2md_gui/repo2md_gui.py:447-453 | A directory is collected exactly when it is a proper prefix, by whole segments, of some scanned path |
| QtTree.DirsOfWitness | repo2md_gui/repo2md_gui.py:449-453 | Every collected directory comes from some path's first `i` segments |
| QtTree.DirsOfHas | repo2md_gui/repo2md_gui.py:449-453 | Every proper prefix of every path is collected |
| QtTree.CollectDirs | repo2md_gui/repo2md_gui.py:447-453 | The collecting loop gives exactly the specified set |
| QtTree.SortedDirs | repo2md_gui/repo2md_gui.py:456 | The directories come once each, ordered by depth and then by path |
| QtTree.JoinedPrefix | repo2md_gui/repo2md_gui.py:450-460 | A joined prefix splits back into its segments, has one `/` fewer than segments, and its directory is the prefix one segment shorter |
| QtTree.ParentInDirs | repo2md_gui/repo2md_gui.py:456-461 | A collected directory's parent is the top, or a collected directory that sorts before it |
| QtTree.FileParentInDirs | repo2md_gui/repo2md_gui.py:470-473 | Every file's directory is the top or a collected directory |
| QtTree.SortedParentFirst | repo2md_gui/repo2md_gui.py:456-461 | In the sorted order, every directory's parent already has its row |
| QtTree.AddChild | repo2md_gui/repo2md_gui.py:466 | `appendRow` puts the item at the end of the arena and of its parent's rows, and changes nothing else |
| QtTree.AddChildWellFormed | repo2md_gui/repo2md_gui.py:462-466 | Appending a fresh checkable row keeps the arena well formed |
| QtTree.AddChildChildParents | repo2md_gui/repo2md_gui.py:462-480 | Appending a fresh row keeps every row's parent the item that lists it |
| QtTree.BuiltDistinctPaths | repo2md_gui/repo2md_gui.py:468-482 | Distinct scanned paths give file rows with distinct paths; directory rows carry none |
| QtTree.AddDirectory | repo2md_gui/repo2md_gui.py:457-467 | One turn of the directory loop gives a directory without a row one row, below its parent's row |
| QtTree.AddDirectoryRows | repo2md_gui/repo2md_gui.py:455-467 | The directory loop gives every collected directory exactly one row, labelled with its last segment and `/`, below its parent's row, with no data |
| QtTree.AddFileRows | repo2md_gui/repo2md_gui.py:469-482 | The file loop gives each file one row in scan order, below its directory's row, carrying its extension, path and size |
| QtTree.DirRowsMeaning | repo2md_gui/repo2md_gui.py:459-467 | Every directory has a row with its last segment and `/`, below its parent directory's row, with no extension, path or size |
| QtTree.BuildTreeModel | repo2md_gui/repo2md_gui.py:436-482 | The layout is the invisible root, the top row, one row per collected directory, then one row per file. The arena is a tree: every row's parent lists it, once. Distinct scanned paths give rows with distinct paths. Nothing is checked, so nothing is selected |
| QtTree.DirsFirst | repo2md_gui/repo2md_gui.py:455-482 | Under every item, the directory rows come before the file rows |
| QtTree.ClickCheckable | repo2md_gui/repo2md_gui.py:440-478 | A click keeps every row after the root checkable |
| QtTree.CheckTopRows | repo2md_gui/repo2md_gui.py:494-518 | Checking the top row checks every row below it and changes no row's data |
| QtTree.RowBelowDir | repo2md_gui/repo2md_gui.py:449-473 | Below the row of any leading segments of a scanned path there is a row: the next directory on the path, or the file itself |
| QtTree.DirRowHasRow | repo2md_gui/repo2md_gui.py:436-482 | In a tree built from at least one file, the top row and every directory row have at least one row below them |
| QtTree.BuiltLeavesSized | repo2md_gui/repo2md_gui.py:436-482 | In a tree built from at least one file, every row without rows is a file row with a size |
| QtTree.BuiltAsWrittenAgrees | repo2md_gui/repo2md_gui.py:436-583 | In a tree built from at least one file, whatever boxes are checked, `_accumulate_selected` as written never raises and gathers what the corrected walk does; the two differ only for a folder without files |
| QtTree.CheckTopSelectsEveryFile | repo2md_gui/repo2md_gui.py:494-583 | Checking the top row of a freshly built tree selects exactly the scanned files with a non-empty path |
| QtWindow.GenerateRequest | repo2md_gui/repo2md_gui.py:585-610 | An empty selection only warns. Otherwise up to five paths are shown, all selected and flagged, and some are shown exactly when a path is flagged. Generation stops exactly when the user declines a flagged selection, and starts on the whole selection otherwise |
| QtWindow.AllChecked | repo2md_gui/repo2md_gui.py:428-432 | Every scanned extension is listed, in scan order, checked |
| QtWindow.MainWindow.OnScanFinished | repo2md_gui/repo2md_gui.py:418-434 | The tree gets the `build_tree_model` layout, every extension is listed checked, and the filter allows exactly the listed extensions. The old selection is kept. With at least one file, every row without rows has a size. Distinct scanned paths give rows with distinct paths |
| QtWindow.MainWindow.RowShown | repo2md_gui/repo2md_gui.py:200-208 | Directory rows always show, and every row shows without a filter |
| QtWindow.MainWindow.ToggleExtension | repo2md_gui/repo2md_gui.py:486-492 | Toggling an entry changes only that entry and sets the filter from the checked entries |
| QtWindow.MainWindow.OnExtensionFilterChanged | repo2md_gui/repo2md_gui.py:486-492 | The filter becomes the set of checked entries, or none when nothing is checked |
| QtWindow.MainWindow.UpdateSelectedSize | repo2md_gui/repo2md_gui.py:563-568 | The selected paths and total become what the corrected walk of the second Findings row gathers from the invisible root. When every row without rows has a size, that is also what the walk as written gathers. In a tree, the total is the flat sum of the checked rows' sizes, and with distinct row paths no path is selected twice |
| QtWindow.MainWindow.OnItemChanged | repo2md_gui/repo2md_gui.py:494-510 | While a change is being handled nothing happens. Otherwise the tree becomes the cascade of the change, the selection is gathered again by the corrected walk, and the guard is released. When every row without rows has a size, which clicks preserve, the walk as written gathers the same and finishes, so the source also releases the guard |
| QtWindow.MainWindow.UserClicks | repo2md_gui/repo2md_gui.py:494-510 | A click toggles the box: the item takes the state `Toggled` gives. While a change is being handled, only the clicked box changes and the selection stays. Otherwise the result is the cascade of the click, in which every row below the item takes the new state, with its selection by the corrected walk; that selection is what the walk as written gathers when every row without rows has a size |
| QtWindow.MainWindow.GenerateMarkdown | repo2md_gui/repo2md_gui.py:585-610 | `generate_markdown` on the current selection: only an empty selection warns, and generation runs on the current selected paths |
| QtWindow.ItemChangedCheckable | repo2md_gui/repo2md_gui.py:494-518 | The cascade keeps every row after the root checkable |
| QtWindow.Toggled | repo2md_gui/repo2md_gui.py:440-478 | A user click on a checkable, not user-tristate box flips it between checked and unchecked, never to partially checked |
| QtWindow.ItemChangedSelection | repo2md_gui/repo2md_gui.py:494-583 | The cascade of a change keeps the arena a tree; the selection gathered afterwards totals the flat sum and, for distinct row paths, lists each path once |
| QtWindow.ClickSelection | repo2md_gui/repo2md_gui.py:494-583 | The same holds for the cascade of a user click: a tree stays a tree, the selected size is the flat sum, and distinct row paths are selected at most once each |

## Left out

- `formatBytes` / `format_bytes` are left out because they use floating point, `Math.log` and `toFixed`. A file row's label is the bare file name.
- Unicode collation in `localeCompare(…, {sensitivity: 'base'})` is replaced by the code points of the ASCII-lower-cased name. The stable sort breaks ties by creation order, and no lemma depends on that tie order.
- Lower-casing is ASCII-only. Unicode case mapping is left out.
- `new TextDecoder().decode` is left out. TAR names stay byte sequences.
- ZIP decoding (JSZip) and gzip (`pako.ungzip`) are foreign libraries. The model gives their format choice only.
- All I/O is left out and is an input to the model:
  - `fs.open`/`read`, `FileReader`, `file.text()` and `read_text_file`, with its encoding fallbacks;
  - `os.walk`, the directory pickers and `readDirectoryRecursive`.

  A file is given as its first bytes (`None` for a failed read) and its text or an error message.
- The user's answer to a confirmation question is a parameter. The ISO timestamp of the export name is a parameter too.
- DOM, jQuery and jsTree calls, Qt widgets and signals, `QThread`, and the VS Code panel, watcher, timers, dialogs and messages are left out:
  - selection and visibility are plain sequences and sets;
  - a Qt signal is a method call;
  - `expandToDepth` and other view-only calls are left out;
  - progress dialogs and progress messages are left out;
  - `setTimeout` yields are left out.
- The `_updating` re-entrancy of `on_item_changed` is a guard field of `QtWindow.MainWindow`. The nested `itemChanged` signals it ignores are not modelled.
- After a rescan, `on_scan_finished` keeps the previous `selected_paths`. The model keeps them as the source does.
- JavaScript prototype-key quirks of objects used as maps (keys such as `__children` and `__proto__`) are left out.
- The key order of JavaScript objects is modelled as insertion order. `Object.keys` and `Object.entries` actually list array-index-like keys (such as `1` or `2024`) first, in ascending numeric order; the model leaves that out. It affects only the creation order that breaks ties between siblings with equal sort keys, and no lemma depends on that order. It also affects the order of `Object.keys(fileMap)`, which has no lemma about its order.
- The mobile archive's project name and `fileMap` filling (mobile/script.js:251-288) are not part of this model.
- Markdown.RunPy: a `read_text_file` exception is an input, namely an `Err` text. The message is taken as given.
- Markdown.GenerateCompiled: the folder name is the text after the folder path's last `/`, as `path.basename` gives on POSIX. On Windows `path.basename` also splits at `\`, so a folder `C:\Users\x\proj` is named `proj` there, while the model keeps the whole path. The same holds for the function Markdown.CompiledMarkdown that it is proved against. In `extension.ts`, the project name `path.basename(rootPath)` is a parameter.
- Markdown.CompiledAgreesWithTs: takes the folder name the same POSIX way as Markdown.GenerateCompiled.
- QtWindow.MainWindow.UpdateSelectedSize: gathers with the corrected walk. In the one case where the walk as written raises, the checked top row of a folder without files, the source leaves `selected_paths` empty and the size label unchanged, and the model reports (0, []) instead. QtTree.BuiltAsWrittenAgrees proves this is the only case for a built tree.
- QtWindow.MainWindow.OnItemChanged: after the `TypeError` of the empty-folder case, the source leaves `_updating` set, and every later change is ignored. The model releases the guard. On a tree built from at least one file the two agree.
- QtWindow.MainWindow.UserClicks: inherits the corrected gathering of OnItemChanged and the same empty-folder difference.
- QtTree.BuildTreeModel: the scanned files are given as a sequence of (path, size). Distinct paths are not required, although a Python dictionary would guarantee them; when they are distinct, the rows' paths are distinct.
- QtWindow.MainWindow.OnItemChanged: that the arena stays a tree, that the selected size is the flat sum and that no path is selected twice are stated on the arena values by QtWindow.ItemChangedSelection and QtWindow.ClickSelection, not on the handler's own ensures.
- PyTree.TreeShape: states the shape of each drawn line. That exactly the dictionary's keys are drawn, each once, rests on PyTree.Items and PyTree.ItemsNoDup and is not restated there.

## Findings

| source | as written | input that shows it | evidently intended | confidence | as-written member | corrected member |
|---|---|---|---|---|---|---|
| mobile/script.js:146-167 | `parseInt(sizeStr, 8)` accepts a sign, and the offset then advances by `512 + ceil(size/512)*512` | a non-zero header whose size field reads `-1130` (octal for -600): `ceil(-600/512)` is -1, so the offset advances by 0 and the loop never ends | a negative size is treated as 0, so the reader moves on by one block | not executed | Tar.NegativeSizeFieldStalls | Tar.Parse |
| repo2md_gui/repo2md_gui.py:574-579 | a checked row without rows adds `child.data(Qt.UserRole + 2)` to `total` | an empty folder: the top row has no rows and no size, and checking it makes `total += None` raise `TypeError`. `_updating` then stays `True`, so every later click is ignored | a row without a size adds nothing | not executed | QtModel.EmptyFolderCheckFails | QtModel.AccumulateSelected |
