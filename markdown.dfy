/**
 * The Markdown assemblers of the five front ends. Each pushes a fixed
 * header (title, tree heading, fenced tree), then one section per selected
 * path in selection order, and joins the parts. A section is a binary
 * marker, a fence tagged with the extension, or a failure marker; one
 * file's failure never stops the others. Reading a file is an input: its
 * first bytes (`None` for a failed read) and its text or the error message.
 */
module Markdown {
  import opened Wrappers
  import opened Text
  import opened Extension
  import opened Binary
  import DirTree
  import PyTree

  /** What reading one selected file yields. */
  datatype FileSource = FileSource(bytes: Option<seq<byte>>, text: Result<string, string>)

  /** A path without a source behaves like a failed read. */
  function SourceOf(sources: map<string, FileSource>, path: string): FileSource
  {
    if path in sources then sources[path] else FileSource(None, Err(""))
  }

  /** The front ends, each with its own section rule. */
  datatype FrontEnd =
    | Mobile    // mobile/script.js
    | Desktop   // repo2md-vscode/src/extension.ts and extension.js
    | Python    // repo2md_gui/repo2md_gui.py
    | Script    // the root script.js

  /** `value || fallback`. */
  function OrDefault(value: string, fallback: string): (r: string)
  {
    if value == "" then fallback else value
  }

  /** The fence tag: the extension, or nothing for `[无后缀]`. */
  function Lang(ext: string): string
  {
    if ext == NoExtension then "" else ext
  }

  function Heading(path: string): string
  {
    "### `" + path + "`\n"
  }

  function Fenced(lang: string, body: string): string
  {
    "```" + lang + "\n" + body + "\n```"
  }

  const BinaryMarker: string := "[二进制文件，已跳过]"

  /** The section one front end pushes for `path`: its heading, then what the file turned into. */
  function Section(fe: FrontEnd, path: string, src: FileSource): string
  {
    Heading(path) + Body(fe, path, src)
  }

  /** What follows the heading: a binary marker, the fenced content, or a failure marker. */
  function Body(fe: FrontEnd, path: string, src: FileSource): string
  {
    match fe
    case Mobile =>
      if MobileBinary(path, src.bytes) then Fenced("", BinaryMarker)
      else TextBody(Lang(GetExtension(path)), src.text, "[读取失败:" + OrDefault(ErrorOf(src.text), "未知错误") + "]")
    case Desktop =>
      if DesktopBinary(path, src.bytes) then Fenced("", BinaryMarker)
      else TextBody(Lang(GetExtension(path)), src.text, "[读取失败: " + ErrorOf(src.text) + "]")
    case Python =>
      var verdict := PyBinary(path, true, src.bytes);
      if verdict.0 then Fenced("", "[二进制文件，已跳过: " + verdict.1 + "]") + "\n"
      else TextBody(Lang(GetExtension(path)), src.text, "[读取失败: " + ErrorOf(src.text) + "]") + "\n"
    case Script =>
      TextBody(Lang(RawExtension(path)), src.text, "[无法读取文件: 可能是二进制或过大]")
  }

  /** The `try` around reading: the content fenced with its tag, or the failure marker. */
  function TextBody(lang: string, text: Result<string, string>, failure: string): string
  {
    match text
    case Ok(c) => Fenced(lang, c)
    case Err(_) => Fenced("", failure)
  }

  /** The message of a failed read. */
  function ErrorOf(text: Result<string, string>): string
  {
    if text.Err? then text.error else ""
  }

  /** The sections of the loop over the selected paths. */
  function Sections(fe: FrontEnd, paths: seq<string>, sources: map<string, FileSource>): (r: seq<string>)
    ensures |r| == |paths|
  {
    seq(|paths|, i requires 0 <= i < |paths| => Section(fe, paths[i], SourceOf(sources, paths[i])))
  }

  /** `parts.join(sep)` / `sep.join(parts)`. */
  function JoinWith(parts: seq<string>, sep: string): string
  {
    if |parts| == 0 then ""
    else if |parts| == 1 then parts[0]
    else parts[0] + sep + JoinWith(parts[1..], sep)
  }

  // ---------------------------------------------------------- documents

  /** The parts `generateMarkdown` of `mobile/script.js` pushes. */
  function MobileParts(projectName: string, paths: seq<string>, sources: map<string, FileSource>): seq<string>
  {
    ["# 项目概览：" + OrDefault(projectName, "untitled") + "\n",
     "## 📁 目录结构\n",
     "```\n" + DirTree.TreeText(paths, DirTree.MobileRootName(projectName)) + "\n```\n"]
    + (if |paths| == 0 then ["*(未选中任何文件)*"] else ["## 📄 文件内容\n"] + Sections(Mobile, paths, sources))
  }

  function MobileMarkdown(projectName: string, paths: seq<string>, sources: map<string, FileSource>): string
  {
    JoinWith(MobileParts(projectName, paths, sources), "\n\n")
  }

  /** The fixed four parts of the VS Code handlers. */
  function DesktopHeader(projectName: string, paths: seq<string>): seq<string>
  {
    ["# 项目概览：" + projectName + "\n",
     "## 📁 目录结构\n",
     "```\n" + DirTree.TreeText(paths, projectName) + "```\n",
     "## 📄 文件内容\n"]
  }

  /** The `generateMarkdown` handler of `extension.ts`: no document for an empty selection. */
  function TsMarkdown(projectName: string, paths: seq<string>, sources: map<string, FileSource>): Option<string>
  {
    if |paths| == 0 then None
    else Some(JoinWith(DesktopHeader(projectName, paths) + Sections(Desktop, paths, sources), "\n\n"))
  }

  /**
   * The `generateMarkdown` handler of `extension.js`, as written: the guards
   * (no folder, no scanned file, no selected path) and the project name
   * `message.projectName || path.basename(folder)`, then a branch for an
   * empty selection that the guard has already excluded.
   */
  function CompiledMarkdown(folder: Option<string>, fileCount: nat, paths: seq<string>, messageName: string,
                            sources: map<string, FileSource>): Option<string>
  {
    if folder.None? || fileCount == 0 then None
    else if |paths| == 0 then None
    else
      var projectName := OrDefault(messageName, BaseName(folder.value));
      var header := DesktopHeader(projectName, paths)[..3];
      Some(JoinWith(header + (if |paths| == 0 then ["*(未选中任何文件)*"]
                              else ["## 📄 文件内容\n"] + Sections(Desktop, paths, sources)), "\n\n"))
  }

  /** Every selected path is a key of `file_map`, whose keys are those of `sources`. */
  predicate AllKeys(paths: seq<string>, sources: map<string, FileSource>)
  {
    forall i :: 0 <= i < |paths| ==> paths[i] in sources
  }

  /**
   * `GenerateThread.run`: lines joined by newlines. `None` when `_build_tree`
   * raises, or when `self.file_map[rel_path]` raises `KeyError` for a
   * selected path that is no key; either way no result is emitted.
   */
  function PyMarkdown(rootName: string, paths: seq<string>, sources: map<string, FileSource>): Option<string>
  {
    if !AllKeys(paths, sources) then None else
    match PyTree.TreeText(paths, rootName)
    case None => None
    case Some(tree) =>
      Some(JoinWith(["# 项目概览：" + rootName + "\n", "## 📁 目录结构\n", "```\n" + tree + "```\n"]
                    + (if |paths| == 0 then ["*(未选中任何文件)*"] else ["## 📄 文件内容\n"] + Sections(Python, paths, sources)),
                    "\n"))
  }

  /** The generate handler of `script.js`: a placeholder tree and no binary check. */
  function ScriptMarkdown(projectName: string, paths: seq<string>, sources: map<string, FileSource>): string
  {
    JoinWith(["# 项目概览：" + OrDefault(projectName, "untitled") + "\n",
              "## 📁 目录结构\n\n```\n" + projectName + "/\n└── ...\n```\n"]
             + Sections(Script, paths, sources), "\n\n")
  }

  // ---------------------------------------------------------- the loops

  /** The `for` loop over the selected paths, pushing one section each onto `mdParts`. */
  method PushSections(fe: FrontEnd, paths: seq<string>, sources: map<string, FileSource>, mdParts: seq<string>)
    returns (out: seq<string>)
    ensures out == mdParts + Sections(fe, paths, sources)
  {
    out := mdParts;
    var i := 0;
    while i < |paths|
      invariant i <= |paths|
      invariant out == mdParts + Sections(fe, paths[..i], sources)
    {
      var path := paths[i];
      var section := SectionOf(fe, path, SourceOf(sources, path));
      SectionsSnoc(fe, paths, i, sources);
      out := out + [section];
      i := i + 1;
    }
    assert paths[..|paths|] == paths;
  }

  /** One pass of a section loop: appending the next section extends the sections of the prefix. */
  lemma PushStep(fe: FrontEnd, paths: seq<string>, i: nat, sources: map<string, FileSource>, lines: seq<string>,
                 acc: seq<string>, section: string)
    requires i < |paths| && acc == lines + Sections(fe, paths[..i], sources)
    requires section == Section(fe, paths[i], SourceOf(sources, paths[i]))
    ensures acc + [section] == lines + Sections(fe, paths[..i + 1], sources)
  {
    SectionsSnoc(fe, paths, i, sources);
  }

  lemma SectionsSnoc(fe: FrontEnd, paths: seq<string>, i: nat, sources: map<string, FileSource>)
    requires i < |paths|
    ensures Sections(fe, paths[..i + 1], sources) == Sections(fe, paths[..i], sources) + [Section(fe, paths[i], SourceOf(sources, paths[i]))]
  {
    var longer := Sections(fe, paths[..i + 1], sources);
    var joined := Sections(fe, paths[..i], sources) + [Section(fe, paths[i], SourceOf(sources, paths[i]))];
    forall j | 0 <= j <= i
      ensures longer[j] == joined[j]
    {
      assert paths[..i + 1][j] == paths[j];
      if j < i {
        assert paths[..i][j] == paths[j];
      }
    }
    assert |longer| == |joined|;
  }

  /** One iteration: classify, then read, turning a read error into the failure marker. */
  method SectionOf(fe: FrontEnd, path: string, src: FileSource) returns (section: string)
    ensures section == Section(fe, path, src)
  {
    var body: string;
    match fe {
      case Mobile =>
        var binary := IsBinaryMobile(path, src.bytes);
        if binary {
          body := Fenced("", BinaryMarker);
        } else {
          body := TextBody(Lang(GetExtension(path)), src.text, "[读取失败:" + OrDefault(ErrorOf(src.text), "未知错误") + "]");
        }
      case Desktop =>
        if DesktopBinary(path, src.bytes) {
          body := Fenced("", BinaryMarker);
        } else {
          body := TextBody(Lang(GetExtension(path)), src.text, "[读取失败: " + ErrorOf(src.text) + "]");
        }
      case Python =>
        var isBin, reason := PyBinary(path, true, src.bytes).0, PyBinary(path, true, src.bytes).1;
        if isBin {
          body := Fenced("", "[二进制文件，已跳过: " + reason + "]") + "\n";
        } else {
          body := TextBody(Lang(GetExtension(path)), src.text, "[读取失败: " + ErrorOf(src.text) + "]") + "\n";
        }
      case Script =>
        body := TextBody(Lang(RawExtension(path)), src.text, "[无法读取文件: 可能是二进制或过大]");
    }
    section := Heading(path) + body;
  }

  /** `generateMarkdown()` of `mobile/script.js`. */
  method GenerateMobile(projectName: string, paths: seq<string>, sources: map<string, FileSource>) returns (md: string)
    ensures md == MobileMarkdown(projectName, paths, sources)
  {
    var tree := DirTree.GenerateDirectoryTree(paths, DirTree.MobileRootName(projectName));
    var mdParts := ["# 项目概览：" + OrDefault(projectName, "untitled") + "\n", "## 📁 目录结构\n", "```\n" + tree + "\n```\n"];
    if |paths| == 0 {
      mdParts := mdParts + ["*(未选中任何文件)*"];
    } else {
      ghost var header := mdParts;
      mdParts := PushSections(Mobile, paths, sources, mdParts + ["## 📄 文件内容\n"]);
      AppendAssoc(header, ["## 📄 文件内容\n"], Sections(Mobile, paths, sources));
    }
    md := JoinWith(mdParts, "\n\n");
  }

  /** The `generateMarkdown` case of `extension.ts`. */
  method GenerateTs(projectName: string, paths: seq<string>, sources: map<string, FileSource>) returns (md: Option<string>)
    ensures md == TsMarkdown(projectName, paths, sources)
  {
    if |paths| == 0 {
      return None;
    }
    var tree := DirTree.GenerateDirectoryTree(paths, projectName);
    var mdParts := ["# 项目概览：" + projectName + "\n", "## 📁 目录结构\n", "```\n" + tree + "```\n", "## 📄 文件内容\n"];
    mdParts := PushSections(Desktop, paths, sources, mdParts);
    md := Some(JoinWith(mdParts, "\n\n"));
  }

  /** `GenerateThread.run`. */
  method RunPy(rootName: string, paths: seq<string>, sources: map<string, FileSource>) returns (md: Option<string>)
    ensures md == PyMarkdown(rootName, paths, sources)
  {
    var tree := PyTree.BuildTree(paths, rootName);
    if tree.None? {
      return None;
    }
    var lines := ["# 项目概览：" + rootName + "\n", "## 📁 目录结构\n", "```\n" + tree.value + "```\n"];
    if |paths| == 0 {
      lines := lines + ["*(未选中任何文件)*"];
    } else {
      ghost var header := lines;
      var pushed := PushPySections(paths, sources, lines + ["## 📄 文件内容\n"]);
      if pushed.None? {
        return None;
      }
      lines := pushed.value;
      AppendAssoc(header, ["## 📄 文件内容\n"], Sections(Python, paths, sources));
    }
    md := Some(JoinWith(lines, "\n"));
  }

  /**
   * The `for` loop of `GenerateThread.run`: `self.file_map[rel_path]` raises
   * `KeyError` for a path that is no key, which ends the thread.
   */
  method PushPySections(paths: seq<string>, sources: map<string, FileSource>, lines: seq<string>)
    returns (out: Option<seq<string>>)
    ensures AllKeys(paths, sources) ==> out == Some(lines + Sections(Python, paths, sources))
    ensures !AllKeys(paths, sources) ==> out.None?
  {
    var acc := lines;
    var i := 0;
    while i < |paths|
      invariant i <= |paths|
      invariant acc == lines + Sections(Python, paths[..i], sources)
      invariant forall k :: 0 <= k < i ==> paths[k] in sources
    {
      var path := paths[i];
      if path !in sources {
        assert !AllKeys(paths, sources);
        return None;
      }
      var section := SectionOf(Python, path, SourceOf(sources, path));
      PushStep(Python, paths, i, sources, lines, acc, section);
      acc := acc + [section];
      i := i + 1;
    }
    assert paths[..|paths|] == paths;
    out := Some(acc);
  }

  /** The generate handler of `script.js`. */
  method GenerateScript(projectName: string, paths: seq<string>, sources: map<string, FileSource>) returns (md: string)
    ensures md == ScriptMarkdown(projectName, paths, sources)
  {
    var mdParts := ["# 项目概览：" + OrDefault(projectName, "untitled") + "\n", "## 📁 目录结构\n\n```\n" + projectName + "/\n└── ...\n```\n"];
    mdParts := PushSections(Script, paths, sources, mdParts);
    md := JoinWith(mdParts, "\n\n");
  }

  /** The `generateMarkdown` case of `extension.js`. */
  method GenerateCompiled(folder: Option<string>, fileCount: nat, paths: seq<string>, messageName: string,
                          sources: map<string, FileSource>) returns (md: Option<string>)
    ensures md == CompiledMarkdown(folder, fileCount, paths, messageName, sources)
  {
    if folder.None? || fileCount == 0 {
      return None;
    }
    if |paths| == 0 {
      return None;
    }
    var projectName := if messageName != "" then messageName else BaseName(folder.value);
    var tree := DirTree.GenerateDirectoryTree(paths, projectName);
    // the `paths.length === 0` branch that follows in the source is dead here
    var mdParts := ["# 项目概览：" + projectName + "\n", "## 📁 目录结构\n", "```\n" + tree + "```\n"];
    ghost var header := mdParts;
    assert header == DesktopHeader(projectName, paths)[..3];
    mdParts := PushSections(Desktop, paths, sources, mdParts + ["## 📄 文件内容\n"]);
    AppendAssoc(header, ["## 📄 文件内容\n"], Sections(Desktop, paths, sources));
    md := Some(JoinWith(mdParts, "\n\n"));
  }

  // ---------------------------------------------------------- properties

  /** Joining two non-empty runs of parts puts one separator between them. */
  lemma {:induction false} JoinWithAppend(a: seq<string>, b: seq<string>, sep: string)
    requires |a| >= 1 && |b| >= 1
    ensures JoinWith(a + b, sep) == JoinWith(a, sep) + sep + JoinWith(b, sep)
  {
    if |a| == 1 {
      assert (a + b)[1..] == b;
    } else {
      assert (a + b)[1..] == a[1..] + b;
      JoinWithAppend(a[1..], b, sep);
    }
  }

  /** Every section opens with the heading of its own path. */
  lemma SectionHeading(fe: FrontEnd, path: string, src: FileSource)
    ensures IsPrefix(Heading(path), Section(fe, path, src))
  {
    assert (Heading(path) + Body(fe, path, src))[..|Heading(path)|] == Heading(path);
  }

  /**
   * One section per selected path, in selection order, and each depends
   * only on its own file: changing what one path reads leaves the sections
   * of every other path as they were.
   */
  lemma SectionsInOrder(fe: FrontEnd, paths: seq<string>, sources: map<string, FileSource>, q: string, other: FileSource)
    ensures |Sections(fe, paths, sources)| == |paths|
    ensures forall i :: 0 <= i < |paths| ==> IsPrefix(Heading(paths[i]), Sections(fe, paths, sources)[i])
    ensures forall i :: 0 <= i < |paths| && paths[i] != q ==>
              Sections(fe, paths, sources[q := other])[i] == Sections(fe, paths, sources)[i]
  {
    forall i | 0 <= i < |paths|
      ensures IsPrefix(Heading(paths[i]), Sections(fe, paths, sources)[i])
    {
      SectionHeading(fe, paths[i], SourceOf(sources, paths[i]));
    }
    forall i | 0 <= i < |paths| && paths[i] != q
      ensures Sections(fe, paths, sources[q := other])[i] == Sections(fe, paths, sources)[i]
    {
      assert SourceOf(sources[q := other], paths[i]) == SourceOf(sources, paths[i]);
    }
  }

  /** The VS Code document: the four header parts, then the sections, all joined by blank lines. */
  lemma TsLayout(projectName: string, paths: seq<string>, sources: map<string, FileSource>)
    requires |paths| >= 1
    ensures TsMarkdown(projectName, paths, sources) ==
              Some(JoinWith(DesktopHeader(projectName, paths), "\n\n") + "\n\n" + JoinWith(Sections(Desktop, paths, sources), "\n\n"))
    ensures |DesktopHeader(projectName, paths) + Sections(Desktop, paths, sources)| == 4 + |paths|
  {
    JoinWithAppend(DesktopHeader(projectName, paths), Sections(Desktop, paths, sources), "\n\n");
  }

  /**
   * The compiled handler produces what the TypeScript one does, under its
   * extra guards: the `*(未选中任何文件)*` branch can never be taken.
   */
  lemma CompiledAgreesWithTs(folder: Option<string>, fileCount: nat, paths: seq<string>, messageName: string,
                             sources: map<string, FileSource>)
    ensures CompiledMarkdown(folder, fileCount, paths, messageName, sources) ==
              if folder.None? || fileCount == 0 then None
              else TsMarkdown(OrDefault(messageName, BaseName(folder.value)), paths, sources)
  {
    if folder.Some? && fileCount > 0 && |paths| > 0 {
      var h := DesktopHeader(OrDefault(messageName, BaseName(folder.value)), paths);
      var ss := Sections(Desktop, paths, sources);
      assert h[..3] + [h[3]] == h;
      AppendAssoc(h[..3], [h[3]], ss);
    }
  }

  /** `JoinWith` over a part in front of a non-empty rest. */
  lemma JoinWithCons(a: string, rest: seq<string>, sep: string)
    requires |rest| >= 1
    ensures JoinWith([a] + rest, sep) == a + sep + JoinWith(rest, sep)
  {
    assert ([a] + rest)[1..] == rest;
  }

  /** The mobile page with nothing selected: the placeholder tree and the placeholder in place of the contents. */
  lemma MobileEmpty(projectName: string, sources: map<string, FileSource>)
    ensures MobileMarkdown(projectName, [], sources) ==
              ("# 项目概览：" + OrDefault(projectName, "untitled") + "\n") + "\n\n" + (("## 📁 目录结构\n") + "\n\n"
              + (("```\n" + (DirTree.MobileRootName(projectName) + "/\n" + "└── (无选中文件)\n") + "\n```\n") + "\n\n" + "*(未选中任何文件)*"))
  {
    var p0 := "# 项目概览：" + OrDefault(projectName, "untitled") + "\n";
    var p1 := "## 📁 目录结构\n";
    var p2 := "```\n" + DirTree.TreeText([], DirTree.MobileRootName(projectName)) + "\n```\n";
    var p3 := "*(未选中任何文件)*";
    assert MobileParts(projectName, [], sources) == [p0] + ([p1] + ([p2] + [p3]));
    JoinWithCons(p0, [p1] + ([p2] + [p3]), "\n\n");
    JoinWithCons(p1, [p2] + [p3], "\n\n");
    JoinWithCons(p2, [p3], "\n\n");
  }

  /**
   * `GenerateThread.run` with nothing selected: the placeholder tree has no
   * final newline, so the closing fence lands on the placeholder's line.
   * `generate_markdown` refuses an empty selection before starting the thread.
   */
  lemma PyEmptyTreeFence(rootName: string, sources: map<string, FileSource>)
    ensures PyMarkdown(rootName, [], sources) ==
              Some(("# 项目概览：" + rootName + "\n") + "\n" + (("## 📁 目录结构\n") + "\n"
                   + (("```\n" + (rootName + "/\n└── (无选中文件)") + "```\n") + "\n" + "*(未选中任何文件)*")))
  {
    var p0 := "# 项目概览：" + rootName + "\n";
    var p1 := "## 📁 目录结构\n";
    var p2 := "```\n" + (rootName + "/\n└── (无选中文件)") + "```\n";
    var p3 := "*(未选中任何文件)*";
    assert PyTree.TreeText([], rootName) == Some(rootName + "/\n└── (无选中文件)");
    assert PyMarkdown(rootName, [], sources) == Some(JoinWith([p0, p1, p2] + [p3], "\n"));
    assert [p0, p1, p2] + [p3] == [p0] + ([p1] + ([p2] + [p3]));
    JoinWithCons(p0, [p1] + ([p2] + [p3]), "\n");
    JoinWithCons(p1, [p2] + [p3], "\n");
    JoinWithCons(p2, [p3], "\n");
  }

  /**
   * A selected path that is no `file_map` key, as a selection kept across a
   * rescan can be, leaves the Qt application without a document; with every
   * path a key, only a failing `_build_tree` does.
   */
  lemma PyMissingKeyNoDocument(rootName: string, paths: seq<string>, sources: map<string, FileSource>)
    ensures PyMarkdown(rootName, paths, sources).None? <==>
              (exists i :: 0 <= i < |paths| && paths[i] !in sources) || PyTree.TreeText(paths, rootName).None?
  {
  }

  /** Away from the binary case, the Python section is the VS Code section with one more newline. */
  lemma PySectionIsDesktopPlusNewline(path: string, src: FileSource)
    requires !DesktopBinary(path, src.bytes)
    ensures Section(Python, path, src) == Section(Desktop, path, src) + "\n"
  {
    PyAgreesWithDesktop(path, src.bytes);
  }

  /** `script.js` never checks for binary content: whatever reads as text is fenced, even a denylisted image. */
  lemma ScriptFencesEverything(path: string, bytes: Option<seq<byte>>, content: string)
    ensures Section(Script, path, FileSource(bytes, Ok(content))) == Heading(path) + Fenced(Lang(RawExtension(path)), content)
  {
  }

  /** A concrete image: `script.js` fences its text, while VS Code marks it binary. */
  lemma ScriptFencesImage(bytes: Option<seq<byte>>, content: string)
    ensures Section(Script, "a.png", FileSource(bytes, Ok(content))) == Heading("a.png") + Fenced("png", content)
    ensures Section(Desktop, "a.png", FileSource(bytes, Ok(content))) == Heading("a.png") + Fenced("", BinaryMarker)
  {
    ImageExtension();
    assert "png" in DesktopDenied;
  }

  // ---------------------------------------------------------- sensitive paths

  const MobileKeywords: seq<string> := [
    ".env", ".key", ".pem", "id_rsa", "id_dsa", "id_ed25519",
    "password", "secret", "token", "credential", "aws", "private",
    "config.local", ".npmrc", ".gitconfig"
  ]

  /** The list of the webview's generate button, in `extension.ts` and `extension.js`. */
  const WebviewKeywords: seq<string> := [".env", "secret", "password", "key", "token"]

  const PyKeywords: seq<string> := [
    ".env", ".key", ".pem", "id_rsa", "id_dsa",
    "password", "secret", "token", "credential", "aws", "private"
  ]

  /** A path is flagged when its lower-cased form contains a keyword. */
  predicate Flagged(path: string, keywords: seq<string>)
  {
    exists k :: 0 <= k < |keywords| && Contains(Lower(path), keywords[k])
  }

  /** `paths.some(...)`, or Python's non-empty list of flagged paths. */
  function SensitivePaths(paths: seq<string>, keywords: seq<string>): (r: seq<string>)
    ensures forall p :: p in r <==> p in paths && Flagged(p, keywords)
  {
    if |paths| == 0 then []
    else (if Flagged(paths[0], keywords) then [paths[0]] else []) + SensitivePaths(paths[1..], keywords)
  }

  predicate HasSensitiveFiles(paths: seq<string>, keywords: seq<string>)
  {
    |SensitivePaths(paths, keywords)| > 0
  }

  lemma HasSensitiveMeaning(paths: seq<string>, keywords: seq<string>)
    ensures HasSensitiveFiles(paths, keywords) <==> exists i :: 0 <= i < |paths| && Flagged(paths[i], keywords)
  {
    if HasSensitiveFiles(paths, keywords) {
      var p := SensitivePaths(paths, keywords)[0];
      assert p in SensitivePaths(paths, keywords);
      var i :| 0 <= i < |paths| && paths[i] == p;
    }
    if exists i :: 0 <= i < |paths| && Flagged(paths[i], keywords) {
      var i :| 0 <= i < |paths| && Flagged(paths[i], keywords);
      assert paths[i] in SensitivePaths(paths, keywords);
    }
  }

  /** The Python list is part of the mobile list, so the mobile page warns whenever the Qt application does. */
  lemma MobileWarnsWhenPythonDoes(path: string)
    requires Flagged(path, PyKeywords)
    ensures Flagged(path, MobileKeywords)
  {
    var k :| 0 <= k < |PyKeywords| && Contains(Lower(path), PyKeywords[k]);
    // the mobile list has `id_ed25519` in fifth place
    var j := if k < 5 then k else k + 1;
    assert MobileKeywords[j] == PyKeywords[k];
  }

  /** The webview's bare `key` flags every path the `.key` keyword flags, and more. */
  lemma WebviewKeyIsBroader(path: string)
    requires Contains(Lower(path), ".key")
    ensures Flagged(path, WebviewKeywords)
  {
    var s := Lower(path);
    ContainsAt(s, ".key");
    var i :| OccursAt(s, ".key", i);
    assert s[i + 1..i + 4] == "key";
    assert OccursAt(s, "key", i + 1);
    ContainsAt(s, "key");
    assert WebviewKeywords[3] == "key";
  }

  // ---------------------------------------------------------- export name

  /** The export file name of `extension.js`: `(projectName||'project')_YYYYMMDD.md` from an ISO timestamp. */
  function ExportName(projectName: string, isoTimestamp: string): string
  {
    OrDefault(projectName, "project") + "_" + Remove(isoTimestamp[..Min(10, |isoTimestamp|)], '-') + ".md"
  }

  /** For a timestamp `YYYY-MM-DDT…`, the date part is the eight digits without dashes. */
  lemma ExportNameDate(projectName: string, y: string, m: string, d: string, rest: string)
    requires |y| == 4 && |m| == 2 && |d| == 2 && '-' !in y && '-' !in m && '-' !in d
    ensures ExportName(projectName, y + "-" + m + "-" + d + rest) == OrDefault(projectName, "project") + "_" + y + m + d + ".md"
  {
    var ts := y + "-" + m + "-" + d + rest;
    assert ts[..10] == y + "-" + m + "-" + d;
    assert Min(10, |ts|) == 10;
    DashesRemoved(y, m, d);
  }

  /** Removing the dashes of `y-m-d` leaves the digits. */
  lemma DashesRemoved(y: string, m: string, d: string)
    requires '-' !in y && '-' !in m && '-' !in d
    ensures Remove(y + "-" + m + "-" + d, '-') == y + m + d
  {
    var dash := "-";
    assert Remove(dash, '-') == "";
    RemoveAbsent(y, '-');
    RemoveAbsent(m, '-');
    RemoveAbsent(d, '-');
    RemoveAppend(y, dash, '-');
    assert Remove(y + dash, '-') == y;
    RemoveAppend(y + dash, m, '-');
    assert Remove(y + dash + m, '-') == y + m;
    RemoveAppend(y + dash + m, dash, '-');
    assert Remove(y + dash + m + dash, '-') == y + m;
    RemoveAppend(y + dash + m + dash, d, '-');
  }
}
