/**
 * File-extension extraction. Every front end takes the text after the
 * last `.` of the final `/`-separated segment, or the placeholder
 * `[无后缀]` when that segment has no dot; all but the root `script.js`
 * lower-case the result.
 */
module Extension {
  import opened Text

  /** Placeholder extension of a file name without a dot. */
  const NoExtension: string := "[无后缀]"

  /** The final `/`-separated segment of a path. */
  function BaseName(path: string): (r: string)
    ensures '/' !in r
  {
    LastPart(path, '/')
  }

  /** Extension as the root `script.js` computes it: not lower-cased. */
  function RawExtension(path: string): (r: string)
  {
    var file := BaseName(path);
    var dot := LastIndexOf(file, '.');
    if dot == -1 then NoExtension else file[dot + 1..]
  }

  /** Extension as `mobile/script.js`, `extension.ts`, `extension.js` and `repo2md_gui.py` compute it. */
  function GetExtension(path: string): (r: string)
  {
    var file := BaseName(path);
    var dot := LastIndexOf(file, '.');
    if dot == -1 then NoExtension else Lower(file[dot + 1..])
  }

  /** What the extension is: the placeholder without a dot, else the dot-free tail of the base name. */
  lemma RawExtensionMeaning(path: string)
    ensures '.' !in BaseName(path) ==> RawExtension(path) == NoExtension
    ensures '.' in BaseName(path) ==>
              '.' !in RawExtension(path) && EndsWith(BaseName(path), "." + RawExtension(path))
    ensures '/' !in RawExtension(path)
  {
    var file := BaseName(path);
    if '.' in file {
      DotTail(file);
    } else {
      NoDot(file);
    }
  }

  /** Without a dot there is no last dot. */
  lemma NoDot(file: string)
    requires '.' !in file
    ensures LastIndexOf(file, '.') == -1
  {
  }

  /** The text after the last dot holds no dot, and the file name ends with it after a dot. */
  lemma DotTail(file: string)
    requires '.' in file && '/' !in file
    ensures 0 <= LastIndexOf(file, '.')
    ensures '.' !in file[LastIndexOf(file, '.') + 1..] && '/' !in file[LastIndexOf(file, '.') + 1..]
    ensures EndsWith(file, "." + file[LastIndexOf(file, '.') + 1..])
  {
    DotFound(file);
    TailChars(file, LastIndexOf(file, '.'));
    TailEnds(file, LastIndexOf(file, '.'));
  }

  lemma DotFound(file: string)
    requires '.' in file
    ensures 0 <= LastIndexOf(file, '.')
  {
    var k :| 0 <= k < |file| && file[k] == '.';
    assert LastIndexOf(file, '.') >= k;
  }

  lemma TailChars(file: string, dot: int)
    requires dot == LastIndexOf(file, '.') && 0 <= dot && '/' !in file
    ensures '.' !in file[dot + 1..] && '/' !in file[dot + 1..]
  {
    var r := file[dot + 1..];
    forall i | 0 <= i < |r|
      ensures r[i] != '.' && r[i] != '/'
    {
      assert r[i] == file[dot + 1 + i];
      assert file[dot + 1 + i] in file;
    }
  }

  lemma TailEnds(file: string, dot: int)
    requires 0 <= dot < |file| && file[dot] == '.'
    ensures EndsWith(file, "." + file[dot + 1..])
  {
    assert file[dot..] == "." + file[dot + 1..];
  }

  /** The lower-casing variants differ from `script.js` only by ASCII case folding. */
  lemma GetExtensionIsLowerRaw(path: string)
    ensures GetExtension(path) == Lower(RawExtension(path))
  {
    if LastIndexOf(BaseName(path), '.') == -1 {
      assert Lower(NoExtension) == NoExtension;
    }
  }

  /** The returned extension never holds `/` or `.`, so it names a suffix of the base name. */
  lemma ExtensionHasNoSeparators(path: string)
    ensures '/' !in GetExtension(path) && '.' !in GetExtension(path)
    ensures '/' !in RawExtension(path) && '.' !in RawExtension(path)
  {
    RawExtensionMeaning(path);
    GetExtensionIsLowerRaw(path);
    LowerAbsent(RawExtension(path), '.');
    LowerAbsent(RawExtension(path), '/');
    assert '.' !in NoExtension;
  }

  /** Only the final segment matters: a directory in front never changes the extension. */
  lemma ExtensionOfNestedPath(dir: string, path: string)
    ensures GetExtension(dir + "/" + path) == GetExtension(path)
    ensures RawExtension(dir + "/" + path) == RawExtension(path)
  {
    LastPartAfter(dir, path, '/');
    assert BaseName(dir + "/" + path) == BaseName(path);
  }

  /** A concrete pair: upper-case extensions are folded by every variant but `script.js`. */
  lemma UpperCaseExtension()
    ensures GetExtension("src/A.JS") == "js"
    ensures RawExtension("src/A.JS") == "JS"
  {
    assert "src/A.JS" == "src" + "/" + "A.JS";
    ExtensionOfNestedPath("src", "A.JS");
    SplitNoSep("A.JS", '/');
    assert BaseName("A.JS") == "A.JS";
    assert LastIndexOf("A.JS", '.') == 1;
    assert "A.JS"[2..] == "JS";
    assert Lower("JS") == "js";
  }

  /** A concrete lower-case extension, the same for every variant. */
  lemma ImageExtension()
    ensures GetExtension("a.png") == "png" && RawExtension("a.png") == "png"
  {
    SplitNoSep("a.png", '/');
    assert BaseName("a.png") == "a.png";
    assert LastIndexOf("a.png", '.') == 1;
    assert "a.png"[2..] == "png";
    assert Lower("png") == "png";
  }
}
