/**
 * The binary-file classifiers. A file is skipped as binary when its
 * extension is denylisted, when it cannot be read, or when its first bytes
 * look like a binary format. The web front end (`mobile/script.js`) looks
 * at two-byte signatures and at NUL bytes among the first 512; the VS Code
 * extension and the Qt application probe four bytes and treat a file
 * shorter than that as text. The file's bytes are an input: `None` stands
 * for a failed open or read.
 */
module Binary {
  import opened Wrappers
  import opened Text
  import opened Extension

  /** Denylist of `mobile/script.js`. */
  const MobileDenied: set<string> := {
    "png", "jpg", "jpeg", "gif", "bmp", "ico", "webp", "svg",
    "mp4", "mp3", "avi", "mov", "wmv", "flv", "webm",
    "pdf", "xls", "xlsx", "ppt", "pptx", "doc", "docx",
    "zip", "rar", "7z", "tar", "gz", "bz2",
    "exe", "dll", "so", "dylib",
    "iso", "img", "dmg",
    "woff", "woff2", "ttf", "eot", "otf",
    "psd", "ai", "eps", "sketch",
    "bin", "dat", "db", "sqlite", "cur", "icns",
    "jar", "war", "class"
  }

  /** Denylist shared by `extension.ts`, `extension.js` and `repo2md_gui.py`. */
  const DesktopDenied: set<string> := {
    "png", "jpg", "jpeg", "gif", "bmp", "ico", "webp",
    "mp4", "mp3", "avi", "mov", "wmv", "flv",
    "pdf", "xls", "xlsx", "ppt", "pptx",
    "zip", "rar", "7z", "tar", "gz",
    "exe", "dll", "so", "dylib",
    "iso", "img",
    "woff", "woff2", "ttf", "eot",
    "psd", "ai", "eps",
    "bin", "dat", "db", "sqlite", "cur", "icns"
  }

  predicate StartsWithBytes(b: seq<byte>, m: seq<byte>)
  {
    |m| <= |b| && b[..|m|] == m
  }

  // ---------------------------------------------------------------- web

  /** The first 512 bytes, what `file.slice(0, 512)` delivers. */
  function Header(b: seq<byte>): (h: seq<byte>)
    ensures |h| == Min(512, |b|) && h == b[..|h|]
  {
    b[..Min(512, |b|)]
  }

  /** The two-byte tests; an index past the end reads `undefined`, which equals no byte. */
  predicate MobileSignature(h: seq<byte>)
  {
    |h| >= 2 &&
    ((h[0] == 0x25 && h[1] == 0x50) ||
     (h[0] == 0x89 && h[1] == 0x50) ||
     (h[0] == 0xFF && h[1] == 0xD8) ||
     (h[0] == 0x47 && h[1] == 0x49) ||
     (h[0] == 0x00 && h[1] == 0x00))
  }

  /** The verdict of the web front end for a path and its bytes. */
  predicate MobileBinary(path: string, data: Option<seq<byte>>)
  {
    GetExtension(path) in MobileDenied ||
    data.None? ||
    MobileSignature(Header(data.value)) ||
    0 in Header(data.value)
  }

  /** The web classifier: extension check, signature checks, then a scan for a NUL byte. */
  method IsBinaryMobile(path: string, data: Option<seq<byte>>) returns (binary: bool)
    ensures binary == MobileBinary(path, data)
  {
    if GetExtension(path) in MobileDenied {
      return true;
    }
    if data.None? {
      return true;
    }
    var view := Header(data.value);
    if MobileSignature(view) {
      return true;
    }
    var i := 0;
    while i < Min(512, |view|)
      invariant 0 <= i <= |view|
      invariant forall k :: 0 <= k < i ==> view[k] != 0
    {
      if view[i] == 0 {
        return true;
      }
      i := i + 1;
    }
    return false;
  }

  /** Bytes after the first 512 never change the verdict. */
  lemma MobileOnlyHeaderMatters(path: string, b: seq<byte>, more: seq<byte>)
    requires |b| >= 512
    ensures MobileBinary(path, Some(b + more)) == MobileBinary(path, Some(b))
  {
    assert Header(b + more) == Header(b);
  }

  /** The `00 00` signature never decides anything: the NUL scan catches it. */
  lemma MobileZeroPairRedundant(path: string, b: seq<byte>)
    ensures MobileBinary(path, Some(b)) <==>
              (GetExtension(path) in MobileDenied ||
               (|Header(b)| >= 2 &&
                ((b[0] == 0x25 && b[1] == 0x50) || (b[0] == 0x89 && b[1] == 0x50) ||
                 (b[0] == 0xFF && b[1] == 0xD8) || (b[0] == 0x47 && b[1] == 0x49))) ||
               0 in Header(b))
  {
    var h := Header(b);
    if |h| >= 2 && h[0] == 0 && h[1] == 0 {
      assert 0 in h;
    }
  }

  /** Readable content without NUL bytes and without a listed signature is text; empty content in particular. */
  lemma MobileTextFile(path: string, b: seq<byte>)
    requires GetExtension(path) !in MobileDenied
    requires forall i :: 0 <= i < |b| ==> b[i] != 0
    requires !MobileSignature(Header(b))
    ensures !MobileBinary(path, Some(b))
  {
    var h := Header(b);
    assert forall i :: 0 <= i < |h| ==> h[i] == b[i];
  }

  /** ZIP (`PK`) and gzip (`1F 8B`) signatures are not in the web list: with no NUL byte they pass as text. */
  lemma MobileMissesZipAndGzip(path: string)
    requires GetExtension(path) !in MobileDenied
    ensures !MobileBinary(path, Some([0x50, 0x4B, 0x03, 0x04]))
    ensures !MobileBinary(path, Some([0x1F, 0x8B, 0x08]))
  {
    MobileTextFile(path, [0x50, 0x4B, 0x03, 0x04]);
    MobileTextFile(path, [0x1F, 0x8B, 0x08]);
  }

  // ------------------------------------------------------------ desktop

  /** The four-byte tests of `extension.ts` / `extension.js`, applied once four bytes were read. */
  predicate DesktopSignature(h: seq<byte>)
    requires |h| >= 4
  {
    (h[0] == 0x25 && h[1] == 0x50 && h[2] == 0x44 && h[3] == 0x46) ||
    (h[0] == 0x89 && h[1] == 0x50 && h[2] == 0x4E && h[3] == 0x47) ||
    (h[0] == 0xFF && h[1] == 0xD8 && h[2] == 0xFF) ||
    (h[0] == 0x50 && h[1] == 0x4B) ||
    (h[0] == 0x1F && h[1] == 0x8B)
  }

  /** The verdict of the VS Code extension (both the TypeScript source and the compiled file). */
  predicate DesktopBinary(path: string, data: Option<seq<byte>>)
  {
    GetExtension(path) in DesktopDenied ||
    data.None? ||
    (|data.value| >= 4 && DesktopSignature(data.value[..4]))
  }

  /** The five file signatures, as byte strings: PDF, PNG, JPEG, ZIP, gzip. */
  const DesktopMagics: seq<seq<byte>> := [
    [0x25, 0x50, 0x44, 0x46], [0x89, 0x50, 0x4E, 0x47], [0xFF, 0xD8, 0xFF], [0x50, 0x4B], [0x1F, 0x8B]
  ]

  /** For a readable file of at least four bytes the verdict is "starts with one of the five signatures". */
  lemma DesktopSignatureMeaning(path: string, b: seq<byte>)
    requires GetExtension(path) !in DesktopDenied
    requires |b| >= 4
    ensures DesktopBinary(path, Some(b)) <==>
              exists k :: 0 <= k < |DesktopMagics| && StartsWithBytes(b, DesktopMagics[k])
  {
    if DesktopSignature(b[..4]) {
      var k := if b[0] == 0x25 then 0 else if b[0] == 0x89 then 1 else if b[0] == 0xFF then 2
               else if b[0] == 0x50 then 3 else 4;
      assert StartsWithBytes(b, DesktopMagics[k]);
    }
    if exists k :: 0 <= k < |DesktopMagics| && StartsWithBytes(b, DesktopMagics[k]) {
      var k :| 0 <= k < |DesktopMagics| && StartsWithBytes(b, DesktopMagics[k]);
      var m := DesktopMagics[k];
      assert forall i :: 0 <= i < |m| ==> b[i] == m[i];
    }
  }

  /** Fewer than four readable bytes is always text, even a file holding only `PK` or `1F 8B`. */
  lemma DesktopShortReadIsText(path: string, b: seq<byte>)
    requires GetExtension(path) !in DesktopDenied
    requires |b| < 4
    ensures !DesktopBinary(path, Some(b))
  {
  }

  /** A denylisted extension or a failed read is binary whatever the bytes. */
  lemma DeniedOrUnreadableIsBinary(path: string, b: seq<byte>)
    ensures GetExtension(path) in DesktopDenied ==> DesktopBinary(path, Some(b))
    ensures DesktopBinary(path, None) && MobileBinary(path, None)
    ensures GetExtension(path) in MobileDenied ==> MobileBinary(path, Some(b))
  {
  }

  /** Bytes after the fourth never change the desktop verdict. */
  lemma DesktopOnlyFirstFourMatter(path: string, b: seq<byte>, more: seq<byte>)
    requires |b| >= 4
    ensures DesktopBinary(path, Some(b + more)) == DesktopBinary(path, Some(b))
  {
    assert (b + more)[..4] == b[..4];
  }

  /** The web denylist extends the desktop one. */
  lemma DenylistsNested()
    ensures DesktopDenied <= MobileDenied
    ensures "svg" in MobileDenied - DesktopDenied
  {
  }

  // ------------------------------------------------------------- Python

  /** `is_binary_file(file_path, check_magic)` of `repo2md_gui.py`: a verdict and its reason. */
  function PyBinary(path: string, checkMagic: bool, data: Option<seq<byte>>): (r: (bool, string))
  {
    var ext := GetExtension(path);
    if ext in DesktopDenied then (true, "扩展名 " + ext + " 在黑名单中")
    else if !checkMagic then (false, "")
    else if data.None? then (true, "读取失败")
    else
      var header := data.value[..Min(4, |data.value|)];
      if |header| < 4 then (false, "")
      else if StartsWithBytes(header, [0x25, 0x50, 0x44, 0x46]) then (true, "魔数 PDF")
      else if StartsWithBytes(header, [0x89, 0x50, 0x4E, 0x47]) then (true, "魔数 PNG")
      else if StartsWithBytes(header, [0xFF, 0xD8, 0xFF]) then (true, "魔数 JPEG")
      else if StartsWithBytes(header, [0x50, 0x4B]) then (true, "魔数 ZIP")
      else if StartsWithBytes(header, [0x1F, 0x8B]) then (true, "魔数 GZIP")
      else (false, "")
  }

  /** With the magic check on, the Python verdict is the VS Code verdict; off, only the denylist counts. */
  lemma PyAgreesWithDesktop(path: string, data: Option<seq<byte>>)
    ensures PyBinary(path, true, data).0 == DesktopBinary(path, data)
    ensures PyBinary(path, false, data).0 == (GetExtension(path) in DesktopDenied)
  {
    if GetExtension(path) !in DesktopDenied && data.Some? && |data.value| >= 4 {
      var h := data.value[..4];
      assert data.value[..Min(4, |data.value|)] == h;
      assert StartsWithBytes(h, [0x25, 0x50, 0x44, 0x46]) <==> (h[0] == 0x25 && h[1] == 0x50 && h[2] == 0x44 && h[3] == 0x46);
      assert StartsWithBytes(h, [0x89, 0x50, 0x4E, 0x47]) <==> (h[0] == 0x89 && h[1] == 0x50 && h[2] == 0x4E && h[3] == 0x47);
      assert StartsWithBytes(h, [0xFF, 0xD8, 0xFF]) <==> (h[0] == 0xFF && h[1] == 0xD8 && h[2] == 0xFF);
      assert StartsWithBytes(h, [0x50, 0x4B]) <==> (h[0] == 0x50 && h[1] == 0x4B);
      assert StartsWithBytes(h, [0x1F, 0x8B]) <==> (h[0] == 0x1F && h[1] == 0x8B);
    }
  }

  /** A reason is given exactly when the file is judged binary. */
  lemma PyReasonIffBinary(path: string, checkMagic: bool, data: Option<seq<byte>>)
    ensures PyBinary(path, checkMagic, data).0 <==> PyBinary(path, checkMagic, data).1 != ""
  {
    var ext := GetExtension(path);
    if ext in DesktopDenied {
      assert ("扩展名 " + ext + " 在黑名单中")[0] == '扩';
    }
  }
}
