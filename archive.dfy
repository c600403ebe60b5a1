/**
 * Choosing how an uploaded archive is unpacked (`extractArchive` in
 * `mobile/script.js`): the lower-cased file name's text after its last
 * `.` selects ZIP, TAR or gzip-compressed TAR; anything else is refused.
 */
module Archive {
  import opened Wrappers
  import opened Text

  datatype Format = Zip | Tar | GzipTar

  const Unsupported: string := "不支持的压缩格式"

  /** `filename.split('.').pop()` of the lower-cased name: the whole name when it has no dot. */
  function Suffix(filename: string): string
  {
    LastPart(Lower(filename), '.')
  }

  /** The dispatch: `zip`, then `tar`, then `gz`, `tgz` or a `.tar.gz` ending, else the error. */
  function Dispatch(filename: string): Result<Format, string>
  {
    var lower := Lower(filename);
    var ext := Suffix(filename);
    if ext == "zip" then Ok(Zip)
    else if ext == "tar" then Ok(Tar)
    else if ext == "gz" || ext == "tgz" || EndsWith(lower, ".tar.gz") then Ok(GzipTar)
    else Err(Unsupported)
  }

  /** A name ending in `.tar.gz` already has the suffix `gz`. */
  lemma TarGzHasGzSuffix(lower: string)
    requires EndsWith(lower, ".tar.gz")
    ensures LastPart(lower, '.') == "gz"
  {
    var a := lower[..|lower| - 3];
    assert lower == a + ['.'] + "gz";
    LastPartAfter(a, "gz", '.');
    SplitNoSep("gz", '.');
  }

  /** Each outcome exactly: the suffix alone decides, so the `.tar.gz` test never adds a case. */
  lemma DispatchMeaning(filename: string)
    ensures Dispatch(filename) == Ok(Zip) <==> Suffix(filename) == "zip"
    ensures Dispatch(filename) == Ok(Tar) <==> Suffix(filename) == "tar"
    ensures Dispatch(filename) == Ok(GzipTar) <==> Suffix(filename) in {"gz", "tgz"}
    ensures Dispatch(filename).Err? <==> Suffix(filename) !in {"zip", "tar", "gz", "tgz"}
    ensures Dispatch(filename).Err? ==> Dispatch(filename).error == Unsupported
  {
    if EndsWith(Lower(filename), ".tar.gz") {
      TarGzHasGzSuffix(Lower(filename));
    }
  }

  /** Case is ignored: an upper-case `.TGZ` upload is unpacked as gzip-compressed TAR. */
  lemma UpperCaseSuffix()
    ensures Dispatch("Src.TGZ") == Ok(GzipTar)
  {
    assert Suffix("Src.TGZ") == "tgz" by {
      assert Lower("Src.TGZ") == "src" + ['.'] + "tgz";
      LastPartAfter("src", "tgz", '.');
      SplitNoSep("tgz", '.');
    }
  }

  /** A name without any dot is its own suffix: an upload called `zip` counts as ZIP. */
  lemma DotlessName()
    ensures Dispatch("zip") == Ok(Zip)
  {
    assert Lower("zip") == "zip";
    SplitNoSep("zip", '.');
  }
}
