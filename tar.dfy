/**
 * The TAR member reader of the web front end (`TarParser.parse` in
 * `mobile/script.js`). It walks a byte buffer in 512-byte header blocks
 * laid out as the ustar header of POSIX.1 (IEEE Std 1003.1, pax,
 * "ustar Interchange Format"): the name at offset 0 (100 bytes), the size
 * at 124 (12 octal bytes), the type flag at 156 and the name prefix at 345
 * (155 bytes). It stops at an all-zero block and never looks at the checksum
 * or the `ustar` magic. Names stay byte strings.
 *
 * The size field goes through JavaScript's `parseInt(s, 8)`, which accepts
 * a sign. The reader as written then advances by `512 + ceil(size/512)*512`,
 * which is 0 for sizes from -1023 to -512: the same header is read again
 * forever (`AdvanceAsWritten`, `NegativeSizeStalls`). The model clamps a
 * negative size to 0 (`HeaderSize`), the size the reader already uses for
 * fields that do not parse.
 */
module Tar {
  import opened Wrappers
  import opened Text

  const BlockSize: nat := 512

  /** One emitted member: `{name, content, size}`. */
  datatype TarEntry = TarEntry(name: seq<byte>, content: seq<byte>, size: nat)

  // ------------------------------------------------------------ header fields

  predicate IsZeroBlock(h: seq<byte>)
  {
    forall i :: 0 <= i < |h| ==> h[i] == 0
  }

  /** Length of the NUL-free start of `s`. */
  function NulFreeLength(s: seq<byte>): (n: nat)
    ensures n <= |s|
    ensures forall i :: 0 <= i < n ==> s[i] != 0
    ensures n < |s| ==> s[n] == 0
  {
    if |s| == 0 || s[0] == 0 then 0 else 1 + NulFreeLength(s[1..])
  }

  /** A C-string header field: the bytes of `h[start..start+width]` up to the first NUL. */
  function CField(h: seq<byte>, start: nat, width: nat): (f: seq<byte>)
    requires start + width <= |h|
    ensures |f| <= width && 0 !in f
    ensures f == h[start..start + |f|]
    ensures |f| < width ==> h[start + |f|] == 0
  {
    var raw := h[start..start + width];
    raw[..NulFreeLength(raw)]
  }

  /** Drops every NUL (0) and space (32) byte, as the size loop does. */
  function DropNulSpace(s: seq<byte>): (r: seq<byte>)
    ensures |r| <= |s|
    ensures forall i :: 0 <= i < |r| ==> r[i] != 0 && r[i] != 32
  {
    if |s| == 0 then []
    else (if s[0] == 0 || s[0] == 32 then [] else [s[0]]) + DropNulSpace(s[1..])
  }

  lemma {:induction false} DropNulSpaceAppend(a: seq<byte>, b: seq<byte>)
    ensures DropNulSpace(a + b) == DropNulSpace(a) + DropNulSpace(b)
  {
    if |a| > 0 {
      assert (a + b)[1..] == a[1..] + b;
      DropNulSpaceAppend(a[1..], b);
    } else {
      assert a + b == b;
    }
  }

  lemma {:induction false} DropNulSpaceZeros(s: seq<byte>)
    requires forall i :: 0 <= i < |s| ==> s[i] == 0
    ensures DropNulSpace(s) == []
  {
    if |s| > 0 {
      DropNulSpaceZeros(s[1..]);
    }
  }

  /** The size field's characters as the reader collects them. */
  function SizeField(h: seq<byte>): seq<byte>
    requires |h| == BlockSize
  {
    DropNulSpace(h[124..136])
  }

  // --------------------------------------------------------- parseInt(s, 8)

  /** Characters `parseInt` skips before the number: tab, line feed, vertical tab, form feed, carriage return, no-break space. */
  predicate IsJsSpace(b: byte)
  {
    9 <= b <= 13 || b == 160
  }

  predicate IsOctalDigit(b: byte)
  {
    48 <= b <= 55
  }

  /** Index of the first byte at or after `i` that `parseInt` does not skip as a space. */
  function SkipSpaces(s: seq<byte>, i: nat): (k: nat)
    requires i <= |s|
    ensures i <= k <= |s|
    ensures forall j :: i <= j < k ==> IsJsSpace(s[j])
    ensures k < |s| ==> !IsJsSpace(s[k])
    decreases |s| - i
  {
    if i < |s| && IsJsSpace(s[i]) then SkipSpaces(s, i + 1) else i
  }

  /** End of the run of octal digits starting at `i`. */
  function DigitsEnd(s: seq<byte>, i: nat): (k: nat)
    requires i <= |s|
    ensures i <= k <= |s|
    ensures forall j :: i <= j < k ==> IsOctalDigit(s[j])
    ensures k < |s| ==> !IsOctalDigit(s[k])
    decreases |s| - i
  {
    if i < |s| && IsOctalDigit(s[i]) then DigitsEnd(s, i + 1) else i
  }

  /** Value of a string of octal digits, most significant first. */
  function OctalValue(d: seq<byte>): nat
    requires forall i :: 0 <= i < |d| ==> IsOctalDigit(d[i])
  {
    if |d| == 0 then 0
    else
      var last := d[|d| - 1];
      assert IsOctalDigit(last);
      OctalValue(d[..|d| - 1]) * 8 + (last as int - 48)
  }

  /** `parseInt(s, 8)`: leading spaces, an optional sign, the longest digit run; `None` for NaN. */
  function JsParseOctal(s: seq<byte>): Option<int>
  {
    var k := SkipSpaces(s, 0);
    var negative := k < |s| && s[k] == 45;
    var start := if k < |s| && (s[k] == 45 || s[k] == 43) then k + 1 else k;
    var end := DigitsEnd(s, start);
    if end == start then None
    else
      var v: int := OctalValue(s[start..end]);
      Some(if negative then -v else v)
  }

  /** `parseInt(sizeStr, 8) || 0`: NaN becomes 0; a negative value survives. */
  function SizeAsWritten(h: seq<byte>): int
    requires |h| == BlockSize
  {
    match JsParseOctal(SizeField(h))
    case None => 0
    case Some(v) => v
  }

  /** The size the model uses: the parsed value, negative values clamped to 0. */
  function HeaderSize(h: seq<byte>): nat
    requires |h| == BlockSize
  {
    var v := SizeAsWritten(h);
    if v < 0 then 0 else v
  }

  // ---------------------------------------------------------------- advance

  /** `Math.ceil(size / 512)` of JavaScript, for any integer size. */
  function JsCeilBlocks(size: int): int
  {
    -((-size) / 512)
  }

  /** Offset after a header as the source computes it: `offset + 512 + ceil(size/512)*512`. */
  function AdvanceAsWritten(offset: int, size: int): int
  {
    offset + BlockSize + JsCeilBlocks(size) * BlockSize
  }

  /** Offset after a header with the clamped size: the header plus the padded content. */
  function Advance(offset: nat, size: nat): (next: nat)
    ensures next >= offset + BlockSize
    ensures next >= offset + BlockSize + size
    ensures (next - offset) % BlockSize == 0
  {
    offset + BlockSize + JsCeilBlocks(size) * BlockSize
  }

  /** `ceil` rounds an integer size up to whole blocks: the padding is less than one block. */
  lemma CeilBlocksBounds(size: nat)
    ensures JsCeilBlocks(size) * BlockSize >= size
    ensures JsCeilBlocks(size) * BlockSize < size + BlockSize
  {
  }

  /** As written, a size from -1023 to -512 leaves the offset where it was. */
  lemma NegativeSizeStalls(offset: int, size: int)
    requires -1023 <= size <= -512
    ensures AdvanceAsWritten(offset, size) == offset
  {
  }

  /** `parseInt("-1130", 8)` is -600. */
  lemma ParseMinus1130()
    ensures JsParseOctal([45, 49, 49, 51, 48]) == Some(-600)
  {
    var f: seq<byte> := [45, 49, 49, 51, 48];
    var u: seq<byte> := [49, 49, 51, 48];
    assert SkipSpaces(f, 0) == 0;
    assert f[1..5] == u;
    assert DigitsEnd(f, 1) == 5 by {
      assert DigitsEnd(f, 5) == 5;
      assert DigitsEnd(f, 4) == 5;
      assert DigitsEnd(f, 3) == 5;
      assert DigitsEnd(f, 2) == 5;
    }
    assert OctalValue(u) == 600 by {
      assert OctalValue([49]) == 1 by { assert [49][..0] == []; }
      assert OctalValue([49, 49]) == 9 by { assert [49, 49][..1] == [49]; }
      assert OctalValue([49, 49, 51]) == 75 by { assert [49, 49, 51][..2] == [49, 49]; }
      assert u[..3] == [49, 49, 51];
    }
  }

  /** The size characters of a field holding `-1130` and NUL padding. */
  lemma SizeFieldMinus1130(h: seq<byte>)
    requires |h| == BlockSize
    requires h[124..136] == [45, 49, 49, 51, 48, 0, 0, 0, 0, 0, 0, 0]
    ensures SizeField(h) == [45, 49, 49, 51, 48]
  {
    var s := h[124..136];
    assert s == [45, 49, 49, 51, 48] + s[5..];
    DropNulSpaceAppend([45, 49, 49, 51, 48], s[5..]);
    DropNulSpaceZeros(s[5..]);
    assert DropNulSpace([48]) == [48];
    assert DropNulSpace([51, 48]) == [51] + DropNulSpace([48]);
    assert DropNulSpace([49, 51, 48]) == [49] + DropNulSpace([51, 48]);
    assert DropNulSpace([49, 49, 51, 48]) == [49] + DropNulSpace([49, 51, 48]);
  }

  /** A header whose size field reads `-1130` (octal for -600) parses to -600 and stalls the reader as written; the clamped size moves on by one block. */
  lemma NegativeSizeFieldStalls(h: seq<byte>, offset: nat)
    requires |h| == BlockSize
    requires h[124..136] == [45, 49, 49, 51, 48, 0, 0, 0, 0, 0, 0, 0]
    ensures SizeAsWritten(h) == -600
    ensures AdvanceAsWritten(offset, SizeAsWritten(h)) == offset
    ensures Advance(offset, HeaderSize(h)) == offset + BlockSize
  {
    SizeFieldMinus1130(h);
    ParseMinus1130();
    NegativeSizeStalls(offset, -600);
  }

  /** Where the clamp is not needed the model and the source advance alike. */
  lemma AdvanceAgrees(h: seq<byte>, offset: nat)
    requires |h| == BlockSize
    requires SizeAsWritten(h) >= 0
    ensures Advance(offset, HeaderSize(h)) == AdvanceAsWritten(offset, SizeAsWritten(h))
  {
  }

  // ------------------------------------------------------------------ parse

  /** `name.replace(/^\.\//, '')`: one leading `./` removed. */
  function StripDotSlash(name: seq<byte>): (r: seq<byte>)
    ensures |name| >= 2 && name[0] == 46 && name[1] == 47 ==> r == name[2..]
    ensures !(|name| >= 2 && name[0] == 46 && name[1] == 47) ==> r == name
  {
    if |name| >= 2 && name[0] == 46 && name[1] == 47 then name[2..] else name
  }

  /** The full name: the prefix field, a `/`, then the name field, when the prefix is non-empty. */
  function FullName(h: seq<byte>): (r: seq<byte>)
    requires |h| == BlockSize
    ensures 0 !in r
  {
    var name := CField(h, 0, 100);
    var prefix := CField(h, 345, 155);
    if |prefix| > 0 then prefix + [47] + name else name
  }

  /** Type flag `'5'` marks a directory. */
  predicate IsDirHeader(h: seq<byte>)
    requires |h| == BlockSize
  {
    h[156] == 53
  }

  /** A header yields a member when it is not a directory, its name is non-empty, and its size is positive. */
  predicate Emits(h: seq<byte>)
    requires |h| == BlockSize
  {
    !IsDirHeader(h) && |FullName(h)| > 0 && HeaderSize(h) > 0
  }

  /** The member a header at `offset` yields: content clamped to the buffer's end. */
  function EntryAt(buf: seq<byte>, offset: nat): TarEntry
    requires offset + BlockSize <= |buf|
  {
    var h := buf[offset..offset + BlockSize];
    var start := offset + BlockSize;
    TarEntry(StripDotSlash(FullName(h)), buf[start..Min(start + HeaderSize(h), |buf|)], HeaderSize(h))
  }

  /** The members read from `offset` on: the specification of the loop. */
  function ParseFrom(buf: seq<byte>, offset: nat): seq<TarEntry>
    decreases |buf| - offset
  {
    if offset >= |buf| - BlockSize then []
    else
      var h := buf[offset..offset + BlockSize];
      if IsZeroBlock(h) then []
      else
        (if Emits(h) then [EntryAt(buf, offset)] else [])
        + ParseFrom(buf, Advance(offset, HeaderSize(h)))
  }

  // -------------------------------------------------------- the loops

  method ScanZeroBlock(header: seq<byte>) returns (isEmpty: bool)
    requires |header| == BlockSize
    ensures isEmpty == IsZeroBlock(header)
  {
    isEmpty := true;
    var i := 0;
    while i < BlockSize
      invariant 0 <= i <= BlockSize
      invariant isEmpty == (forall k :: 0 <= k < i ==> header[k] == 0)
    {
      if header[i] != 0 {
        isEmpty := false;
        break;
      }
      i := i + 1;
    }
  }

  method ScanCField(header: seq<byte>, start: nat, width: nat) returns (field: seq<byte>)
    requires start + width <= |header|
    ensures field == CField(header, start, width)
  {
    var bytes := header[start..start + width];
    var end := 0;
    while end < width && bytes[end] != 0
      invariant 0 <= end <= width
      invariant forall k :: 0 <= k < end ==> bytes[k] != 0
    {
      end := end + 1;
    }
    field := bytes[..end];
    NulFreeLengthUnique(bytes, end);
  }

  lemma {:induction false} NulFreeLengthUnique(s: seq<byte>, n: nat)
    requires n <= |s|
    requires forall k :: 0 <= k < n ==> s[k] != 0
    requires n < |s| ==> s[n] == 0
    ensures NulFreeLength(s) == n
  {
    if n > 0 {
      NulFreeLengthUnique(s[1..], n - 1);
    }
  }

  method ScanSizeField(header: seq<byte>) returns (sizeStr: seq<byte>)
    requires |header| == BlockSize
    ensures sizeStr == SizeField(header)
  {
    sizeStr := [];
    for i := 124 to 136
      invariant sizeStr == DropNulSpace(header[124..i])
    {
      DropNulSpaceSnoc(header[124..i], header[i]);
      assert header[124..i + 1] == header[124..i] + [header[i]];
      if header[i] == 0 || header[i] == 32 {
        continue;
      }
      sizeStr := sizeStr + [header[i]];
    }
  }

  lemma {:induction false} DropNulSpaceSnoc(s: seq<byte>, b: byte)
    ensures DropNulSpace(s + [b]) == DropNulSpace(s) + (if b == 0 || b == 32 then [] else [b])
  {
    if |s| > 0 {
      assert (s + [b])[1..] == s[1..] + [b];
      DropNulSpaceSnoc(s[1..], b);
    } else {
      assert s + [b] == [b];
    }
  }

  /** The fields of one header: full name, size (clamped), directory flag. */
  method ReadHeader(header: seq<byte>) returns (name: seq<byte>, size: nat, isDir: bool)
    requires |header| == BlockSize
    ensures name == FullName(header) && size == HeaderSize(header) && isDir == IsDirHeader(header)
  {
    name := ScanCField(header, 0, 100);
    var prefix := ScanCField(header, 345, 155);
    if |prefix| > 0 {
      name := prefix + [47] + name;
    }
    var sizeStr := ScanSizeField(header);
    var parsed := JsParseOctal(sizeStr);
    size := if parsed.None? || parsed.value < 0 then 0 else parsed.value;
    isDir := header[156] == 53;
  }

  /** One step of the walk: the member of the header at `offset`, if any, then the walk after it. */
  lemma ParseFromStep(buf: seq<byte>, offset: nat)
    requires offset < |buf| - BlockSize
    requires !IsZeroBlock(buf[offset..offset + BlockSize])
    ensures var h := buf[offset..offset + BlockSize];
            ParseFrom(buf, offset) ==
              (if Emits(h) then [EntryAt(buf, offset)] else []) + ParseFrom(buf, Advance(offset, HeaderSize(h)))
  {
  }

  lemma ParseFromEnd(buf: seq<byte>, offset: nat)
    requires offset >= |buf| - BlockSize
    ensures ParseFrom(buf, offset) == []
  {
  }

  /** The loop body for the header at `offset`: whether it is the end marker, the member it yields (none or one), and the next offset. */
  method ReadMember(buf: seq<byte>, offset: nat) returns (isEmpty: bool, emitted: seq<TarEntry>, next: nat)
    requires offset + BlockSize <= |buf|
    ensures var h := buf[offset..offset + BlockSize];
            && isEmpty == IsZeroBlock(h)
            && (!isEmpty ==> emitted == (if Emits(h) then [EntryAt(buf, offset)] else []))
            && (!isEmpty ==> next == Advance(offset, HeaderSize(h)))
  {
    var header := buf[offset..offset + BlockSize];
    isEmpty := ScanZeroBlock(header);
    emitted, next := [], offset;
    if isEmpty {
      return;
    }
    var name, size, isDir := ReadHeader(header);
    next := offset + BlockSize;
    if !isDir && |name| > 0 && size > 0 {
      emitted := [TarEntry(StripDotSlash(name), buf[next..Min(next + size, |buf|)], size)];
    }
    next := next + JsCeilBlocks(size) * BlockSize;
  }

  /** `TarParser.parse`: the records of the buffer, in header order. */
  method Parse(buf: seq<byte>) returns (files: seq<TarEntry>)
    ensures files == ParseFrom(buf, 0)
  {
    ghost var all := ParseFrom(buf, 0);
    files := [];
    var offset: nat := 0;
    while offset < |buf| - BlockSize
      invariant files + ParseFrom(buf, offset) == all
      decreases |buf| - offset
    {
      var isEmpty, emitted, next := ReadMember(buf, offset);
      if isEmpty {
        ZeroBlockStops(buf, offset);
        break;
      }
      ParseFromStep(buf, offset);
      AppendAssoc(files, emitted, ParseFrom(buf, next));
      files := files + emitted;
      offset := next;
    }
    if offset >= |buf| - BlockSize {
      ParseFromEnd(buf, offset);
    }
    assert files + [] == files;
  }

  // -------------------------------------------------------------- properties

  /** Each member consumes at least one block, so no more members than blocks after the offset. */
  lemma {:induction false} ParseCount(buf: seq<byte>, offset: nat)
    ensures |ParseFrom(buf, offset)| * BlockSize <= if offset <= |buf| then |buf| - offset else 0
    decreases |buf| - offset
  {
    if offset < |buf| - BlockSize {
      var h := buf[offset..offset + BlockSize];
      if !IsZeroBlock(h) {
        ParseCount(buf, Advance(offset, HeaderSize(h)));
      }
    }
  }

  /** A buffer of at most one block yields nothing: a header is read only when at least one byte follows it. */
  lemma ShortBufferYieldsNothing(buf: seq<byte>)
    requires |buf| <= BlockSize
    ensures ParseFrom(buf, 0) == []
  {
  }

  /** An all-zero block at the offset ends the walk. */
  lemma ZeroBlockStops(buf: seq<byte>, offset: nat)
    requires offset + BlockSize < |buf|
    requires IsZeroBlock(buf[offset..offset + BlockSize])
    ensures ParseFrom(buf, offset) == []
  {
  }

  /** What every member satisfies: a positive size, content at most that size and equal to it where the buffer is long enough, and a NUL-free name. */
  lemma {:induction false} ParseRecords(buf: seq<byte>, offset: nat)
    ensures forall e :: e in ParseFrom(buf, offset) ==>
              e.size > 0 && |e.content| <= e.size && 0 !in e.name
    decreases |buf| - offset
  {
    if offset < |buf| - BlockSize {
      var h := buf[offset..offset + BlockSize];
      if !IsZeroBlock(h) {
        ParseRecords(buf, Advance(offset, HeaderSize(h)));
        if Emits(h) {
          var e := EntryAt(buf, offset);
          assert 0 !in FullName(h);
          assert 0 !in e.name;
        }
      }
    }
  }

  /** A member's content is its full declared size when the buffer holds it. */
  lemma EntryContentExact(buf: seq<byte>, offset: nat)
    requires offset + BlockSize <= |buf|
    requires offset + BlockSize + HeaderSize(buf[offset..offset + BlockSize]) <= |buf|
    ensures |EntryAt(buf, offset).content| == EntryAt(buf, offset).size
  {
  }
}
