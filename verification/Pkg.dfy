/**
 * The scene.pkg archive table (crates/kwe-core/src/pkg.rs). A package is the sequence of its bytes;
 * paths are UTF-8 bytes.
 */
module Pkg {
  import opened Common

  const MAX_PKG_BYTES := 512 * 1024 * 1024
  const MAX_PKG_ENTRIES := 65536
  const MAX_PKG_PATH_BYTES := 512
  const MAX_PKG_MAGIC_BYTES := 32

  const PKGV: Bytes := [0x50, 0x4B, 0x47, 0x56]
  const LZ4_FRAME_MAGIC: Bytes := [0x04, 0x22, 0x4D, 0x18]
  const SLASH: byte := 0x2F
  const BACKSLASH: byte := 0x5C
  const DOT_DOT: Bytes := [0x2E, 0x2E]

  datatype PkgError = Format | UnsupportedVersion | PathTraversal | Bounds

  datatype Entry = Entry(path: Bytes, offset: u32, size: u32, compressed: bool)

  datatype Table = Table(entries: seq<Entry>, dataStart: nat)

  // ---- Numbers ----

  function U32Bytes(n: u32): (r: Bytes)
    ensures |r| == 4
  {
    [n % 256, n / 256 % 256, n / 65536 % 256, n / 16777216]
  }

  function U32At(s: Bytes, at: nat): u32
    requires at + 4 <= |s|
  {
    s[at] as int + 256 * (s[at + 1] as int) + 65536 * (s[at + 2] as int) + 16777216 * (s[at + 3] as int)
  }

  // ---- Paths ----

  predicate IsContinuation(b: byte) {
    0x80 <= b < 0xC0
  }

  /** Well-formed UTF-8 (table 3-7 of the Unicode Standard), as `String::from_utf8` checks it. */
  predicate ValidUtf8(s: Bytes) {
    if s == [] then true
    else if s[0] < 0x80 then ValidUtf8(s[1..])
    else if 0xC2 <= s[0] < 0xE0 then |s| >= 2 && IsContinuation(s[1]) && ValidUtf8(s[2..])
    else if 0xE0 <= s[0] < 0xF0 then
      && |s| >= 3 && IsContinuation(s[1]) && IsContinuation(s[2])
      && (s[0] == 0xE0 ==> 0xA0 <= s[1]) && (s[0] == 0xED ==> s[1] < 0xA0)
      && ValidUtf8(s[3..])
    else if 0xF0 <= s[0] < 0xF5 then
      && |s| >= 4 && IsContinuation(s[1]) && IsContinuation(s[2]) && IsContinuation(s[3])
      && (s[0] == 0xF0 ==> 0x90 <= s[1]) && (s[0] == 0xF4 ==> s[1] < 0x90)
      && ValidUtf8(s[4..])
    else false
  }

  /** `split('/')`. */
  function Components(path: Bytes): (r: seq<Bytes>)
    ensures r != []
  {
    if path == [] then [[]]
    else
      var rest := Components(path[1..]);
      if path[0] == SLASH then [[]] + rest else [[path[0]] + rest[0]] + rest[1..]
  }

  predicate SafePath(path: Bytes) {
    path != [] && 0 !in path && BACKSLASH !in path && path[0] != SLASH && DOT_DOT !in Components(path)
  }

  // ---- Reading the table ----

  predicate IsDigit(b: byte) {
    0x30 <= b <= 0x39
  }

  predicate AllDigits(s: Bytes) {
    forall i :: 0 <= i < |s| ==> IsDigit(s[i])
  }

  /** The declared entry count, after the magic. */
  function HeaderCount(file: Bytes): (r: Result<nat, PkgError>)
    ensures r.Ok? ==> |file| >= 16 && r.value <= MAX_PKG_ENTRIES
  {
    if |file| < 4 then Err(Format)
    else
      var length := U32At(file, 0);
      if length > MAX_PKG_MAGIC_BYTES || |file| < 4 + length then Err(Format)
      else
        var magic := file[4..4 + length];
        if !(PKGV <= magic) then Err(Format)
        else if |magic| != 8 || !AllDigits(magic[4..]) then Err(UnsupportedVersion)
        else if |file| < 16 then Err(Format)
        else if U32At(file, 12) > MAX_PKG_ENTRIES then Err(Bounds)
        else Ok(U32At(file, 12))
  }

  /** One entry of the table at `at`, and where it ends. */
  function EntryAt(file: Bytes, at: nat): (r: Result<(Entry, nat), PkgError>)
    ensures r.Ok? ==> at < r.value.1 <= |file| && r.value.1 == at + 12 + |r.value.0.path|
  {
    if |file| < at + 4 then Err(Format)
    else
      var length := U32At(file, at);
      if length > MAX_PKG_PATH_BYTES then Err(Bounds)
      else if |file| < at + 4 + length then Err(Format)
      else
        var path := file[at + 4..at + 4 + length];
        if !ValidUtf8(path) then Err(Format)
        else if !SafePath(path) then Err(PathTraversal)
        else if |file| < at + 12 + length then Err(Format)
        else Ok((Entry(path, U32At(file, at + 4 + length), U32At(file, at + 8 + length), false), at + 12 + length))
  }

  /** `left` more entries from `at`, with payloads of `total` bytes declared so far. */
  function EntriesAt(file: Bytes, at: nat, left: nat, total: nat): Result<(seq<Entry>, nat), PkgError>
    decreases left
  {
    if left == 0 then Ok(([], at))
    else
      match EntryAt(file, at)
      case Err(error) => Err(error)
      case Ok((entry, next)) =>
        if total + entry.size > MAX_PKG_BYTES then Err(Bounds)
        else Prepend([entry], EntriesAt(file, next, left - 1, total + entry.size))
  }

  function Prepend(entries: seq<Entry>, rest: Result<(seq<Entry>, nat), PkgError>)
    : Result<(seq<Entry>, nat), PkgError> {
    match rest
    case Err(_) => rest
    case Ok((later, at)) => Ok((entries + later, at))
  }

  predicate InRange(file: Bytes, dataStart: nat, e: Entry) {
    dataStart + e.offset + e.size <= |file|
  }

  function Stored(file: Bytes, dataStart: nat, e: Entry): Bytes
    requires InRange(file, dataStart, e)
  {
    file[dataStart + e.offset..dataStart + e.offset + e.size]
  }

  function Flag(file: Bytes, dataStart: nat, e: Entry): Entry
    requires InRange(file, dataStart, e)
  {
    e.(compressed := LZ4_FRAME_MAGIC <= Stored(file, dataStart, e))
  }

  function Flagged(file: Bytes, dataStart: nat, entries: seq<Entry>): (r: seq<Entry>)
    requires forall e :: e in entries ==> InRange(file, dataStart, e)
    ensures |r| == |entries| && forall i :: 0 <= i < |r| ==> r[i] == Flag(file, dataStart, entries[i])
  {
    if entries == [] then []
    else Flagged(file, dataStart, entries[..|entries| - 1]) + [Flag(file, dataStart, entries[|entries| - 1])]
  }

  function ParsedTable(file: Bytes): Result<Table, PkgError> {
    if |file| > MAX_PKG_BYTES then Err(Bounds)
    else
      match HeaderCount(file)
      case Err(error) => Err(error)
      case Ok(count) =>
        match EntriesAt(file, 16, count, 0)
        case Err(error) => Err(error)
        case Ok((entries, dataStart)) =>
          if exists e :: e in entries && !InRange(file, dataStart, e) then Err(Format)
          else Ok(Table(Flagged(file, dataStart, entries), dataStart))
  }

  /** The reader: one pass over the table, then the ranges, then the LZ4 flags. */
  method ParseTable(file: Bytes) returns (r: Result<Table, PkgError>)
    ensures r == ParsedTable(file)
  {
    if |file| > MAX_PKG_BYTES {
      return Err(Bounds);
    }
    var header := HeaderCount(file);
    if header.Err? {
      return Err(header.error);
    }
    var read := ReadEntries(file, header.value);
    if read.Err? {
      return Err(read.error);
    }
    var (entries, dataStart) := read.value;
    var inside := RangesInside(file, dataStart, entries);
    if !inside {
      return Err(Format);
    }
    var flagged := FlagEntries(file, dataStart, entries);
    return Ok(Table(flagged, dataStart));
  }

  method ReadEntries(file: Bytes, count: nat) returns (r: Result<(seq<Entry>, nat), PkgError>)
    ensures r == EntriesAt(file, 16, count, 0)
  {
    hide EntryAt;
    var entries: seq<Entry> := [];
    var total: nat := 0;
    var at: nat := 16;
    PrependNothing(EntriesAt(file, 16, count, 0));
    for i := 0 to count
      invariant total <= MAX_PKG_BYTES
      invariant EntriesAt(file, 16, count, 0) == Prepend(entries, EntriesAt(file, at, count - i, total))
    {
      var read := EntryAt(file, at);
      if read.Err? {
        return Err(read.error);
      }
      var (entry, next) := read.value;
      if total + entry.size > MAX_PKG_BYTES {
        return Err(Bounds);
      }
      total := total + entry.size;
      PrependTwice(entries, entry, EntriesAt(file, next, count - i - 1, total));
      entries := entries + [entry];
      at := next;
    }
    assert entries + [] == entries;
    return Ok((entries, at));
  }

  method RangesInside(file: Bytes, dataStart: nat, entries: seq<Entry>) returns (inside: bool)
    ensures inside <==> forall e :: e in entries ==> InRange(file, dataStart, e)
  {
    for i := 0 to |entries|
      invariant forall j :: 0 <= j < i ==> InRange(file, dataStart, entries[j])
    {
      if !InRange(file, dataStart, entries[i]) {
        assert entries[i] in entries;
        return false;
      }
    }
    return true;
  }

  method FlagEntries(file: Bytes, dataStart: nat, entries: seq<Entry>) returns (flagged: seq<Entry>)
    requires forall e :: e in entries ==> InRange(file, dataStart, e)
    ensures flagged == Flagged(file, dataStart, entries)
  {
    flagged := [];
    for i := 0 to |entries|
      invariant |flagged| == i && forall j :: 0 <= j < i ==> flagged[j] == Flag(file, dataStart, entries[j])
    {
      flagged := flagged + [Flag(file, dataStart, entries[i])];
    }
    assert flagged == Flagged(file, dataStart, entries);
  }

  lemma {:induction false} PrependNothing(rest: Result<(seq<Entry>, nat), PkgError>)
    ensures Prepend([], rest) == rest
  {
    if rest.Ok? {
      assert [] + rest.value.0 == rest.value.0;
    }
  }

  lemma {:induction false} PrependTwice(entries: seq<Entry>, e: Entry, rest: Result<(seq<Entry>, nat), PkgError>)
    ensures Prepend(entries, Prepend([e], rest)) == Prepend(entries + [e], rest)
  {
    if rest.Ok? {
      assert entries + ([e] + rest.value.0) == (entries + [e]) + rest.value.0;
    }
  }

  // ---- Reading payloads ----

  /** A frame decoder reading at most the given number of bytes; `None` is an invalid frame. */
  type Lz4 = (Bytes, nat) -> Option<Bytes>

  function ReadPayload(file: Bytes, dataStart: nat, e: Entry): Result<Bytes, PkgError> {
    if InRange(file, dataStart, e) then Ok(Stored(file, dataStart, e)) else Err(Format)
  }

  function ReadEntryBounded(file: Bytes, t: Table, i: nat, cap: nat, lz4: Lz4): Result<Bytes, PkgError> {
    if i >= |t.entries| then Err(Bounds)
    else
      var e := t.entries[i];
      if e.size > cap then Err(Bounds)
      else
        var raw := ReadPayload(file, t.dataStart, e);
        if raw.Err? || !e.compressed then raw
        else
          match lz4(raw.value, cap + 1)
          case None => raw
          case Some(out) => if |out| > cap then Err(Bounds) else Ok(out)
  }

  // ---- Finding an entry ----

  function Lower(b: byte): byte {
    if 0x41 <= b <= 0x5A then b + 32 else b
  }

  function LowerAll(s: Bytes): (r: Bytes)
    ensures |r| == |s| && forall i :: 0 <= i < |s| ==> r[i] == Lower(s[i])
  {
    seq(|s|, i requires 0 <= i < |s| => Lower(s[i]))
  }

  predicate EndsWith(s: Bytes, tail: Bytes) {
    |tail| <= |s| && s[|s| - |tail|..] == tail
  }

  /** The entry's path, or its tail after some slash, is the reference up to ASCII case. */
  predicate Matches(path: Bytes, reference: Bytes) {
    LowerAll(path) == LowerAll(reference) || EndsWith(LowerAll(path), [SLASH] + LowerAll(reference))
  }

  predicate StaysInside(reference: Bytes) {
    (reference == [] || reference[0] != SLASH) && BACKSLASH !in reference && 0 !in reference
    && DOT_DOT !in Components(reference)
  }

  datatype ResolveError = Outside | Missing | Ambiguous(count: nat)

  function MatchingEntries(reference: Bytes, entries: seq<Entry>): (r: seq<nat>)
    ensures forall i: nat :: i in r <==> i < |entries| && Matches(entries[i].path, reference)
    ensures forall a, b :: 0 <= a < b < |r| ==> r[a] < r[b]
  {
    if entries == [] then []
    else
      var last := |entries| - 1;
      var before := MatchingEntries(reference, entries[..last]);
      assert forall a :: 0 <= a < |before| ==> before[a] in before;
      if Matches(entries[last].path, reference) then before + [last] else before
  }

  function ResolvePkgEntry(reference: Bytes, entries: seq<Entry>): Result<nat, ResolveError> {
    if !StaysInside(reference) then Err(Outside)
    else
      var matches := MatchingEntries(reference, entries);
      if |matches| == 0 then Err(Missing)
      else if |matches| == 1 then Ok(matches[0])
      else Err(Ambiguous(|matches|))
  }

  // ---- Writing ----

  /** The stored files of a package being written. */
  datatype File = File(path: Bytes, payload: Bytes)

  function EntryBytes(e: Entry): Bytes
    requires |e.path| <= U32_MAX
  {
    U32Bytes(|e.path|) + (e.path + (U32Bytes(e.offset) + U32Bytes(e.size)))
  }

  predicate PathsFit(entries: seq<Entry>) {
    forall i :: 0 <= i < |entries| ==> |entries[i].path| <= U32_MAX
  }

  function EntriesBytes(entries: seq<Entry>): Bytes
    requires PathsFit(entries)
  {
    if entries == [] then [] else EntryBytes(entries[0]) + EntriesBytes(entries[1..])
  }

  function TableBytes(version: Bytes, entries: seq<Entry>): Bytes
    requires PathsFit(entries) && |entries| <= U32_MAX
  {
    Header(version, |entries|) + EntriesBytes(entries)
  }

  function Header(version: Bytes, count: u32): Bytes {
    U32Bytes(8) + PKGV + version + U32Bytes(count)
  }

  function TotalSize(files: seq<File>): nat {
    if files == [] then 0 else TotalSize(files[..|files| - 1]) + |files[|files| - 1].payload|
  }

  /** Payloads one after the other; offsets are the prefix sums of their sizes. */
  function Layout(files: seq<File>): (r: seq<Entry>)
    requires TotalSize(files) <= U32_MAX
    ensures |r| == |files|
  {
    if files == [] then []
    else
      var before := files[..|files| - 1];
      var last := files[|files| - 1];
      Layout(before) + [Entry(last.path, TotalSize(before), |last.payload|, false)]
  }

  function Payloads(files: seq<File>): Bytes {
    if files == [] then [] else Payloads(files[..|files| - 1]) + files[|files| - 1].payload
  }

  predicate ValidVersion(version: Bytes) {
    |version| == 4 && AllDigits(version)
  }

  predicate ValidFile(f: File) {
    |f.path| <= MAX_PKG_PATH_BYTES && ValidUtf8(f.path) && SafePath(f.path)
  }

  /** Files whose lengths the format's 32-bit fields can hold, which is all the writer asks for. */
  ghost predicate Writable(files: seq<File>) {
    |files| <= U32_MAX && TotalSize(files) <= U32_MAX && forall f :: f in files ==> |f.path| <= U32_MAX
  }

  /** Files the reader's limits have room for. */
  ghost predicate Packable(files: seq<File>) {
    && |files| <= MAX_PKG_ENTRIES
    && TotalSize(files) <= MAX_PKG_BYTES
    && forall f :: f in files ==> ValidFile(f)
  }

  lemma {:induction false} LayoutPaths(files: seq<File>)
    requires Writable(files)
    ensures PathsFit(Layout(files))
  {
    forall i | 0 <= i < |files|
      ensures |Layout(files)[i].path| <= U32_MAX
    {
      LayoutEntry(files, i);
      assert files[i] in files;
    }
  }

  ghost function Built(version: Bytes, files: seq<File>): Bytes
    requires Writable(files)
  {
    LayoutPaths(files);
    TableBytes(version, Layout(files)) + Payloads(files)
  }

  /** The writer used to make packages: `encode` is the LZ4 frame encoder. */
  class PkgWriter {
    var entries: seq<File>

    constructor ()
      ensures entries == []
    {
      entries := [];
    }

    method Add(path: Bytes, payload: Bytes)
      modifies this
      ensures entries == old(entries) + [File(path, payload)]
    {
      entries := entries + [File(path, payload)];
    }

    method AddLz4(path: Bytes, payload: Bytes, encode: Bytes -> Bytes)
      modifies this
      ensures entries == old(entries) + [File(path, encode(payload))]
    {
      entries := entries + [File(path, encode(payload))];
    }

    method Build(version: Bytes) returns (out: Bytes)
      requires ValidVersion(version) && Writable(entries)
      ensures out == Built(version, entries)
    {
      hide TableBytes, Layout, Writable, PathsFit, ValidVersion;
      LayoutPaths(entries);
      var payloads: seq<Bytes>;
      out, payloads := BuildTable(version);
      ghost var table := out;
      for i := 0 to |payloads|
        invariant out == table + Payloads(entries[..i])
      {
        assert entries[..i + 1][..i] == entries[..i];
        out := out + payloads[i];
      }
      assert entries[..|payloads|] == entries;
    }

    /** The first loop: the table, while the payloads are collected. */
    method BuildTable(version: Bytes) returns (out: Bytes, payloads: seq<Bytes>)
      requires ValidVersion(version) && Writable(entries)
      ensures PathsFit(Layout(entries)) && out == TableBytes(version, Layout(entries))
      ensures |payloads| == |entries| && forall j :: 0 <= j < |entries| ==> payloads[j] == entries[j].payload
    {
      hide EntriesBytes, EntryBytes, Header, U32Bytes, ValidVersion;
      LayoutPaths(entries);
      out := Header(version, |entries|);
      ghost var header := out;
      var offset: nat := 0;
      payloads := [];
      for i := 0 to |entries|
        invariant offset == TotalSize(entries[..i])
        invariant |payloads| == i && forall j :: 0 <= j < i ==> payloads[j] == entries[j].payload
        invariant out + EntriesBytes(Layout(entries)[i..]) == header + EntriesBytes(Layout(entries))
      {
        hide *;
        var f := entries[i];
        WriteEntry(entries, i, out);
        out := out + (U32Bytes(|f.path|) + (f.path + (U32Bytes(offset) + U32Bytes(|f.payload|))));
        offset := offset + |f.payload|;
        payloads := payloads + [f.payload];
      }
      assert out + [] == out;
      AllWritten(Layout(entries));
    }
  }

  lemma {:induction false} AllWritten(entries: seq<Entry>)
    ensures PathsFit(entries[|entries|..]) && EntriesBytes(entries[|entries|..]) == []
  {
  }

  /** Writing entry `i` moves its bytes from what is to come to what is written. */
  lemma {:induction false} WriteEntry(files: seq<File>, i: nat, out: Bytes)
    requires Writable(files) && i < |files|
    ensures PathsFit(Layout(files)) && |files[i].path| <= U32_MAX
    ensures TotalSize(files[..i + 1]) == TotalSize(files[..i]) + |files[i].payload|
    ensures TotalSize(files[..i]) + |files[i].payload| <= U32_MAX
    ensures var f := files[i];
            out + EntriesBytes(Layout(files)[i..])
            == out + (U32Bytes(|f.path|) + (f.path + (U32Bytes(TotalSize(files[..i])) + U32Bytes(|f.payload|))))
               + EntriesBytes(Layout(files)[i + 1..])
  {
    LayoutPaths(files);
    LayoutEntry(files, i);
    assert files[i] in files;
    assert files[..i + 1][..i] == files[..i];
    var later := Layout(files)[i..];
    assert later[0] == Layout(files)[i] && later[1..] == Layout(files)[i + 1..];
    AppendTwice(out, EntryBytes(later[0]), EntriesBytes(later[1..]));
  }

  lemma {:induction false} LayoutEntry(files: seq<File>, i: nat)
    requires TotalSize(files) <= U32_MAX && i < |files|
    ensures TotalSize(files[..i]) + |files[i].payload| <= TotalSize(files)
    ensures Layout(files)[i] == Entry(files[i].path, TotalSize(files[..i]), |files[i].payload|, false)
  {
    if i < |files| - 1 {
      var before := files[..|files| - 1];
      LayoutEntry(before, i);
      assert before[..i] == files[..i];
    }
  }
}
