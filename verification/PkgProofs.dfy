/** Which bytes the package reader accepts, and what it reads back from a written package. */
module PkgProofs {
  import opened Common
  import opened Pkg

  // ---- Numbers in place ----

  lemma {:induction false} U32Exact(s: Bytes, o: nat, n: u32)
    requires o + 4 <= |s|
    ensures At(s, o, U32Bytes(n)) <==> U32At(s, o) == n
  {
    var x := s[o..o + 4];
    assert U32At(x, 0) == U32At(s, o);
    if x == U32Bytes(n) {
      U32Written(n);
    }
    if U32At(s, o) == n {
      U32Read(x);
    }
  }

  lemma {:induction false} U32Written(n: u32)
    ensures U32At(U32Bytes(n), 0) == n
  {
    var q, r, t := n / 256, n / 65536, n / 16777216;
    assert n == 256 * q + n % 256;
    assert q == 256 * r + q % 256;
    assert r == 256 * t + r % 256;
  }

  lemma {:induction false} U32Read(x: Bytes)
    requires |x| == 4
    ensures x == U32Bytes(U32At(x, 0))
  {
    Digits(x[0], x[1], x[2], x[3]);
  }

  lemma {:induction false} Digits(a: byte, b: byte, c: byte, d: byte)
    ensures var n := a as int + 256 * (b as int) + 65536 * (c as int) + 16777216 * (d as int);
            n % 256 == a && n / 256 % 256 == b && n / 65536 % 256 == c && n / 16777216 == d
  {
    var n := a as int + 256 * (b as int) + 65536 * (c as int) + 16777216 * (d as int);
    assert n / 256 == b as int + 256 * (c as int) + 65536 * (d as int);
    assert n / 65536 == c as int + 256 * (d as int);
  }

  // ---- The table, exactly ----

  ghost predicate ValidPath(path: Bytes) {
    |path| <= MAX_PKG_PATH_BYTES && ValidUtf8(path) && SafePath(path)
  }

  lemma {:induction false} EntryExact(file: Bytes, at: nat, e: Entry, next: nat)
    ensures EntryAt(file, at) == Ok((e, next)) <==>
            ValidPath(e.path) && !e.compressed && next == at + 12 + |e.path| && At(file, at, EntryBytes(e))
  {
    hide SafePath, ValidUtf8, U32At, U32Bytes;
    if |e.path| <= MAX_PKG_PATH_BYTES {
      var n := |e.path|;
      AtSplit(file, at, U32Bytes(n), e.path + (U32Bytes(e.offset) + U32Bytes(e.size)));
      AtSplit(file, at + 4, e.path, U32Bytes(e.offset) + U32Bytes(e.size));
      AtSplit(file, at + 4 + n, U32Bytes(e.offset), U32Bytes(e.size));
      if at + 12 + n <= |file| {
        U32Exact(file, at, n);
        U32Exact(file, at + 4 + n, e.offset);
        U32Exact(file, at + 8 + n, e.size);
      }
    }
  }

  function Sizes(entries: seq<Entry>): nat {
    if entries == [] then 0 else entries[0].size + Sizes(entries[1..])
  }

  /** Entries with valid paths, not yet flagged. */
  ghost predicate Unflagged(entries: seq<Entry>) {
    forall i :: 0 <= i < |entries| ==> ValidPath(entries[i].path) && !entries[i].compressed
  }

  ghost predicate EntriesStand(file: Bytes, at: nat, total: nat, entries: seq<Entry>, next: nat) {
    && Unflagged(entries)
    && PathsFit(entries)
    && next == at + |EntriesBytes(entries)|
    && At(file, at, EntriesBytes(entries))
    && total + Sizes(entries) <= MAX_PKG_BYTES
  }

  lemma {:induction false} EntriesExact(file: Bytes, at: nat, left: nat, total: nat, entries: seq<Entry>, next: nat)
    requires total <= MAX_PKG_BYTES && at <= |file|
    ensures EntriesAt(file, at, left, total) == Ok((entries, next)) <==>
            |entries| == left && EntriesStand(file, at, total, entries, next)
    decreases left
  {
    hide EntryAt, EntryBytes, SafePath, ValidUtf8;
    if left == 0 {
      if entries == [] {
        assert At(file, at, []);
      }
    } else if EntriesAt(file, at, left, total).Ok? || |entries| == left {
      if EntriesAt(file, at, left, total) == Ok((entries, next)) {
        var (first, after) := EntryAt(file, at).value;
        var rest := EntriesAt(file, after, left - 1, total + first.size).value;
        assert entries == [first] + rest.0 && entries[1..] == rest.0;
        EntryExact(file, at, first, after);
        EntriesExact(file, after, left - 1, total + first.size, rest.0, next);
        StandCons(file, at, total, entries, after, next);
      }
      if |entries| == left && EntriesStand(file, at, total, entries, next) {
        var first := entries[0];
        var after := at + 12 + |first.path|;
        StandCons(file, at, total, entries, after, next);
        EntryExact(file, at, first, after);
        EntriesExact(file, after, left - 1, total + first.size, entries[1..], next);
        assert [first] + entries[1..] == entries;
      }
    }
  }

  lemma {:induction false} StandCons(file: Bytes, at: nat, total: nat, entries: seq<Entry>, after: nat, next: nat)
    requires entries != [] && after == at + 12 + |entries[0].path|
    ensures EntriesStand(file, at, total, entries, next) <==>
            && ValidPath(entries[0].path) && !entries[0].compressed
            && At(file, at, EntryBytes(entries[0]))
            && EntriesStand(file, after, total + entries[0].size, entries[1..], next)
  {
    hide EntryAt, SafePath, ValidUtf8, At;
    var first, rest := entries[0], entries[1..];
    assert entries == [first] + rest;
    assert Unflagged(entries) <==> ValidPath(first.path) && !first.compressed && Unflagged(rest);
    assert |first.path| <= U32_MAX ==> |EntryBytes(first)| == 12 + |first.path|;
    if PathsFit(entries) {
      assert forall i :: 0 <= i < |rest| ==> rest[i] == entries[i + 1];
      AtSplit(file, at, EntryBytes(first), EntriesBytes(rest));
    }
  }

  lemma {:induction false} HeaderExact(file: Bytes, count: nat)
    ensures HeaderCount(file) == Ok(count) <==>
            count <= MAX_PKG_ENTRIES && exists version :: ValidVersion(version) && At(file, 0, Header(version, count))
  {
    if HeaderCount(file) == Ok(count) {
      var magic := file[4..12];
      var version := magic[4..];
      assert magic == PKGV + version;
      assert file[4..8] == PKGV && file[8..12] == version;
      U32Exact(file, 0, 8);
      U32Exact(file, 12, count);
      HeaderSplit(file, version, count);
      assert At(file, 0, Header(version, count));
    }
    if count <= MAX_PKG_ENTRIES && exists version :: ValidVersion(version) && At(file, 0, Header(version, count)) {
      var version :| ValidVersion(version) && At(file, 0, Header(version, count));
      HeaderSplit(file, version, count);
      U32Exact(file, 0, 8);
      U32Exact(file, 12, count);
      assert file[4..12] == file[4..8] + file[8..12];
      assert file[4..12][..4] == PKGV;
      assert file[4..12][4..] == version;
    }
  }

  lemma {:induction false} HeaderSplit(file: Bytes, version: Bytes, count: u32)
    requires |version| == 4
    ensures At(file, 0, Header(version, count)) <==>
            At(file, 0, U32Bytes(8)) && At(file, 4, PKGV) && At(file, 8, version) && At(file, 12, U32Bytes(count))
  {
    AtSplit(file, 0, U32Bytes(8) + PKGV + version, U32Bytes(count));
    AtSplit(file, 0, U32Bytes(8) + PKGV, version);
    AtSplit(file, 0, U32Bytes(8), PKGV);
  }

  /** Why an entry is refused: cut off, too long a path, not text, or an unsafe path, in the order it is read. */
  lemma {:induction false} EntryErrorExact(file: Bytes, at: nat)
    ensures EntryAt(file, at).Err? ==>
              if |file| < at + 4 then EntryAt(file, at).error == Format
              else
                var n := U32At(file, at);
                EntryAt(file, at).error ==
                if n > 512 then Bounds
                else if |file| < at + 4 + n || !ValidUtf8(file[at + 4..at + 4 + n]) then Format
                else if !SafePath(file[at + 4..at + 4 + n]) then PathTraversal
                else Format
  {
    hide SafePath, ValidUtf8, U32At;
  }

  /** Reading entries in two steps: the first failure wins, with the sizes so far counted in. */
  lemma {:induction false} EntriesInSteps(file: Bytes, at: nat, a: nat, b: nat, total: nat)
    ensures var first := EntriesAt(file, at, a, total);
            EntriesAt(file, at, a + b, total) ==
            if first.Err? then first
            else Prepend(first.value.0, EntriesAt(file, first.value.1, b, total + Sizes(first.value.0)))
    decreases a
  {
    hide EntryAt;
    if a == 0 {
      PrependNothing(EntriesAt(file, at, b, total));
    } else if EntryAt(file, at).Ok? {
      var (e, next) := EntryAt(file, at).value;
      if total + e.size <= MAX_PKG_BYTES {
        EntriesInSteps(file, next, a - 1, b, total + e.size);
        var rest := EntriesAt(file, next, a - 1, total + e.size);
        if rest.Ok? {
          var later := EntriesAt(file, rest.value.1, b, total + e.size + Sizes(rest.value.0));
          assert ([e] + rest.value.0)[1..] == rest.value.0;
          PrependBoth([e], rest.value.0, later);
        }
      }
    }
  }

  lemma {:induction false} PrependBoth(a: seq<Entry>, b: seq<Entry>, rest: Result<(seq<Entry>, nat), PkgError>)
    ensures Prepend(a, Prepend(b, rest)) == Prepend(a + b, rest)
  {
    if rest.Ok? {
      assert a + (b + rest.value.0) == (a + b) + rest.value.0;
    }
  }

  /** The first entry that cannot be read, or takes the total past 512 MiB, decides the error. */
  lemma {:induction false} FirstFailureWins(file: Bytes, k: nat, more: nat)
    requires EntriesAt(file, 16, k, 0).Ok? && more > 0
    ensures var (entries, at) := EntriesAt(file, 16, k, 0).value;
            var next := EntryAt(file, at);
            && (next.Err? ==> EntriesAt(file, 16, k + more, 0) == Err(next.error))
            && (next.Ok? && Sizes(entries) + next.value.0.size > 536870912 ==>
                  EntriesAt(file, 16, k + more, 0) == Err(Bounds))
  {
    hide EntryAt;
    EntriesInSteps(file, 16, k, more, 0);
  }

  /** Why a header is refused, in the order it is read. */
  lemma {:induction false} HeaderErrorExact(file: Bytes)
    ensures HeaderCount(file).Err? ==>
              HeaderCount(file).error ==
              if |file| < 4 || U32At(file, 0) > 32 || |file| < 4 + U32At(file, 0) then Format
              else
                var n := U32At(file, 0);
                if n < 4 || file[4..8] != [0x50, 0x4B, 0x47, 0x56] then Format
                else if n != 8 || (exists i :: 8 <= i < 12 && !(0x30 <= file[i] <= 0x39)) then UnsupportedVersion
                else if |file| < 16 then Format
                else Bounds
  {
    if |file| >= 4 && U32At(file, 0) <= 32 && |file| >= 4 + U32At(file, 0) {
      var n := U32At(file, 0);
      var magic := file[4..4 + n];
      assert n >= 4 ==> magic[..4] == file[4..8];
      if n == 8 {
        assert forall i :: 8 <= i < 12 ==> file[i] == magic[4..][i - 8];
      }
    }
  }

  /** A package of this table: the table's bytes, then data that holds every entry. */
  ghost predicate WellFormed(file: Bytes, t: Table) {
    && |file| <= MAX_PKG_BYTES
    && |t.entries| <= MAX_PKG_ENTRIES
    && (forall e :: e in t.entries ==> ValidPath(e.path) && InRange(file, t.dataStart, e))
    && (forall e :: e in t.entries ==> e.compressed == (LZ4_FRAME_MAGIC <= Stored(file, t.dataStart, e)))
    && PathsFit(t.entries)
    && Sizes(t.entries) <= MAX_PKG_BYTES
    && exists version :: ValidVersion(version) && IsTable(file, version, t)
  }

  ghost predicate IsTable(file: Bytes, version: Bytes, t: Table)
    requires PathsFit(t.entries) && |t.entries| <= U32_MAX
  {
    t.dataStart == |TableBytes(version, t.entries)| && At(file, 0, TableBytes(version, t.entries))
  }

  function Clear(e: Entry): Entry {
    e.(compressed := false)
  }

  function ClearAll(entries: seq<Entry>): (r: seq<Entry>)
    ensures |r| == |entries| && forall i :: 0 <= i < |r| ==> r[i] == Clear(entries[i])
  {
    seq(|entries|, i requires 0 <= i < |entries| => Clear(entries[i]))
  }

  /** Flags are not part of the table's bytes. */
  lemma {:induction false} ClearKeepsBytes(entries: seq<Entry>)
    requires PathsFit(entries)
    ensures PathsFit(ClearAll(entries)) && EntriesBytes(ClearAll(entries)) == EntriesBytes(entries)
    ensures Sizes(ClearAll(entries)) == Sizes(entries)
  {
    if entries != [] {
      ClearKeepsBytes(entries[1..]);
      assert ClearAll(entries)[1..] == ClearAll(entries[1..]);
    }
  }

  lemma {:induction false} TableSplit(file: Bytes, version: Bytes, entries: seq<Entry>)
    requires PathsFit(entries) && |entries| <= U32_MAX && |version| == 4
    ensures At(file, 0, TableBytes(version, entries)) <==>
            At(file, 0, Header(version, |entries|)) && At(file, 16, EntriesBytes(entries))
    ensures |TableBytes(version, entries)| == 16 + |EntriesBytes(entries)|
  {
  }

  /** The raw entries of an accepted package, and its table's bytes. */
  lemma {:induction false} AcceptedTable(file: Bytes, t: Table)
    requires ParsedTable(file) == Ok(t)
    ensures |file| <= MAX_PKG_BYTES && |t.entries| <= MAX_PKG_ENTRIES
    ensures EntriesStand(file, 16, 0, ClearAll(t.entries), t.dataStart)
    ensures exists version :: ValidVersion(version) && At(file, 0, Header(version, |t.entries|))
    ensures forall i :: 0 <= i < |t.entries| ==>
              InRange(file, t.dataStart, t.entries[i]) && t.entries[i] == Flag(file, t.dataStart, t.entries[i])
  {
    hide SafePath, ValidUtf8, EntryAt, HeaderCount, EntriesAt, EntriesBytes, EntryBytes, Header, EntriesStand;
    var count := HeaderCount(file).value;
    var (entries, dataStart) := EntriesAt(file, 16, count, 0).value;
    HeaderExact(file, count);
    EntriesExact(file, 16, count, 0, entries, dataStart);
    StandUnflagged(file, entries, dataStart);
    forall i | 0 <= i < |entries|
      ensures Clear(t.entries[i]) == entries[i] && InRange(file, dataStart, entries[i])
      ensures t.entries[i] == Flag(file, dataStart, entries[i])
    {
      assert entries[i] in entries;
    }
    assert ClearAll(t.entries) == entries;
  }

  lemma {:induction false} StandUnflagged(file: Bytes, entries: seq<Entry>, next: nat)
    requires EntriesStand(file, 16, 0, entries, next)
    ensures forall i :: 0 <= i < |entries| ==> !entries[i].compressed && ValidPath(entries[i].path)
  {
  }

  lemma {:induction false} AcceptedIsWellFormed(file: Bytes)
    requires ParsedTable(file).Ok?
    ensures WellFormed(file, ParsedTable(file).value)
  {
    hide SafePath, ValidUtf8, ParsedTable, EntriesBytes, EntryBytes, Header;
    var t := ParsedTable(file).value;
    AcceptedTable(file, t);
    StandUnflagged(file, ClearAll(t.entries), t.dataStart);
    PathsFitFlagged(file, ClearAll(t.entries), t);
    ClearKeepsBytes(t.entries);
    var version :| ValidVersion(version) && At(file, 0, Header(version, |t.entries|));
    TableSplit(file, version, t.entries);
    assert IsTable(file, version, t);
    forall e | e in t.entries
      ensures ValidPath(e.path) && InRange(file, t.dataStart, e)
      ensures e.compressed == (LZ4_FRAME_MAGIC <= Stored(file, t.dataStart, e))
    {
      var i :| 0 <= i < |t.entries| && t.entries[i] == e;
      assert ClearAll(t.entries)[i] == Clear(e);
    }
  }

  lemma {:induction false} PathsFitFlagged(file: Bytes, entries: seq<Entry>, t: Table)
    requires PathsFit(entries) && ClearAll(t.entries) == entries
    ensures PathsFit(t.entries)
  {
  }

  lemma {:induction false} WellFormedStands(file: Bytes, t: Table)
    requires WellFormed(file, t)
    ensures HeaderCount(file) == Ok(|t.entries|)
    ensures EntriesAt(file, 16, |t.entries|, 0) == Ok((ClearAll(t.entries), t.dataStart))
  {
    hide SafePath, ValidUtf8, EntryAt, HeaderCount, EntriesAt, EntriesBytes, EntryBytes, Header;
    var entries := ClearAll(t.entries);
    ClearKeepsBytes(t.entries);
    var version :| ValidVersion(version) && IsTable(file, version, t);
    TableSplit(file, version, t.entries);
    HeaderExact(file, |t.entries|);
    forall i | 0 <= i < |entries|
      ensures ValidPath(entries[i].path) && !entries[i].compressed
    {
      assert t.entries[i] in t.entries;
    }
    assert EntriesStand(file, 16, 0, entries, t.dataStart);
    EntriesExact(file, 16, |t.entries|, 0, entries, t.dataStart);
  }

  lemma {:induction false} WellFormedIsAccepted(file: Bytes, t: Table)
    requires WellFormed(file, t)
    ensures ParsedTable(file) == Ok(t)
  {
    hide ValidPath, HeaderCount, EntriesAt, EntriesBytes, IsTable, Sizes, PathsFit;
    WellFormedStands(file, t);
    var entries := ClearAll(t.entries);
    forall e | e in entries
      ensures InRange(file, t.dataStart, e)
    {
      var i :| 0 <= i < |entries| && entries[i] == e;
      assert t.entries[i] in t.entries;
    }
    forall i | 0 <= i < |entries|
      ensures Flag(file, t.dataStart, entries[i]) == t.entries[i]
    {
      assert t.entries[i] in t.entries && entries[i] in entries;
    }
    assert Flagged(file, t.dataStart, entries) == t.entries;
  }

  /**
   * The reader accepts a byte string with a table exactly when the bytes are that table, written as
   * the format says, followed by data that holds every entry, within all limits.
   */
  lemma {:induction false} TableExact(file: Bytes, t: Table)
    ensures ParsedTable(file) == Ok(t) <==> WellFormed(file, t)
  {
    if ParsedTable(file) == Ok(t) {
      AcceptedIsWellFormed(file);
    }
    if WellFormed(file, t) {
      WellFormedIsAccepted(file, t);
    }
  }

  // ---- Written packages ----

  lemma {:induction false} PayloadStands(files: seq<File>, i: nat)
    requires i < |files|
    ensures TotalSize(files[..i]) + |files[i].payload| <= TotalSize(files) == |Payloads(files)|
    ensures At(Payloads(files), TotalSize(files[..i]), files[i].payload)
  {
    var last := |files| - 1;
    var before := files[..last];
    SizeOfPayloads(files);
    if i < last {
      PayloadStands(before, i);
      assert before[..i] == files[..i] && before[i] == files[i];
      assert Payloads(files)[..|Payloads(before)|] == Payloads(before);
      assert Payloads(files)[TotalSize(files[..i])..TotalSize(files[..i]) + |files[i].payload|]
          == Payloads(before)[TotalSize(files[..i])..TotalSize(files[..i]) + |files[i].payload|];
    } else {
      SizeOfPayloads(before);
    }
  }

  lemma {:induction false} SizeOfPayloads(files: seq<File>)
    ensures |Payloads(files)| == TotalSize(files)
  {
    if files != [] {
      SizeOfPayloads(files[..|files| - 1]);
    }
  }

  lemma {:induction false} SizesAppend(entries: seq<Entry>, e: Entry)
    ensures Sizes(entries + [e]) == Sizes(entries) + e.size
  {
    if entries != [] {
      SizesAppend(entries[1..], e);
      assert (entries + [e])[1..] == entries[1..] + [e];
    }
  }

  lemma {:induction false} LayoutSizes(files: seq<File>)
    requires TotalSize(files) <= U32_MAX
    ensures Sizes(Layout(files)) == TotalSize(files)
  {
    if files != [] {
      LayoutSizes(files[..|files| - 1]);
      SizesAppend(Layout(files[..|files| - 1]), Layout(files)[|files| - 1]);
    }
  }

  function IsFrame(payload: Bytes): bool {
    LZ4_FRAME_MAGIC <= payload
  }

  /** The table of a written package, as the reader will see it. */
  ghost function WrittenTable(version: Bytes, files: seq<File>): (t: Table)
    requires Writable(files) && |version| == 4
    ensures |t.entries| == |files|
    ensures forall i :: 0 <= i < |files| ==>
              t.entries[i] == Layout(files)[i].(compressed := IsFrame(files[i].payload))
  {
    LayoutPaths(files);
    Table(seq(|files|, i requires 0 <= i < |files| => Layout(files)[i].(compressed := IsFrame(files[i].payload))),
          |TableBytes(version, Layout(files))|)
  }

  /** Which file the entry is, where its payload lies, and how long it is. */
  ghost predicate Describes(e: Entry, files: seq<File>, i: nat)
    requires i < |files|
  {
    e.path == files[i].path && e.offset == TotalSize(files[..i]) && e.size == |files[i].payload|
  }

  lemma {:induction false} StoredInBuilt(version: Bytes, files: seq<File>, i: nat)
    requires Writable(files) && |version| == 4 && i < |files|
    ensures var t := WrittenTable(version, files);
            && InRange(Built(version, files), t.dataStart, t.entries[i])
            && Stored(Built(version, files), t.dataStart, t.entries[i]) == files[i].payload
  {
    hide TableBytes, Payloads, Layout, TotalSize, IsFrame;
    LayoutPaths(files);
    LayoutEntry(files, i);
    var table := TableBytes(version, Layout(files));
    var start := TotalSize(files[..i]);
    var end := start + |files[i].payload|;
    PayloadStands(files, i);
    assert (table + Payloads(files))[|table| + start..|table| + end] == Payloads(files)[start..end];
  }

  lemma {:induction false} WrittenIsTable(version: Bytes, files: seq<File>)
    requires |version| == 4 && Writable(files)
    ensures var t := WrittenTable(version, files);
            && PathsFit(t.entries) && IsTable(Built(version, files), version, t)
            && Sizes(t.entries) == TotalSize(files)
  {
    hide EntriesBytes, Payloads;
    var t := WrittenTable(version, files);
    LayoutPaths(files);
    LayoutSizes(files);
    forall i | 0 <= i < |files|
      ensures |t.entries[i].path| <= U32_MAX && Clear(t.entries[i]) == Layout(files)[i]
    {
      LayoutEntry(files, i);
      assert files[i] in files;
    }
    assert ClearAll(t.entries) == Layout(files);
    ClearKeepsBytes(t.entries);
  }

  lemma {:induction false} WrittenEntry(version: Bytes, files: seq<File>, i: nat)
    requires |version| == 4 && Packable(files) && i < |files|
    ensures var file, t := Built(version, files), WrittenTable(version, files);
            && Describes(t.entries[i], files, i)
            && ValidPath(t.entries[i].path)
            && InRange(file, t.dataStart, t.entries[i])
            && Stored(file, t.dataStart, t.entries[i]) == files[i].payload
            && t.entries[i].compressed == IsFrame(files[i].payload)
  {
    hide SafePath, ValidUtf8, TableBytes, Payloads;
    StoredInBuilt(version, files, i);
    LayoutEntry(files, i);
    assert files[i] in files;
  }

  /**
   * Reading the table of a written package gives back its paths with prefix-sum offsets, and every
   * payload as it was stored.
   */
  lemma {:induction false} WrittenReadsBack(version: Bytes, files: seq<File>)
    requires ValidVersion(version) && Packable(files) && |Built(version, files)| <= MAX_PKG_BYTES
    ensures var file, t := Built(version, files), WrittenTable(version, files);
            && ParsedTable(file) == Ok(t)
            && |t.entries| == |files|
            && (forall i :: 0 <= i < |files| ==> Describes(t.entries[i], files, i))
            && forall i :: 0 <= i < |files| ==> ReadPayload(file, t.dataStart, t.entries[i]) == Ok(files[i].payload)
  {
    hide SafePath, ValidUtf8, TableBytes, Payloads, EntriesBytes, Built, Layout, Describes, ParsedTable, Sizes;
    var file, t := Built(version, files), WrittenTable(version, files);
    WrittenIsTable(version, files);
    forall i | 0 <= i < |files|
      ensures Describes(t.entries[i], files, i) && ValidPath(t.entries[i].path)
      ensures InRange(file, t.dataStart, t.entries[i]) && Stored(file, t.dataStart, t.entries[i]) == files[i].payload
      ensures t.entries[i].compressed == IsFrame(files[i].payload)
    {
      WrittenEntry(version, files, i);
    }
    assert WellFormed(file, t);
    WellFormedIsAccepted(file, t);
  }

  /**
   * Reading an entry gives back its stored payload unless the payload passes for an LZ4 frame: then
   * what counts is the decoder, and only a frame it rejects is read raw.
   */
  lemma {:induction false} EntryReadsBack(version: Bytes, files: seq<File>, i: nat, cap: nat, lz4: Lz4)
    requires ValidVersion(version) && Packable(files) && |Built(version, files)| <= MAX_PKG_BYTES && i < |files|
    ensures var r := ReadEntryBounded(Built(version, files), WrittenTable(version, files), i, cap, lz4);
            var payload := files[i].payload;
            && (|payload| > cap ==> r == Err(Bounds))
            && (|payload| <= cap ==>
                  (r == Ok(payload) <==>
                   !IsFrame(payload) || lz4(payload, cap + 1).None? || lz4(payload, cap + 1) == Some(payload)))
  {
    StoredInBuilt(version, files, i);
  }

  /** A payload stored as a frame its decoder inverts is read back decoded, when it fits the cap. */
  lemma {:induction false} FrameReadsBack(version: Bytes, files: seq<File>, i: nat, original: Bytes, cap: nat, lz4: Lz4)
    requires ValidVersion(version) && Packable(files) && |Built(version, files)| <= MAX_PKG_BYTES && i < |files|
    requires IsFrame(files[i].payload) && |files[i].payload| <= cap
    requires lz4(files[i].payload, cap + 1) == Some(if |original| <= cap then original else original[..cap + 1])
    ensures ReadEntryBounded(Built(version, files), WrittenTable(version, files), i, cap, lz4)
            == if |original| <= cap then Ok(original) else Err(Bounds)
  {
    StoredInBuilt(version, files, i);
  }

  /** Why a package is refused: its size, its header, its first bad entry, or a payload outside the file. */
  lemma {:induction false} TableErrorExact(file: Bytes)
    ensures ParsedTable(file).Err? ==>
              if |file| > 536870912 then ParsedTable(file).error == Bounds
              else if HeaderCount(file).Err? then ParsedTable(file).error == HeaderCount(file).error
              else
                var read := EntriesAt(file, 16, HeaderCount(file).value, 0);
                if read.Err? then ParsedTable(file).error == read.error
                else
                  && ParsedTable(file).error == Format
                  && exists e :: e in read.value.0 && read.value.1 + e.offset + e.size > |file|
  {
    hide HeaderCount, EntriesAt;
  }

  // ---- Paths ----

  function JoinAll(components: seq<Bytes>): Bytes
    requires components != []
  {
    if |components| == 1 then components[0] else components[0] + [0x2F] + JoinAll(components[1..])
  }

  lemma {:induction false} JoinPrepend(rest: seq<Bytes>, b: byte)
    requires rest != []
    ensures JoinAll([[]] + rest) == [0x2F] + JoinAll(rest)
    ensures JoinAll([[b] + rest[0]] + rest[1..]) == [b] + JoinAll(rest)
  {
    assert ([[]] + rest)[1..] == rest;
    assert ([[b] + rest[0]] + rest[1..])[1..] == rest[1..];
    if |rest| > 1 {
      assert ([b] + rest[0]) + [0x2F] + JoinAll(rest[1..]) == [b] + (rest[0] + [0x2F] + JoinAll(rest[1..]));
    }
  }

  /** Splitting a path gives the components without slashes that join to it again. */
  lemma {:induction false} ComponentsExact(path: Bytes)
    ensures JoinAll(Components(path)) == path
    ensures forall c :: c in Components(path) ==> 0x2F !in c
  {
    hide JoinAll;
    if path == [] {
      JoinOne([]);
    } else {
      ComponentsExact(path[1..]);
      var rest := Components(path[1..]);
      JoinPrepend(rest, path[0]);
      assert path == [path[0]] + path[1..];
      assert rest[0] in rest;
    }
  }

  lemma {:induction false} JoinOne(c: Bytes)
    ensures JoinAll([c]) == c
  {
  }

  /** Two dots that are a whole component. */
  predicate DotsAt(path: Bytes, i: int) {
    && 0 <= i && i + 2 <= |path| && path[i] == 0x2E && path[i + 1] == 0x2E
    && (i == 0 || path[i - 1] == 0x2F)
    && (i + 2 == |path| || path[i + 2] == 0x2F)
  }

  /** The first component ends at the first slash or with the path. */
  lemma {:induction false} FirstComponent(path: Bytes) returns (k: nat)
    ensures k <= |path| && Components(path)[0] == path[..k] && (k == |path| || path[k] == 0x2F)
    ensures forall i :: 0 <= i < k ==> path[i] != 0x2F
  {
    k := 0;
    if path != [] && path[0] != SLASH {
      var m := FirstComponent(path[1..]);
      k := m + 1;
      assert path[..k] == [path[0]] + path[1..][..m];
    }
  }

  lemma {:induction false} FirstIsDots(path: Bytes)
    ensures Components(path)[0] == DOT_DOT <==> DotsAt(path, 0)
  {
    var k := FirstComponent(path);
    if DotsAt(path, 0) {
      assert k == 2;
      assert path[..2] == DOT_DOT;
    }
  }

  lemma {:induction false} LaterDots(path: Bytes)
    ensures DOT_DOT in Components(path)[1..] <==> exists i :: 1 <= i && DotsAt(path, i)
  {
    if path != [] {
      var tail, rest := path[1..], Components(path[1..]);
      LaterDots(tail);
      FirstIsDots(tail);
      assert rest == [rest[0]] + rest[1..];
      forall i | 1 <= i
        ensures DotsAt(path, i) <==> if i == 1 then path[0] == 0x2F && DotsAt(tail, 0) else DotsAt(tail, i - 1)
      {
      }
      if path[0] == SLASH {
        assert Components(path)[1..] == rest;
        if DOT_DOT in rest {
          if rest[0] == DOT_DOT {
            assert DotsAt(path, 1);
          } else {
            var j :| 1 <= j && DotsAt(tail, j);
            assert DotsAt(path, j + 1);
          }
        }
      } else {
        assert Components(path)[1..] == rest[1..];
        if DOT_DOT in rest[1..] {
          var j :| 1 <= j && DotsAt(tail, j);
          assert DotsAt(path, j + 1);
        }
      }
    }
  }

  /** A path is safe exactly when it is relative, has no NUL or backslash, and nowhere goes up. */
  lemma {:induction false} SafePathExact(path: Bytes)
    ensures SafePath(path) <==>
            && path != [] && path[0] != 0x2F
            && (forall i :: 0 <= i < |path| ==> path[i] != 0 && path[i] != 0x5C)
            && !exists i :: DotsAt(path, i)
    ensures StaysInside(path) <==> path == [] || SafePath(path)
  {
    hide Components;
    var parts := Components(path);
    assert parts == [parts[0]] + parts[1..];
    FirstIsDots(path);
    LaterDots(path);
    if path == [] {
      EmptyPath();
    }
  }

  lemma {:induction false} EmptyPath()
    ensures Components([]) == [[]]
  {
  }

  // ---- References ----

  /** The same byte, or the two cases of one ASCII letter. */
  predicate SameLetter(a: byte, b: byte) {
    a == b || (0x41 <= a <= 0x5A && b == a + 0x20) || (0x41 <= b <= 0x5A && a == b + 0x20)
  }

  /** The reference is the path's tail from `i`, which is its start or follows a slash. */
  predicate TailAt(path: Bytes, reference: Bytes, i: int) {
    && 0 <= i && i + |reference| == |path|
    && (i == 0 || path[i - 1] == 0x2F)
    && forall k :: 0 <= k < |reference| ==> SameLetter(path[i + k], reference[k])
  }

  lemma {:induction false} LowerExact(a: byte, b: byte)
    ensures Lower(a) == Lower(b) <==> SameLetter(a, b)
    ensures Lower(a) == 0x2F <==> a == 0x2F
  {
  }

  lemma {:induction false} LowerTail(path: Bytes, reference: Bytes, i: nat)
    requires i + |reference| == |path|
    ensures LowerAll(path)[i..] == LowerAll(reference) <==>
            forall k :: 0 <= k < |reference| ==> SameLetter(path[i + k], reference[k])
  {
    hide Lower, SameLetter;
    forall k | 0 <= k < |reference|
      ensures LowerAll(path)[i..][k] == LowerAll(reference)[k] <==> SameLetter(path[i + k], reference[k])
    {
      LowerExact(path[i + k], reference[k]);
    }
  }

  lemma {:induction false} WholeMatches(path: Bytes, reference: Bytes)
    requires |path| == |reference|
    ensures Matches(path, reference) <==> TailAt(path, reference, 0)
  {
    hide Lower, SameLetter;
    LowerTail(path, reference, 0);
    assert LowerAll(path)[0..] == LowerAll(path);
  }

  lemma {:induction false} EndsAfterSlash(low: Bytes, tail: Bytes)
    requires |low| > |tail|
    ensures EndsWith(low, [SLASH] + tail) <==> low[|low| - |tail| - 1] == SLASH && low[|low| - |tail|..] == tail
  {
    var i := |low| - |tail|;
    assert low[i - 1..] == [low[i - 1]] + low[i..];
    assert ([SLASH] + tail)[1..] == tail && low[i - 1..][1..] == low[i..];
  }

  lemma {:induction false} TailMatches(path: Bytes, reference: Bytes)
    requires |path| > |reference|
    ensures Matches(path, reference) <==> TailAt(path, reference, |path| - |reference|)
  {
    hide Lower, SameLetter, EndsWith;
    var i := |path| - |reference|;
    EndsAfterSlash(LowerAll(path), LowerAll(reference));
    LowerTail(path, reference, i);
    LowerExact(path[i - 1], 0);
  }

  /** A path matches a reference exactly when the reference is a tail of whole components, up to ASCII case. */
  lemma {:induction false} MatchesExact(path: Bytes, reference: Bytes)
    ensures Matches(path, reference) <==> exists i :: TailAt(path, reference, i)
  {
    hide LowerAll, SameLetter;
    assert forall i :: TailAt(path, reference, i) ==> i == |path| - |reference|;
    if |path| == |reference| {
      WholeMatches(path, reference);
    } else if |path| > |reference| {
      TailMatches(path, reference);
    }
  }

  /** A reference resolves to an entry exactly when it stays inside and that entry alone matches it. */
  lemma {:induction false} ResolveExact(reference: Bytes, entries: seq<Entry>, i: nat)
    ensures ResolvePkgEntry(reference, entries) == Ok(i) <==>
            && StaysInside(reference) && i < |entries| && Matches(entries[i].path, reference)
            && forall j :: 0 <= j < |entries| && Matches(entries[j].path, reference) ==> j == i
  {
    var m := MatchingEntries(reference, entries);
    if |m| == 1 {
      assert m[0] in m;
    } else if |m| > 1 {
      assert m[0] in m && m[1] in m;
    }
    if i < |entries| && Matches(entries[i].path, reference) {
      assert i in m;
    }
  }

  /** Looking an accepted entry up by its own path finds it unless another entry also ends in that path. */
  lemma {:induction false} OwnPathResolves(file: Bytes, i: nat)
    requires ParsedTable(file).Ok? && i < |ParsedTable(file).value.entries|
    ensures var entries := ParsedTable(file).value.entries;
            ResolvePkgEntry(entries[i].path, entries) == Ok(i) <==>
            forall j :: 0 <= j < |entries| && j != i ==> !Matches(entries[j].path, entries[i].path)
  {
    AcceptedIsWellFormed(file);
    var entries := ParsedTable(file).value.entries;
    assert entries[i] in entries;
    ResolveExact(entries[i].path, entries, i);
  }

  // ---- Two packages that surprise ----

  const A: Bytes := [0x61]
  const B_A: Bytes := [0x62, 0x2F, 0x61]
  const VERSION_1: Bytes := [0x30, 0x30, 0x30, 0x31]

  lemma {:induction false} ComponentBytes(path: Bytes)
    ensures forall c, b :: c in Components(path) && b in c ==> b in path
  {
    if path != [] {
      var rest := Components(path[1..]);
      ComponentBytes(path[1..]);
      forall c, b | c in Components(path) && b in c
        ensures b in path
      {
        assert c in rest || c == [] || c == [path[0]] + rest[0];
        assert rest[0] in rest;
      }
    }
  }

  lemma {:induction false} PlainPaths()
    ensures ValidPath(A) && ValidPath(B_A)
  {
    assert A[1..] == [] && B_A[1..] == [0x2F, 0x61] && B_A[1..][1..] == A;
    assert ValidUtf8([]) && ValidUtf8(A) && ValidUtf8([0x2F, 0x61]);
    ComponentBytes(A);
    ComponentBytes(B_A);
    assert 0x2E in DOT_DOT;
  }

  lemma {:induction false} SmallTotal(files: seq<File>)
    requires forall f :: f in files ==> |f.payload| <= 11
    ensures TotalSize(files) <= 11 * |files|
  {
    if files != [] {
      SmallTotal(files[..|files| - 1]);
    }
  }

  lemma {:induction false} SmallEntries(entries: seq<Entry>)
    requires forall i :: 0 <= i < |entries| ==> |entries[i].path| <= 3
    ensures PathsFit(entries) && |EntriesBytes(entries)| <= 15 * |entries|
  {
    if entries != [] {
      SmallEntries(entries[1..]);
    }
  }

  /** Packages of one or two short files are within all limits. */
  lemma {:induction false} SmallPackage(files: seq<File>)
    requires |files| <= 2
    requires forall f :: f in files ==> ValidPath(f.path) && |f.path| <= 3 && |f.payload| <= 11
    ensures Packable(files) && |Built(VERSION_1, files)| <= MAX_PKG_BYTES
  {
    hide ValidUtf8, SafePath, EntriesBytes, Layout, Payloads, TotalSize;
    SmallTotal(files);
    SizeOfPayloads(files);
    forall i | 0 <= i < |files|
      ensures |Layout(files)[i].path| <= 3
    {
      LayoutEntry(files, i);
      assert files[i] in files;
    }
    SmallEntries(Layout(files));
  }

  /** A package with `a` and `b/a`, which the reader accepts, cannot say which of them `a` is. */
  lemma {:induction false} OwnPathAmbiguous()
    ensures var files := [File(A, []), File(B_A, [])];
            && Packable(files)
            && var t := ParsedTable(Built(VERSION_1, files));
            && t.Ok? && |t.value.entries| == 2 && t.value.entries[0].path == A
            && ResolvePkgEntry(A, t.value.entries) != Ok(0)
  {
    hide ParsedTable, Built, WrittenTable, ResolvePkgEntry, Matches, ValidPath, Packable, Components;
    var files := [File(A, []), File(B_A, [])];
    PlainPaths();
    SmallPackage(files);
    WrittenReadsBack(VERSION_1, files);
    var t := WrittenTable(VERSION_1, files);
    assert Describes(t.entries[0], files, 0) && Describes(t.entries[1], files, 1);
    EndsInOther();
    OwnPathResolves(Built(VERSION_1, files), 0);
  }

  lemma {:induction false} EndsInOther()
    ensures Matches(B_A, A)
  {
    assert LowerAll(A) == A && LowerAll(B_A) == B_A;
    assert B_A[1..] == [SLASH] + A;
  }

  /** The LZ4 frame of nothing: magic, descriptor with its checksum, end mark. */
  const EMPTY_FRAME: Bytes := [0x04, 0x22, 0x4D, 0x18, 0x60, 0x40, 0x82, 0, 0, 0, 0]

  /** A payload that happens to be the empty frame is read as nothing by a decoder that decodes it. */
  lemma {:induction false} PayloadReadDecoded(lz4: Lz4)
    requires lz4(EMPTY_FRAME, 12) == Some([])
    ensures var files := [File(A, EMPTY_FRAME)];
            && Packable(files)
            && var t := ParsedTable(Built(VERSION_1, files));
            && t.Ok? && |t.value.entries| == 1
            && ReadEntryBounded(Built(VERSION_1, files), t.value, 0, 11, lz4) == Ok([])
  {
    hide ParsedTable, Built, WrittenTable, ValidPath, Packable, ReadEntryBounded;
    var files := [File(A, EMPTY_FRAME)];
    PlainPaths();
    SmallPackage(files);
    WrittenReadsBack(VERSION_1, files);
    FrameReadsBack(VERSION_1, files, 0, [], 11, lz4);
  }
}
