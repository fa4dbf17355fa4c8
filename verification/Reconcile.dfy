/**
 Crash repair: the position recorded in the metadata against the end of the block files found on
 disk. Files that run ahead are rolled back; files that fall short are reported as corrupt.
 */
module Reconcile {
  import opened Wrappers
  import opened Bytes
  import opened BlockFiles
  import opened BlockStore

  datatype Corruption = NoWriteCursor | BadChecksum | FilesBehind

  const ROW_SIZE: nat := 12

  function SerializeWriteRow(crc: Content -> U32, file: U32, offset: U32): (row: Content)
    ensures |row| == ROW_SIZE
  {
    var head := LittleEndian(file, 4) + LittleEndian(offset, 4);
    head + LittleEndian(crc(head), 4)
  }

  function DeserializeWriteRow(crc: Content -> U32, row: Content): Result<Position, Corruption>
    requires |row| >= ROW_SIZE
  {
    if crc(row[..8]) != Uint32(row[8..12]) then Err(BadChecksum)
    else Ok(Position(Uint32(row[..4]), Uint32(row[4..8])))
  }

  /** A written row reads back as the position it was made from. */
  lemma WriteRowRoundTrip(crc: Content -> U32, file: U32, offset: U32)
    ensures DeserializeWriteRow(crc, SerializeWriteRow(crc, file, offset)) == Ok(Position(file, offset))
  {
    hide LittleEndian, Uint32;
    var row := SerializeWriteRow(crc, file, offset);
    var head := LittleEndian(file, 4) + LittleEndian(offset, 4);
    assert row[..8] == head && row[8..12] == LittleEndian(crc(head), 4);
    assert row[..4] == LittleEndian(file, 4) && row[4..8] == LittleEndian(offset, 4);
    Uint32RoundTrip(file);
    Uint32RoundTrip(offset);
    Uint32RoundTrip(crc(head));
  }

  /** Only a row made from a position, as far as its twelve bytes go, is accepted. */
  lemma WriteRowCanonical(crc: Content -> U32, row: Content)
    requires |row| == ROW_SIZE && DeserializeWriteRow(crc, row).Ok?
    ensures var p := DeserializeWriteRow(crc, row).value;
      p.file < WORD32 && p.offset < WORD32 && row == SerializeWriteRow(crc, p.file, p.offset)
  {
    hide LittleEndian;
    assert row[..8] == row[..4] + row[4..8];
    assert row == row[..8] + row[8..12];
  }

  /**
   The files after a repair: unchanged at the position; beyond it, rolled back, unless a newer file
   is missing or open, where deleting stops.
   */
  function Repaired(disk: Disk, open: set<nat>, cursor: Position, meta: Position): Disk
    requires AtMost(meta, cursor)
  {
    var stuck := StuckAt(disk, open, meta.file, cursor.file);
    if cursor == meta then disk else if stuck == meta.file then RolledBack(disk, meta) else Upto(disk, stuck)
  }

  /**
   Succeeds exactly when there is a readable position that is not after the end of the files, and
   then leaves the cursor there. The files end there as well when every newer file exists and none
   is open; otherwise the newer files are deleted only down to the first that is missing or open.
   An error changes nothing.
   */
  method ReconcileDB(store: BlockStore, row: Option<Content>) returns (r: Result<Position, Corruption>)
    requires row.Some? ==> |row.value| >= ROW_SIZE
    requires AtEnd(store.disk, store.Cursor()) && (store.curOpen ==> store.curFileNum in store.disk)
    modifies store`disk, store`curFileNum, store`curOffset, store`curOpen, store`log
    ensures row.None? ==> r == Err(NoWriteCursor)
    ensures row.Some? && DeserializeWriteRow(store.format.crc, row.value).Err? ==> r == Err(BadChecksum)
    ensures row.Some? && DeserializeWriteRow(store.format.crc, row.value).Ok? ==>
              var meta := DeserializeWriteRow(store.format.crc, row.value).value;
              r == if AtMost(meta, old(store.Cursor())) then Ok(meta) else Err(FilesBehind)
    ensures r.Err? || old(store.Cursor()) == r.value ==>
              store.disk == old(store.disk) && store.Cursor() == old(store.Cursor()) && store.log == old(store.log)
    ensures r.Ok? ==> store.Cursor() == r.value
    ensures r.Ok? && old(store.Cursor()) != r.value ==> store.log == LogUpto(old(store.log), r.value)
    ensures r.Ok? ==> store.disk == Repaired(old(store.disk), store.openFiles, old(store.Cursor()), r.value)
    ensures r.Ok? && old(store.Clear(DeserializeWriteRow(store.format.crc, row.value).value)) ==>
              AtEnd(store.disk, r.value)
  {
    hide DeserializeWriteRow, RolledBack;
    if row.None? {
      return Err(NoWriteCursor);
    }
    var read := DeserializeWriteRow(store.format.crc, row.value);
    if read.Err? {
      ReadFailsByChecksum(store.format.crc, row.value);
      return Err(read.error);
    }
    var meta := read.value;
    if store.curFileNum > meta.file || (store.curFileNum == meta.file && store.curOffset > meta.offset) {
      RollbackAtEnd(store.disk, meta);
      StuckExactly(store.disk, store.openFiles, meta.file, store.curFileNum);
      store.HandleRollback(meta);
    }
    if store.curFileNum < meta.file || (store.curFileNum == meta.file && store.curOffset < meta.offset) {
      return Err(FilesBehind);
    }
    return Ok(meta);
  }

  lemma ReadFailsByChecksum(crc: Content -> U32, row: Content)
    requires |row| >= ROW_SIZE && DeserializeWriteRow(crc, row).Err?
    ensures DeserializeWriteRow(crc, row) == Err(BadChecksum)
  {
  }

  /** Records that end before the position are all still there after the repair, unchanged. */
  lemma RepairKeepsRecords(disk: Disk, open: set<nat>, f: Format, log: seq<Entry>, cursor: Position, meta: Position,
                           e: Entry)
    requires Stored(disk, f, log, cursor) && AtMost(meta, cursor) && e in log && AtMost(EndOf(e.loc), meta)
    ensures Holds(Repaired(disk, open, cursor, meta), f, e)
  {
    hide RolledBack, Record;
    assert Holds(disk, f, e);
    RollbackKeeps(disk, f, e, meta);
  }

  // ----- Opening -----

  /** The highest file number, zero if there is no file. */
  predicate Newest(disk: Disk, n: nat) {
    (forall f :: f in disk ==> f <= n) && if disk == map[] then n == 0 else n in disk
  }

  lemma {:induction false} NewestExists(disk: Disk)
    ensures exists n :: Newest(disk, n)
    decreases |disk|
  {
    if disk == map[] {
      assert Newest(disk, 0);
    } else {
      var f :| f in disk;
      var rest := disk - {f};
      NewestExists(rest);
      var n :| Newest(rest, n);
      assert forall g :: g in disk ==> g == f || g in rest;
      assert Newest(disk, if n in rest && n > f then n else f);
    }
  }

  /** The write cursor that scanning the files finds. */
  ghost function Scanned(disk: Disk): Position {
    NewestExists(disk);
    var n :| Newest(disk, n);
    Position(n, |ContentOf(disk, n)|)
  }

  lemma ScannedIs(disk: Disk, n: nat)
    requires Newest(disk, n)
    ensures Scanned(disk) == Position(n, |ContentOf(disk, n)|)
  {
  }

  /** Finds the last file. */
  method ScanBlockFiles(disk: Disk) returns (last: nat)
    ensures Newest(disk, last)
  {
    last := 0;
    var left := disk.Keys;
    while left != {}
      invariant left <= disk.Keys
      invariant forall f :: f in disk ==> f in left || f <= last
      invariant last in disk || last == 0
      decreases left
    {
      var f :| f in left;
      last := if f > last then f else last;
      left := left - {f};
    }
    assert last !in disk ==> forall f :: f !in disk;
  }

  predicate Fits(disk: Disk) {
    forall f :: f in disk ==> |disk[f]| < WORD32
  }

  /** Opens a database over the files found: the store first, then the repair. */
  method OpenDB(format: Format, maxSize: nat, disk: Disk, row: Option<Content>)
    returns (store: BlockStore, r: Result<Position, Corruption>)
    requires Fits(disk) && (row.Some? ==> |row.value| >= ROW_SIZE)
    ensures fresh(store) && store.format == format && store.maxSize == maxSize
    ensures row.None? ==> r == Err(NoWriteCursor)
    ensures row.Some? && DeserializeWriteRow(format.crc, row.value).Err? ==> r == Err(BadChecksum)
    ensures row.Some? && DeserializeWriteRow(format.crc, row.value).Ok? ==>
              var meta := DeserializeWriteRow(format.crc, row.value).value;
              r == if AtMost(meta, Scanned(disk)) then Ok(meta) else Err(FilesBehind)
    ensures r.Ok? ==> store.Cursor() == r.value && store.disk == Repaired(disk, {}, Scanned(disk), r.value)
    ensures r.Err? ==> store.Cursor() == Scanned(disk) && store.disk == disk
  {
    hide DeserializeWriteRow, Repaired;
    var last := ScanBlockFiles(disk);
    ScannedIs(disk, last);
    store := new BlockStore(format, maxSize, disk, last);
    r := ReconcileDB(store, row);
  }

  /** No file is missing after the position. */
  predicate NoGap(disk: Disk, cursor: Position, meta: Position) {
    forall f :: meta.file < f <= cursor.file ==> f in disk
  }

  /** With no file missing, the repaired files end at the position, as scanning them finds. */
  lemma RepairedScans(disk: Disk, meta: Position)
    requires AtMost(meta, Scanned(disk)) && NoGap(disk, Scanned(disk), meta)
    ensures Scanned(Repaired(disk, {}, Scanned(disk), meta)) == meta
  {
    hide Scanned, Truncate;
    var cursor := Scanned(disk);
    StuckExactly(disk, {}, meta.file, cursor.file);
    if cursor != meta {
      assert meta.file in RolledBack(disk, meta);
      ScannedIs(RolledBack(disk, meta), meta.file);
    }
  }

  /**
   One opening is enough: no file is missing after the position, or the missing file that stops the
   repair leaves the file at the position as the last one, already of the right length.
   */
  ghost predicate SettlesAtOnce(disk: Disk, meta: Position)
    requires AtMost(meta, Scanned(disk))
  {
    || NoGap(disk, Scanned(disk), meta)
    || (&& Newest(Upto(disk, StuckAt(disk, {}, meta.file, Scanned(disk).file)), meta.file)
        && |ContentOf(disk, meta.file)| == meta.offset)
  }

  /** The repaired files end at the position, as scanning them finds, exactly when one opening is enough. */
  lemma RepairedScansExactly(disk: Disk, meta: Position)
    requires AtMost(meta, Scanned(disk))
    ensures Scanned(Repaired(disk, {}, Scanned(disk), meta)) == meta <==> SettlesAtOnce(disk, meta)
  {
    hide Scanned, Newest, RolledBack;
    var cursor := Scanned(disk);
    if NoGap(disk, cursor, meta) {
      RepairedScans(disk, meta);
    } else {
      StuckExactly(disk, {}, meta.file, cursor.file);
      var left := Upto(disk, StuckAt(disk, {}, meta.file, cursor.file));
      assert ContentOf(left, meta.file) == ContentOf(disk, meta.file);
      NewestExists(left);
      var n :| Newest(left, n);
      ScannedIs(left, n);
      if Newest(left, meta.file) {
        ScannedIs(left, meta.file);
      }
    }
  }

  /** Files that run beyond the position are changed by a repair. */
  lemma RepairChanges(disk: Disk, meta: Position)
    requires AtMost(meta, Scanned(disk)) && Scanned(disk) != meta
    ensures Repaired(disk, {}, Scanned(disk), meta) != disk
  {
    NewestExists(disk);
    var n :| Newest(disk, n);
    ScannedIs(disk, n);
  }

  lemma RepairedFits(crc: Content -> U32, row: Content, disk: Disk, cursor: Position)
    requires |row| >= ROW_SIZE && DeserializeWriteRow(crc, row).Ok? && Fits(disk)
    requires AtMost(DeserializeWriteRow(crc, row).value, cursor)
    ensures Fits(Repaired(disk, {}, cursor, DeserializeWriteRow(crc, row).value))
  {
    hide StuckAt, Uint32;
  }

  /**
   Opening twice on the same recorded position: the second time changes nothing and ends the same
   way exactly when one opening is enough for the files as they were.
   */
  method OpenTwice(format: Format, maxSize: nat, disk: Disk, row: Option<Content>)
    returns (a: Result<Position, Corruption>, once: BlockStore, b: Result<Position, Corruption>, again: BlockStore)
    requires Fits(disk) && (row.Some? ==> |row.value| >= ROW_SIZE)
    ensures a.Err? ==> b == a && again.disk == disk
    ensures a.Ok? ==> AtMost(a.value, Scanned(disk))
    ensures a.Ok? ==>
              (b == a && again.disk == once.disk && again.Cursor() == a.value <==> SettlesAtOnce(disk, a.value))
    ensures a.Ok? ==> (Scanned(once.disk) == a.value <==> SettlesAtOnce(disk, a.value))
  {
    hide DeserializeWriteRow, Scanned, Fits, SettlesAtOnce;
    once, a := OpenDB(format, maxSize, disk, row);
    if a.Ok? {
      RepairedFits(format.crc, row.value, disk, Scanned(disk));
      RepairedScansExactly(disk, a.value);
    }
    again, b := OpenDB(format, maxSize, once.disk, row);
    if a.Ok? && b.Ok? && Scanned(once.disk) != a.value {
      RepairChanges(once.disk, a.value);
    }
  }

  /**
   A missing file stops a repair: with file 1 gone, file 2 is deleted but file 0 is not cut, and
   the database opens all the same. The next opening cuts it.
   */
  lemma GapStopsRepair(c: Byte)
    ensures var disk, meta := map[0 := [c, c], 2 := [c]], Position(0, 1);
      && Scanned(disk) == Position(2, 1) && AtMost(meta, Scanned(disk))
      && Repaired(disk, {}, Scanned(disk), meta) == map[0 := [c, c]]
      && Scanned(map[0 := [c, c]]) == Position(0, 2)
      && Repaired(map[0 := [c, c]], {}, Position(0, 2), meta) == map[0 := [c]]
      && !SettlesAtOnce(disk, meta)
  {
    hide Scanned;
    var disk := map[0 := [c, c], 2 := [c]];
    assert 2 in disk && 0 in map[0 := [c, c]];
    ScannedIs(disk, 2);
    ScannedIs(map[0 := [c, c]], 0);
    assert StuckAt(disk, {}, 0, 2) == StuckAt(disk, {}, 0, 1) == 1;
    assert Truncate([c, c], 1) == [c];
    assert 1 !in disk;
  }

  /** A missing file does no harm where the file at the position already ends there and is then the last. */
  lemma HarmlessGap(c: Byte)
    ensures var disk, meta := map[0 := [c], 2 := [c]], Position(0, 1);
      AtMost(meta, Scanned(disk)) && !NoGap(disk, Scanned(disk), meta) && SettlesAtOnce(disk, meta)
  {
    hide Scanned;
    var disk := map[0 := [c], 2 := [c]];
    assert 2 in disk && 1 !in disk;
    ScannedIs(disk, 2);
    assert StuckAt(disk, {}, 0, 2) == StuckAt(disk, {}, 0, 1) == 1;
    assert 0 in Upto(disk, 1);
  }

  /**
   What repair cannot see: an earlier file cut short is filled up with zeros and reported as sound.
   With file 0 missing its last byte and file 1 present, the position at the end of file 0 is
   accepted, and the byte comes back as zero.
   */
  lemma ShortFileUnnoticed(c: Byte)
    ensures var disk, meta := map[0 := [c], 1 := [c]], Position(0, 2);
      && AtEnd(disk, Position(1, 1)) && AtMost(meta, Position(1, 1))
      && Repaired(disk, {}, Position(1, 1), meta) == map[0 := [c, 0]]
  {
    assert Truncate([c], 2) == [c, 0];
  }

  /** A repair cuts and never fills up exactly when the file at the position reaches it, or it stops before. */
  lemma RepairOnlyCuts(disk: Disk, open: set<nat>, cursor: Position, meta: Position)
    requires AtEnd(disk, cursor) && AtMost(meta, cursor) && cursor != meta
    ensures ContentOf(Repaired(disk, open, cursor, meta), meta.file) <= ContentOf(disk, meta.file) <==>
            (meta.offset <= |ContentOf(disk, meta.file)| || StuckAt(disk, open, meta.file, cursor.file) != meta.file)
  {
    var c := ContentOf(disk, meta.file);
    assert |Truncate(c, meta.offset)| == meta.offset;
  }
}
