/** The block store: appending records at a write cursor, reading them back, and the open files. */
module BlockStore {
  import opened Wrappers
  import opened Bytes
  import opened BlockFiles

  const MAX_OPEN: nat := 25
  const WORD32: nat := 0x1_0000_0000

  /** Every open file has a list element and is in the list, which is short enough. */
  ghost predicate Listed(open: set<nat>, elems: set<nat>, lru: seq<nat>) {
    open == elems && |lru| <= MAX_OPEN && forall n :: n in open ==> n in lru
  }

  /** The open files, their list elements and the list hold the same files, each once and few enough. */
  ghost predicate Agree(open: set<nat>, elems: set<nat>, lru: seq<nat>) {
    && Listed(open, elems, lru)
    && (forall n :: n in lru ==> n in open)
    && (forall i, j :: 0 <= i < j < |lru| ==> lru[i] != lru[j])
  }

  lemma {:induction false} AtMostListed(open: set<nat>, lru: seq<nat>)
    requires forall n :: n in open ==> n in lru
    ensures |open| <= |lru|
    decreases |lru|
  {
    if lru == [] {
      assert open == {};
    } else {
      AtMostListed(open - {lru[0]}, lru[1..]);
    }
  }

  /** Without one element. */
  function Removed(s: seq<nat>, n: nat): (r: seq<nat>)
    decreases |s|
  {
    if s == [] then [] else if s[0] == n then s[1..] else [s[0]] + Removed(s[1..], n)
  }

  lemma {:induction false} RemovedMembers(s: seq<nat>, n: nat)
    requires forall i, j :: 0 <= i < j < |s| ==> s[i] != s[j]
    ensures forall m :: m in Removed(s, n) <==> m in s && m != n
    ensures forall i, j :: 0 <= i < j < |Removed(s, n)| ==> Removed(s, n)[i] != Removed(s, n)[j]
    ensures |Removed(s, n)| == |s| - (if n in s then 1 else 0)
    decreases |s|
  {
    if s != [] && s[0] != n {
      RemovedMembers(s[1..], n);
      assert forall m :: m in s <==> m == s[0] || m in s[1..];
      assert s[0] !in s[1..];
    } else if s != [] {
      assert forall m :: m in s <==> m == s[0] || m in s[1..];
      assert s[0] !in s[1..];
    }
  }

  lemma {:induction false} RemovedKeeps(s: seq<nat>, n: nat)
    ensures forall m :: m in s && m != n ==> m in Removed(s, n)
    ensures n in s ==> |Removed(s, n)| == |s| - 1
    decreases |s|
  {
    if s != [] && s[0] != n {
      RemovedKeeps(s[1..], n);
    }
  }

  lemma ToFront(open: set<nat>, elems: set<nat>, lru: seq<nat>, n: nat)
    requires Listed(open, elems, lru) && n in open
    ensures Listed(open, elems, [n] + Removed(lru, n))
    ensures Agree(open, elems, lru) ==> Agree(open, elems, [n] + Removed(lru, n))
  {
    RemovedKeeps(lru, n);
    if Agree(open, elems, lru) {
      RemovedMembers(lru, n);
    }
  }

  lemma Opened(open: set<nat>, elems: set<nat>, lru: seq<nat>, n: nat)
    requires Listed(open, elems, lru) && n !in open && |lru| < MAX_OPEN
    ensures Listed(open + {n}, elems + {n}, [n] + lru)
    ensures Agree(open, elems, lru) ==> Agree(open + {n}, elems + {n}, [n] + lru)
  {
  }

  lemma LastClosed(open: set<nat>, elems: set<nat>, lru: seq<nat>)
    requires Listed(open, elems, lru) && lru != []
    ensures var last := lru[|lru| - 1];
      && Listed(open - {last}, elems - {last}, lru[..|lru| - 1])
      && (Agree(open, elems, lru) ==> Agree(open - {last}, elems - {last}, lru[..|lru| - 1]))
  {
    var last, rest := lru[|lru| - 1], lru[..|lru| - 1];
    assert lru == rest + [last];
    assert forall m :: m in lru <==> m in rest || m == last;
  }

  /**
   Closing a file takes it out of the two maps but not out of the list. Called on its own, as
   pruning does, it leaves the three in agreement exactly when the file was not open.
   */
  lemma CloseAgrees(open: set<nat>, elems: set<nat>, lru: seq<nat>, n: nat)
    requires Agree(open, elems, lru)
    ensures Agree(open - {n}, elems - {n}, lru) <==> n !in open
  {
  }

  /** One open file that is closed on its own stays in the list. */
  lemma PrunedFileStaysListed()
    ensures Agree({7}, {7}, [7]) && !Agree({7} - {7}, {7} - {7}, [7])
  {
    CloseAgrees({7}, {7}, [7], 7);
  }

  class BlockStore {
    const format: Format
    const maxSize: nat
    var disk: Disk
    var curFileNum: nat
    var curOffset: nat
    var curOpen: bool
    var openFiles: set<nat>
    var lruElems: set<nat>
    var lru: seq<nat>
    ghost var log: seq<Entry>

    function Cursor(): Position
      reads this
    {
      Position(curFileNum, curOffset)
    }

    ghost predicate FilesOk()
      reads this
    {
      && maxSize < WORD32 && curOffset < WORD32
      && Stored(disk, format, log, Cursor()) && AtEnd(disk, Cursor())
      && (curOpen ==> curFileNum in disk)
    }

    ghost predicate Valid()
      reads this
    {
      FilesOk() && Listed(openFiles, lruElems, lru) && openFiles <= disk.Keys
    }

    /** Opens the store over existing files; `last` is the highest file number, zero if there is none. */
    constructor (format: Format, maxSize: nat, disk: Disk, last: nat)
      requires forall f :: f in disk ==> f <= last
      requires disk != map[] ==> last in disk
      requires disk == map[] ==> last == 0
      ensures this.format == format && this.maxSize == maxSize && this.disk == disk && log == []
      ensures Cursor() == Position(last, |ContentOf(disk, last)| % 0x1_0000_0000)
      ensures !curOpen && openFiles == {} && Agree(openFiles, lruElems, lru)
      ensures maxSize < WORD32 && |ContentOf(disk, last)| < WORD32 ==> Valid()
    {
      this.format, this.maxSize, this.disk := format, maxSize, disk;
      curFileNum, curOffset, curOpen := last, |ContentOf(disk, last)| % WORD32, false;
      openFiles, lruElems, lru, log := {}, {}, [], [];
    }

    /** Writes at the cursor and moves it on, in 32-bit arithmetic. */
    method WriteData(data: Content)
      requires curFileNum in disk
      modifies this`disk, this`curOffset
      ensures disk == old(disk)[curFileNum := WriteAt(old(disk)[curFileNum], old(curOffset), data)]
      ensures curOffset == (old(curOffset) + |data|) % 0x1_0000_0000
    {
      disk := disk[curFileNum := WriteAt(disk[curFileNum], curOffset, data)];
      curOffset := (curOffset + |data|) % WORD32;
    }

    /** Moves to the next file when a record of this length would pass the limit or the offset would wrap. */
    method MakeRoom(fullLen: nat)
      requires FilesOk() && fullLen < WORD32
      modifies this`curFileNum, this`curOffset, this`curOpen
      ensures FilesOk()
      ensures Cursor() == if old(curOffset) + fullLen > maxSize then Position(old(curFileNum) + 1, 0) else old(Cursor())
    {
      hide Stored, AtEnd;
      var finalOffset := (curOffset + fullLen) % WORD32;
      NoWrap(curOffset, fullLen, maxSize);
      if finalOffset < curOffset || finalOffset > maxSize {
        NextFileStored(disk, format, log, Cursor());
        curOpen := false;
        curFileNum := curFileNum + 1;
        curOffset := 0;
      }
    }

    /** Writes at the cursor when that is the end of the file. */
    method Append(data: Content)
      requires curFileNum in disk && curOffset == |disk[curFileNum]| && curOffset + |data| < WORD32
      modifies this`disk, this`curOffset
      ensures disk == old(disk)[curFileNum := old(disk)[curFileNum] + data] && curOffset == |disk[curFileNum]|
    {
      hide WriteAt;
      WriteAtEnd(disk[curFileNum], data);
      WriteData(data);
    }

    /** Writes the four parts of a record one after the other. */
    method AppendRecord(raw: Content)
      requires FilesOk() && curOpen && |raw| + OVERHEAD < WORD32 && curOffset + |raw| + OVERHEAD < WORD32
      modifies this`disk, this`curOffset
      ensures disk == old(disk)[curFileNum := old(disk)[curFileNum] + Record(format, raw)]
      ensures curOffset == old(curOffset) + |raw| + OVERHEAD
    {
      hide Stored, LittleEndian, BigEndian32;
      ghost var c := disk[curFileNum];
      var net, len := LittleEndian(format.network, 4), LittleEndian(|raw|, 4);
      Append(net);
      Append(len);
      Append(raw);
      Append(BigEndian32(format.crc(net + len + raw)));
      RecordParts(format, raw, c);
    }

    /**
     Appends a block. Everything stored stays where it is, the new record lies behind all others, a
     new file is begun exactly when the record does not fit in the current one, and the file limit
     is kept exactly when the record fits in a file at all.
     */
    method WriteBlock(raw: Content) returns (loc: Location)
      requires Valid() && |raw| + OVERHEAD < WORD32
      modifies this`disk, this`curFileNum, this`curOffset, this`curOpen, this`log
      ensures Valid()
      ensures log == old(log) + [Entry(loc, raw)]
      ensures loc.length == |raw| + OVERHEAD && EndOf(loc) == Cursor()
      ensures StartOf(loc) == if old(curOffset) + |raw| + OVERHEAD > maxSize
                              then Position(old(curFileNum) + 1, 0) else old(Cursor())
      ensures curOffset <= maxSize <==> |raw| + OVERHEAD <= maxSize
      ensures forall f :: f in old(disk) && f != loc.file ==> f in disk && disk[f] == old(disk)[f]
    {
      hide Stored, AtEnd, Record, Agree, Listed;
      var blockLen := |raw| % WORD32;
      var fullLen := (blockLen + OVERHEAD) % WORD32;
      MakeRoom(fullLen);
      if !curOpen {
        Create();
        curOpen := true;
      }
      ghost var before := disk;
      AppendStored(before, format, log, Cursor(), raw);
      loc := Location(curFileNum, curOffset, fullLen);
      AppendRecord(raw);
      log := log + [Entry(loc, raw)];
    }

    /** Opens the file at the cursor for writing, creating it if needed. */
    method Create()
      requires FilesOk()
      modifies this`disk
      ensures FilesOk() && curFileNum in disk
      ensures disk == if curFileNum in old(disk) then old(disk) else old(disk)[curFileNum := []]
    {
      hide Record;
      if curFileNum !in disk {
        CreateStored(disk, format, log, Cursor());
        disk := disk[curFileNum := []];
      }
    }

    // ----- Open files -----

    /** Takes a file out of the two maps; the caller has to take care of the list. */
    method CloseFile(n: nat)
      modifies this`openFiles, this`lruElems
      ensures openFiles == old(openFiles) - {n}
      ensures lruElems == if n in old(openFiles) then old(lruElems) - {n} else old(lruElems)
    {
      if n in openFiles {
        openFiles := openFiles - {n};
        lruElems := lruElems - {n};
      }
    }

    method OpenFile(n: nat) returns (ok: bool)
      requires Listed(openFiles, lruElems, lru) && n !in openFiles
      modifies this`openFiles, this`lruElems, this`lru
      ensures Listed(openFiles, lruElems, lru)
      ensures old(Agree(openFiles, lruElems, lru)) ==> Agree(openFiles, lruElems, lru)
      ensures ok <==> n in disk
      ensures ok && |old(lru)| < 25 ==> openFiles == old(openFiles) + {n} && lru == [n] + old(lru)
      ensures ok && |old(lru)| >= 25 ==>
                openFiles == old(openFiles) - {old(lru)[|old(lru)| - 1]} + {n} && lru == [n] + old(lru)[..|old(lru)| - 1]
      ensures !ok ==> openFiles == old(openFiles) && lru == old(lru)
    {
      hide Agree, Listed;
      if n !in disk {
        return false;
      }
      ListShort(openFiles, lruElems, lru);
      if |lru| >= MAX_OPEN {
        LastClosed(openFiles, lruElems, lru);
        var last := lru[|lru| - 1];
        lru := lru[..|lru| - 1];
        CloseFile(last);
      }
      Opened(openFiles, lruElems, lru, n);
      lruElems := lruElems + {n};
      lru := [n] + lru;
      openFiles := openFiles + {n};
      return true;
    }

    /** Finds an open file or opens it, and marks it as most recently used. */
    method BlockFile(n: nat) returns (ok: bool)
      requires Listed(openFiles, lruElems, lru) && (curOpen ==> curFileNum in disk)
      requires openFiles <= disk.Keys
      modifies this`openFiles, this`lruElems, this`lru
      ensures Listed(openFiles, lruElems, lru) && openFiles <= disk.Keys
      ensures old(Agree(openFiles, lruElems, lru)) ==> Agree(openFiles, lruElems, lru)
      ensures ok <==> n in disk
      ensures ok && !(n == curFileNum && curOpen) ==> n in openFiles && lru != [] && lru[0] == n
      ensures n == curFileNum && curOpen ==> openFiles == old(openFiles) && lru == old(lru)
      ensures n in old(openFiles) && !(n == curFileNum && curOpen) ==>
                openFiles == old(openFiles) && lru == [n] + Removed(old(lru), n)
    {
      hide Agree, Listed;
      if n == curFileNum && curOpen {
        return true;
      }
      if n in openFiles {
        ToFront(openFiles, lruElems, lru, n);
        lru := [n] + Removed(lru, n);
        return true;
      }
      ok := OpenFile(n);
    }

    // ----- Reading -----

    /** Reads a record and checks it. */
    method ReadBlock(loc: Location) returns (r: Result<Content, ReadError>)
      requires Valid() && loc.length >= OVERHEAD
      modifies this`openFiles, this`lruElems, this`lru
      ensures Valid()
      ensures old(Agree(openFiles, lruElems, lru)) ==> Agree(openFiles, lruElems, lru)
      ensures r == if loc.file in disk && loc.offset + loc.length <= |disk[loc.file]|
                   then Unwrap(format, disk[loc.file][loc.offset..loc.offset + loc.length]) else Err(CannotRead)
      ensures forall i :: 0 <= i < |log| && log[i].loc == loc ==> r == Ok(log[i].block)
    {
      hide Agree, Listed, AtEnd, Unwrap;
      LogReads(disk, format, log, Cursor(), loc);
      var ok := BlockFile(loc.file);
      if !ok {
        return Err(CannotRead);
      }
      if loc.offset + loc.length > |disk[loc.file]| {
        return Err(CannotRead);
      }
      r := Unwrap(format, disk[loc.file][loc.offset..loc.offset + loc.length]);
    }

    /** Reads part of a block, without a check; the position is computed in 32-bit arithmetic. */
    method ReadBlockRegion(loc: Location, offset: nat, numBytes: nat) returns (r: Result<Content, ReadError>)
      requires Valid()
      modifies this`openFiles, this`lruElems, this`lru
      ensures Valid()
      ensures var at := (loc.offset + 8 + offset) % 0x1_0000_0000;
        r == if loc.file in disk && at + numBytes <= |disk[loc.file]|
             then Ok(disk[loc.file][at..at + numBytes]) else Err(CannotRead)
      ensures old(Agree(openFiles, lruElems, lru)) ==> Agree(openFiles, lruElems, lru)
      ensures forall i :: 0 <= i < |log| && log[i].loc == loc && offset + numBytes <= |log[i].block| && EndOf(loc).offset < WORD32 ==>
                r == Ok(log[i].block[offset..offset + numBytes])
    {
      hide Agree, Listed, AtEnd, Record;
      var ok := BlockFile(loc.file);
      var readOffset := (loc.offset + 8 + offset) % WORD32;
      if !ok || readOffset + numBytes > |disk[loc.file]| {
        r := Err(CannotRead);
      } else {
        r := Ok(disk[loc.file][readOffset..readOffset + numBytes]);
      }
      forall i | 0 <= i < |log| && log[i].loc == loc && offset + numBytes <= |log[i].block| && EndOf(loc).offset < WORD32
        ensures r == Ok(log[i].block[offset..offset + numBytes])
      {
        RegionOf(disk, format, log[i], offset, numBytes);
      }
    }

    // ----- Rolling back -----

    /** Deletes a file, unless it is open for reading or missing. */
    method DeleteFile(n: nat) returns (ok: bool)
      modifies this`disk
      ensures ok <==> n !in openFiles && n in old(disk)
      ensures disk == if ok then old(disk) - {n} else old(disk)
    {
      if n in openFiles || n !in disk {
        return false;
      }
      disk := disk - {n};
      return true;
    }

    /** Deletes the files after `file`, from the newest down, until one cannot be deleted. */
    method DeleteNewer(file: nat) returns (ok: bool)
      requires file <= curFileNum && forall f :: f in disk ==> f <= curFileNum
      modifies this`disk, this`curFileNum
      ensures curFileNum == StuckAt(old(disk), openFiles, file, old(curFileNum))
      ensures disk == Upto(old(disk), curFileNum)
      ensures ok <==> curFileNum == file
    {
      UptoAll(disk, curFileNum);
      while curFileNum > file
        invariant file <= curFileNum <= old(curFileNum)
        invariant StuckAt(old(disk), openFiles, file, curFileNum) ==
                  StuckAt(old(disk), openFiles, file, old(curFileNum))
        invariant disk == Upto(old(disk), curFileNum)
        decreases curFileNum
      {
        UptoIn(old(disk), curFileNum);
        ok := DeleteFile(curFileNum);
        if !ok {
          return;
        }
        UptoLess(old(disk), curFileNum);
        curFileNum := curFileNum - 1;
      }
      return true;
    }

    /** Opens the file at the cursor for writing if it is not yet, and cuts it. */
    method CutAt(offset: nat)
      requires curOpen ==> curFileNum in disk
      modifies this`disk, this`curOpen
      ensures curOpen && disk == old(disk)[curFileNum := Truncate(ContentOf(old(disk), curFileNum), offset)]
    {
      hide Truncate;
      if !curOpen {
        if curFileNum !in disk {
          disk := disk[curFileNum := []];
        }
        curOpen := true;
      }
      disk := disk[curFileNum := Truncate(disk[curFileNum], offset)];
    }

    /**
     Goes back to a position: newer files are deleted from the last one down and the file there is
     cut. The cursor ends up there whatever happens, and the log keeps the entries that end by it.
     The files end there too when the newer ones exist and none is open; then the store is sound
     again. Otherwise deleting stops at the first file that is missing or open.
     */
    method HandleRollback(to: Position)
      requires AtEnd(disk, Cursor()) && (curOpen ==> curFileNum in disk) && AtMost(to, Cursor())
      modifies this`disk, this`curFileNum, this`curOffset, this`curOpen, this`log
      ensures Cursor() == to && log == LogUpto(old(log), to)
      ensures to == old(Cursor()) ==> disk == old(disk)
      ensures to != old(Cursor()) && old(Clear(to)) ==> disk == RolledBack(old(disk), to)
      ensures to != old(Cursor()) && !old(Clear(to)) ==>
                && to.file < StuckAt(old(disk), openFiles, to.file, old(curFileNum))
                && disk == Upto(old(disk), StuckAt(old(disk), openFiles, to.file, old(curFileNum)))
      ensures old(Valid()) && (to == old(Cursor()) || old(Clear(to))) && to.offset < WORD32 ==> Valid()
    {
      hide Truncate, Upto, RolledBack, Stored, Listed, LogUpto, AtEnd;
      ghost var before, wasLog, was := disk, log, Cursor();
      ghost var sound := Valid();
      ghost var clear := Clear(to);
      StuckExactly(disk, openFiles, to.file, curFileNum);
      log := LogUpto(log, to);
      if Cursor() == to {
        if sound {
          NothingToCut(before, format, wasLog, to);
        }
        return;
      }
      if curFileNum > to.file {
        curOpen := false;
      }
      LastIsCursor(disk, Cursor());
      var ok := DeleteNewer(to.file);
      if ok {
        UptoIn(before, to.file);
        CutAt(to.offset);
        RolledBackIs(before, to, disk);
        RollbackAtEnd(before, to);
      }
      curFileNum, curOffset := to.file, to.offset;
      if sound && clear {
        RollbackStored(before, format, wasLog, was, to);
        StillOpen(before, to, openFiles, was.file);
      }
    }

    /** Every file after the position exists and none of them is open for reading. */
    predicate Clear(to: Position)
      reads this
    {
      forall f :: to.file < f <= curFileNum ==> f in disk && f !in openFiles
    }

    // ----- Pruning -----

    /**
     Closes a file on its own and deletes it: its entries are gone and all others stay. A file that
     was open stays in the list, so the three structures agree afterwards only if it was not.
     */
    method Prune(n: nat) returns (ok: bool)
      requires Valid() && n < curFileNum
      modifies this`disk, this`openFiles, this`lruElems, this`log
      ensures Valid() && (ok <==> n in old(disk))
      ensures disk == old(disk) - {n} && openFiles == old(openFiles) - {n}
      ensures log == if ok then LogWithout(old(log), n) else old(log)
      ensures old(Agree(openFiles, lruElems, lru)) ==> (Agree(openFiles, lruElems, lru) <==> n !in old(openFiles))
    {
      hide Stored;
      if Agree(openFiles, lruElems, lru) {
        CloseAgrees(openFiles, lruElems, lru, n);
      }
      DeleteStored(disk, format, log, Cursor(), n);
      CloseFile(n);
      ok := DeleteFile(n);
      if ok {
        log := LogWithout(log, n);
      }
    }

    /**
     Any run of writes, reads, prunes and rollbacks keeps the store sound, with at most 25 files
     open for reading. Skipped are records of 4 GiB, locations shorter than a record's overhead,
     prunes of the file at the cursor, and rollbacks past the cursor or past a missing or open file.
     */
    method Perform(steps: seq<StoreStep>)
      requires Valid()
      modifies this
      ensures Valid() && |openFiles| <= 25
    {
      hide Stored, AtEnd, Listed, Agree;
      for i := 0 to |steps|
        invariant Valid()
      {
        match steps[i]
        case Write(raw) =>
          if |raw| + OVERHEAD < WORD32 {
            var _ := WriteBlock(raw);
          }
        case Read(loc) =>
          if loc.length >= OVERHEAD {
            var _ := ReadBlock(loc);
          }
        case Region(loc, offset, n) =>
          var _ := ReadBlockRegion(loc, offset, n);
        case PruneFile(n) =>
          if n < curFileNum {
            var _ := Prune(n);
          }
        case Rollback(to) =>
          if AtMost(to, Cursor()) && to.offset < WORD32 && Clear(to) {
            HandleRollback(to);
          }
      }
      OpenBound(openFiles, lruElems, lru);
    }
  }

  datatype StoreStep =
    | Write(raw: Content)
    | Read(loc: Location)
    | Region(loc: Location, offset: nat, n: nat)
    | PruneFile(file: nat)
    | Rollback(to: Position)

  lemma OpenBound(open: set<nat>, elems: set<nat>, lru: seq<nat>)
    requires Listed(open, elems, lru)
    ensures |open| <= MAX_OPEN
  {
    AtMostListed(open, lru);
  }

  /** Where deleting from the newest file down to `file` stops: at a missing or open file, if there is one. */
  function StuckAt(disk: Disk, open: set<nat>, file: nat, newest: nat): (n: nat)
    requires file <= newest
    ensures file <= n <= newest
    decreases newest
  {
    if newest == file then file
    else if newest in disk && newest !in open then StuckAt(disk, open, file, newest - 1)
    else newest
  }

  lemma {:induction false} StuckExactly(disk: Disk, open: set<nat>, file: nat, newest: nat)
    requires file <= newest
    ensures StuckAt(disk, open, file, newest) == file <==>
            forall f :: file < f <= newest ==> f in disk && f !in open
    decreases newest
  {
    if newest > file {
      StuckExactly(disk, open, file, newest - 1);
    }
  }

  lemma LastIsCursor(disk: Disk, cursor: Position)
    requires AtEnd(disk, cursor)
    ensures forall f :: f in disk ==> f <= cursor.file
  {
  }

  lemma NothingToCut(disk: Disk, f: Format, log: seq<Entry>, to: Position)
    requires Stored(disk, f, log, to)
    ensures Stored(disk, f, LogUpto(log, to), to)
  {
    hide Holds;
    LogUptoAll(log, to);
  }

  /** Open files survive a rollback that no open file stands in the way of. */
  lemma StillOpen(disk: Disk, to: Position, open: set<nat>, newest: nat)
    requires open <= disk.Keys && (forall f :: f in disk ==> f <= newest)
    requires forall f :: to.file < f <= newest ==> f !in open
    ensures open <= RolledBack(disk, to).Keys && to.file in RolledBack(disk, to)
  {
    hide Truncate;
  }

  /** The files numbered up to `n`. */
  function Upto(disk: Disk, n: nat): Disk {
    map f | f in disk && f <= n :: disk[f]
  }

  lemma UptoAll(disk: Disk, n: nat)
    requires forall f :: f in disk ==> f <= n
    ensures Upto(disk, n) == disk
  {
  }

  lemma UptoLess(disk: Disk, n: nat)
    requires n > 0
    ensures Upto(disk, n) - {n} == Upto(disk, n - 1)
  {
  }

  lemma UptoIn(disk: Disk, n: nat)
    ensures n in Upto(disk, n) <==> n in disk
    ensures n in disk ==> Upto(disk, n)[n] == disk[n]
  {
  }

  lemma RolledBackIs(disk: Disk, to: Position, after: Disk)
    requires var upto := Upto(disk, to.file); after == upto[to.file := Truncate(ContentOf(upto, to.file), to.offset)]
    ensures after == RolledBack(disk, to)
  {
    hide Truncate;
  }

  lemma ListShort(open: set<nat>, elems: set<nat>, lru: seq<nat>)
    requires Listed(open, elems, lru)
    ensures |lru| <= MAX_OPEN && open == elems
  {
  }

  /** Reading the location of a logged block gives the block. */
  lemma LogReads(disk: Disk, f: Format, log: seq<Entry>, cursor: Position, loc: Location)
    requires Stored(disk, f, log, cursor)
    ensures forall i :: 0 <= i < |log| && log[i].loc == loc ==>
              && loc.file in disk && loc.offset + loc.length <= |disk[loc.file]| && loc.length >= OVERHEAD
              && Unwrap(f, disk[loc.file][loc.offset..loc.offset + loc.length]) == Ok(log[i].block)
  {
    hide Unwrap, Record;
    forall i | 0 <= i < |log| && log[i].loc == loc
      ensures && loc.file in disk && loc.offset + loc.length <= |disk[loc.file]| && loc.length >= OVERHEAD
              && Unwrap(f, disk[loc.file][loc.offset..loc.offset + loc.length]) == Ok(log[i].block)
    {
      assert Holds(disk, f, log[i]);
      UnwrapRecord(f, log[i].block);
    }
  }

  /** A region of a stored block is the same region of its record, eight bytes further on. */
  lemma RegionOf(disk: Disk, f: Format, e: Entry, offset: nat, n: nat)
    requires Holds(disk, f, e) && offset + n <= |e.block| && EndOf(e.loc).offset < WORD32
    ensures var at := (e.loc.offset + 8 + offset) % WORD32;
      && at + n <= |disk[e.loc.file]| && disk[e.loc.file][at..at + n] == e.block[offset..offset + n]
  {
    hide Record;
    var l, c := e.loc, disk[e.loc.file];
    var at := l.offset + 8 + offset;
    Within(c, l.offset, l.length, 8 + offset, n);
    BlockInRecord(f, e.block);
    Within(Record(f, e.block), 8, |e.block|, offset, n);
  }

  /** A slice of a slice is a slice. */
  lemma Within(c: Content, start: nat, len: nat, from: nat, n: nat)
    requires start + len <= |c| && from + n <= len
    ensures c[start..start + len][from..from + n] == c[start + from..start + from + n]
  {
    var part := c[start..start + len];
    var x, y := part[from..from + n], c[start + from..start + from + n];
    assert |x| == |y|;
    forall k | 0 <= k < n
      ensures x[k] == y[k]
    {
      assert x[k] == part[from + k] == c[start + (from + k)];
    }
  }

  lemma BlockInRecord(f: Format, block: Content)
    ensures Record(f, block)[8..8 + |block|] == block
  {
    hide LittleEndian, BigEndian32;
    var head, sum := LittleEndian(f.network, 4) + LittleEndian(|block|, 4), BigEndian32(f.crc(Covered(f, block)));
    assert Record(f, block) == head + block + sum;
    assert (head + block + sum)[8..8 + |block|] == block;
  }

  lemma CreateStored(disk: Disk, f: Format, log: seq<Entry>, cursor: Position)
    requires Stored(disk, f, log, cursor) && AtEnd(disk, cursor) && cursor.file !in disk
    ensures Stored(disk[cursor.file := []], f, log, cursor) && AtEnd(disk[cursor.file := []], cursor)
  {
    hide Record;
    var after := disk[cursor.file := []];
    forall i | 0 <= i < |log|
      ensures Holds(after, f, log[i])
    {
      assert Holds(disk, f, log[i]);
    }
  }

  lemma NoWrap(offset: nat, n: nat, limit: nat)
    requires offset < WORD32 && n < WORD32 && limit < WORD32
    ensures var final := (offset + n) % WORD32;
      final < offset || final > limit <==> offset + n > limit
  {
  }

  lemma RecordParts(f: Format, raw: Content, c: Content)
    ensures c + LittleEndian(f.network, 4) + LittleEndian(|raw|, 4) + raw
              + BigEndian32(f.crc(LittleEndian(f.network, 4) + LittleEndian(|raw|, 4) + raw))
         == c + Record(f, raw)
  {
    hide LittleEndian, BigEndian32;
    var net, len := LittleEndian(f.network, 4), LittleEndian(|raw|, 4);
    Regroup(c, net, len, raw, BigEndian32(f.crc(net + len + raw)));
  }

  lemma Regroup(c: Content, a: Content, b: Content, d: Content, e: Content)
    ensures c + a + b + d + e == c + ((a + b + d) + e)
  {
    assert c + a + b + d == c + (a + b + d);
  }
}
