/**
 Flat block files: the bytes of a block record, writing and truncating file contents, and what it
 means for a log of records to be stored.
 */
module BlockFiles {
  import opened Wrappers
  import opened Bytes

  const OVERHEAD: nat := 12

  type Content = seq<Byte>

  type Disk = map<nat, Content>

  /** The content after writing at an offset; a gap beyond the end reads as zeros. */
  function WriteAt(c: Content, offset: nat, data: Content): Content {
    var base := if offset <= |c| then c else c + ZeroBytes(offset - |c|);
    base[..offset] + data + (if offset + |data| <= |c| then c[offset + |data|..] else [])
  }

  /** The content cut or extended with zeros to a length. */
  function Truncate(c: Content, n: nat): (r: Content)
    ensures |r| == n
  {
    if n <= |c| then c[..n] else c + ZeroBytes(n - |c|)
  }

  /** Only the written range changes, and a gap before it is filled with zeros. */
  lemma WriteAtReads(c: Content, offset: nat, data: Content)
    ensures var w := WriteAt(c, offset, data);
      && |w| == (if offset + |data| <= |c| then |c| else offset + |data|)
      && forall i :: 0 <= i < |w| ==>
           w[i] == if offset <= i < offset + |data| then data[i - offset] else if i < |c| then c[i] else 0
  {
  }

  lemma WriteAtEnd(c: Content, data: Content)
    ensures WriteAt(c, |c|, data) == c + data
  {
  }

  function Backwards(bs: Content): (r: Content)
    requires |bs| == 4
    ensures |r| == 4
  {
    [bs[3], bs[2], bs[1], bs[0]]
  }

  /** Four bytes, most significant first. */
  function BigEndian32(x: U32): (bs: Content)
    ensures |bs| == 4
  {
    Backwards(LittleEndian(x, 4))
  }

  function FromBigEndian32(bs: Content): U32
    requires |bs| == 4
  {
    Uint32(Backwards(bs))
  }

  lemma BigEndianRoundTrip(x: U32)
    ensures FromBigEndian32(BigEndian32(x)) == x
  {
    hide LittleEndian, Uint32;
    assert Backwards(Backwards(LittleEndian(x, 4))) == LittleEndian(x, 4);
    Uint32RoundTrip(x);
  }

  // ----- Records -----

  datatype Location = Location(file: nat, offset: nat, length: nat)

  datatype Entry = Entry(loc: Location, block: Content)

  datatype Format = Format(network: U32, crc: Content -> U32)

  /** Network, length and block: what the checksum covers. */
  function Covered(f: Format, block: Content): (bs: Content)
    ensures |bs| == |block| + 8
  {
    LittleEndian(f.network, 4) + LittleEndian(|block|, 4) + block
  }

  function Record(f: Format, block: Content): (bs: Content)
    ensures |bs| == |block| + OVERHEAD
  {
    Covered(f, block) + BigEndian32(f.crc(Covered(f, block)))
  }

  datatype ReadError = CannotRead | Corrupt | WrongNetwork

  /** What reading makes of the bytes of a record. */
  function Unwrap(f: Format, bs: Content): Result<Content, ReadError>
    requires |bs| >= OVERHEAD
  {
    var n := |bs|;
    if FromBigEndian32(bs[n - 4..]) != f.crc(bs[..n - 4]) then Err(Corrupt)
    else if Uint32(bs[..4]) != f.network then Err(WrongNetwork)
    else Ok(bs[8..n - 4])
  }

  lemma UnwrapRecord(f: Format, block: Content)
    ensures Unwrap(f, Record(f, block)) == Ok(block)
  {
    hide LittleEndian, Uint32, BigEndian32, FromBigEndian32;
    var c, r := Covered(f, block), Record(f, block);
    var n := |r|;
    assert r[..n - 4] == c && r[n - 4..] == BigEndian32(f.crc(c));
    BigEndianRoundTrip(f.crc(c));
    assert r[..4] == LittleEndian(f.network, 4);
    Uint32RoundTrip(f.network);
    assert r[8..n - 4] == c[8..] == block;
  }

  // ----- Stored logs -----

  predicate Holds(disk: Disk, f: Format, e: Entry) {
    && e.loc.file in disk
    && e.loc.length == |e.block| + OVERHEAD
    && e.loc.offset + e.loc.length <= |disk[e.loc.file]|
    && disk[e.loc.file][e.loc.offset..e.loc.offset + e.loc.length] == Record(f, e.block)
  }

  /** A position in the files, a file number and an offset. */
  datatype Position = Position(file: nat, offset: nat)

  predicate AtMost(p: Position, q: Position) {
    p.file < q.file || (p.file == q.file && p.offset <= q.offset)
  }

  function StartOf(l: Location): Position {
    Position(l.file, l.offset)
  }

  function EndOf(l: Location): Position {
    Position(l.file, l.offset + l.length)
  }

  /** Every entry is on disk, and ends before the next begins and before the cursor. */
  ghost predicate Stored(disk: Disk, f: Format, log: seq<Entry>, cursor: Position) {
    && (forall i :: 0 <= i < |log| ==>
          Holds(disk, f, log[i]) && AtMost(EndOf(log[i].loc), cursor))
    && (forall i, j :: 0 <= i < j < |log| ==> AtMost(EndOf(log[i].loc), StartOf(log[j].loc)))
  }

  /** The cursor is at the end of the last file. */
  predicate AtEnd(disk: Disk, cursor: Position) {
    && (forall f :: f in disk ==> f <= cursor.file)
    && cursor.offset == if cursor.file in disk then |disk[cursor.file]| else 0
  }

  function ContentOf(disk: Disk, file: nat): Content {
    if file in disk then disk[file] else []
  }

  /** Appending a record at the end keeps everything stored and stores the new entry. */
  lemma AppendStored(disk: Disk, f: Format, log: seq<Entry>, cursor: Position, block: Content)
    requires Stored(disk, f, log, cursor) && AtEnd(disk, cursor)
    ensures var loc := Location(cursor.file, cursor.offset, |block| + OVERHEAD);
      var after := disk[cursor.file := ContentOf(disk, cursor.file) + Record(f, block)];
      && Stored(after, f, log + [Entry(loc, block)], EndOf(loc))
      && AtEnd(after, EndOf(loc))
  {
    hide Record;
    var was, rec := ContentOf(disk, cursor.file), Record(f, block);
    var loc := Location(cursor.file, cursor.offset, |block| + OVERHEAD);
    var after := disk[cursor.file := was + rec];
    forall i | 0 <= i < |log|
      ensures Holds(after, f, log[i])
    {
      var l := log[i].loc;
      if l.file == cursor.file {
        assert (was + rec)[l.offset..l.offset + l.length] == was[l.offset..l.offset + l.length];
      }
    }
    assert (was + rec)[|was|..|was| + |rec|] == rec;
    assert Holds(after, f, Entry(loc, block));
  }

  /** Moving on to the next file changes nothing that is stored. */
  lemma NextFileStored(disk: Disk, f: Format, log: seq<Entry>, cursor: Position)
    requires Stored(disk, f, log, cursor) && AtEnd(disk, cursor)
    ensures var next := Position(cursor.file + 1, 0); Stored(disk, f, log, next) && AtEnd(disk, next)
  {
    hide Record, Holds;
  }

  // ----- Going back -----

  /** The files after going back to a position: newer files are gone and the file there is cut. */
  function RolledBack(disk: Disk, to: Position): Disk {
    (map f | f in disk && f < to.file :: disk[f])[to.file := Truncate(ContentOf(disk, to.file), to.offset)]
  }

  /** The entries that end before a position survive going back to it. */
  lemma RollbackKeeps(disk: Disk, f: Format, e: Entry, to: Position)
    requires Holds(disk, f, e) && AtMost(EndOf(e.loc), to)
    ensures Holds(RolledBack(disk, to), f, e)
  {
    hide Record;
    var l := e.loc;
    if l.file == to.file {
      var c := disk[to.file];
      assert Truncate(c, to.offset)[l.offset..l.offset + l.length] == c[l.offset..l.offset + l.length];
    }
  }

  lemma RollbackAtEnd(disk: Disk, to: Position)
    ensures AtEnd(RolledBack(disk, to), to)
    ensures to.file in disk && to.offset <= |disk[to.file]| ==>
              RolledBack(disk, to)[to.file] == disk[to.file][..to.offset]
  {
  }

  // ----- What is left of a log -----

  /** The entries that end by a position. */
  function LogUpto(log: seq<Entry>, to: Position): (kept: seq<Entry>)
    ensures kept <= log
    ensures forall i :: 0 <= i < |kept| ==> AtMost(EndOf(kept[i].loc), to)
    decreases |log|
  {
    if log == [] || !AtMost(EndOf(log[0].loc), to) then [] else [log[0]] + LogUpto(log[1..], to)
  }

  /** In a stored log the entries beyond a position are the last ones: none ending by it is lost. */
  lemma {:induction false} LogUptoAll(log: seq<Entry>, to: Position)
    requires forall i, j :: 0 <= i < j < |log| ==> AtMost(EndOf(log[i].loc), StartOf(log[j].loc))
    ensures forall i :: |LogUpto(log, to)| <= i < |log| ==> !AtMost(EndOf(log[i].loc), to)
    decreases |log|
  {
    if log != [] && AtMost(EndOf(log[0].loc), to) {
      LogUptoAll(log[1..], to);
    }
  }

  /** The entries that are not in a file. */
  function LogWithout(log: seq<Entry>, file: nat): seq<Entry>
    decreases |log|
  {
    if log == [] then []
    else (if log[0].loc.file == file then [] else [log[0]]) + LogWithout(log[1..], file)
  }

  lemma {:induction false} LogWithoutMembers(log: seq<Entry>, file: nat, e: Entry)
    ensures e in LogWithout(log, file) <==> e in log && e.loc.file != file
    decreases |log|
  {
    if log != [] {
      LogWithoutMembers(log[1..], file, e);
      assert e in log <==> e == log[0] || e in log[1..];
    }
  }

  /** Deleting a file leaves the entries of the others stored. */
  lemma {:induction false} DeleteStored(disk: Disk, f: Format, log: seq<Entry>, cursor: Position, file: nat)
    requires Stored(disk, f, log, cursor)
    ensures Stored(disk - {file}, f, LogWithout(log, file), cursor)
    decreases |log|
  {
    hide Record;
    if log != [] {
      var rest := LogWithout(log[1..], file);
      assert Stored(disk, f, log[1..], cursor);
      DeleteStored(disk, f, log[1..], cursor, file);
      if log[0].loc.file != file {
        forall j | 0 <= j < |rest|
          ensures AtMost(EndOf(log[0].loc), StartOf(rest[j].loc))
        {
          LogWithoutMembers(log[1..], file, rest[j]);
          assert rest[j] in log[1..];
        }
        assert Holds(disk, f, log[0]);
        StoredCons(disk - {file}, f, log[0], rest, cursor);
      }
    }
  }

  lemma StoredCons(disk: Disk, f: Format, e: Entry, log: seq<Entry>, cursor: Position)
    requires Holds(disk, f, e) && AtMost(EndOf(e.loc), cursor) && Stored(disk, f, log, cursor)
    requires forall j :: 0 <= j < |log| ==> AtMost(EndOf(e.loc), StartOf(log[j].loc))
    ensures Stored(disk, f, [e] + log, cursor)
  {
    hide Holds;
    var all := [e] + log;
    forall i | 0 <= i < |all|
      ensures Holds(disk, f, all[i]) && AtMost(EndOf(all[i].loc), cursor)
    {
      if i > 0 {
        assert all[i] == log[i - 1];
      }
    }
  }

  /** Going back to a position leaves the entries that end by it stored, and the cursor at the end. */
  lemma RollbackStored(disk: Disk, f: Format, log: seq<Entry>, cursor: Position, to: Position)
    requires Stored(disk, f, log, cursor)
    ensures Stored(RolledBack(disk, to), f, LogUpto(log, to), to)
  {
    hide Holds, RolledBack;
    var kept := LogUpto(log, to);
    forall i | 0 <= i < |kept|
      ensures Holds(RolledBack(disk, to), f, kept[i])
    {
      assert Holds(disk, f, log[i]);
      RollbackKeeps(disk, f, log[i], to);
    }
  }
}
