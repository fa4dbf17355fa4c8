/**
 The database iterator: a cursor over the database and one over the pending entries, moved in
 step so that together they walk the overlay.
 */
module DbIterator {
  import opened DirectionChange
  import opened KeyOrder
  import opened MergedView
  import opened Sequences
  import opened Wrappers

  /** A sorted sequence of entries and a position in it, possibly off either end. */
  class Cursor {
    const entries: seq<Entry>
    var pos: int

    ghost predicate Valid()
      reads this
    {
      -1 <= pos <= |entries|
    }

    predicate Inside()
      reads this
    {
      0 <= pos < |entries|
    }

    function Current(): Entry
      reads this
      requires Inside()
    {
      entries[pos]
    }

    constructor (entries: seq<Entry>)
      ensures this.entries == entries && pos == -1
    {
      this.entries := entries;
      pos := -1;
    }

    method Start(forwards: bool)
      modifies this
      ensures Valid() && pos == if forwards then 0 else |entries| - 1
    {
      pos := if forwards then 0 else |entries| - 1;
    }

    method Step(forwards: bool)
      requires Inside()
      modifies this
      ensures Valid() && pos == Advance(forwards, old(pos))
    {
      pos := Advance(forwards, pos);
    }

    method Seek(key: Key)
      modifies this
      ensures Valid() && 0 <= pos
      ensures forall i :: 0 <= i < pos ==> Less(entries[i].key, key)
      ensures Inside() ==> !Less(Current().key, key)
    {
      pos := 0;
      while pos < |entries| && Less(entries[pos].key, key)
        invariant 0 <= pos <= |entries|
        invariant forall i :: 0 <= i < pos ==> Less(entries[i].key, key)
        decreases |entries| - pos
      {
        pos := pos + 1;
      }
    }
  }

  datatype Source = Nowhere | Database | Cache

  class Iterator {
    const db: Cursor
    const cache: Cursor
    const removed: set<Key>
    const pending: set<Key>
    var current: Source

    ghost predicate Valid()
      reads this, db, cache
    {
      db != cache && db.Valid() && cache.Valid()
    }

    function Hidden(): set<Key> {
      removed + pending
    }

    constructor (db: Cursor, cache: Cursor, removed: set<Key>, pending: set<Key>)
      requires db != cache && db.Valid() && cache.Valid()
      ensures this.db == db && this.cache == cache && this.removed == removed && this.pending == pending
      ensures Valid() && current == Nowhere
    {
      this.db, this.cache, this.removed, this.pending := db, cache, removed, pending;
      current := Nowhere;
    }

    /** What the database cursor will still contribute. */
    ghost function DbAhead(forwards: bool): seq<Entry>
      reads this, db, cache
      requires Valid()
    {
      Kept(Ahead(forwards, db.entries, db.pos), Hidden())
    }

    ghost function CacheAhead(forwards: bool): seq<Entry>
      reads this, db, cache
      requires Valid()
    {
      Ahead(forwards, cache.entries, cache.pos)
    }

    /** The entries that further moves in this direction visit, the current one first. */
    ghost function Remaining(forwards: bool): seq<Entry>
      reads this, db, cache
      requires Valid()
    {
      Merge(forwards, DbAhead(forwards), CacheAhead(forwards))
    }

    /** The database cursor is not at a key that a pending change hides. */
    ghost predicate Skipped()
      reads this, db
    {
      db.Inside() ==> db.Current().key !in Hidden()
    }

    /** The current cursor is the one whose entry comes first in this direction. */
    ghost predicate Chosen(forwards: bool)
      reads this, db, cache
    {
      match current
      case Nowhere => !db.Inside() && !cache.Inside()
      case Database => db.Inside() && (cache.Inside() ==> !Before(forwards, cache.Current().key, db.Current().key))
      case Cache => cache.Inside() && (db.Inside() ==> Before(forwards, cache.Current().key, db.Current().key))
    }

    ghost predicate Positioned(forwards: bool)
      reads this, db, cache
    {
      Skipped() && Chosen(forwards)
    }

    predicate Exists()
      reads this
    {
      current != Nowhere
    }

    function Entry(): Entry
      reads this, db, cache
      requires current == Database ==> db.Inside()
      requires current == Cache ==> cache.Inside()
      requires Exists()
    {
      if current == Database then db.Current() else cache.Current()
    }

    lemma HeadOfKept(forwards: bool)
      requires Valid() && Skipped()
      ensures db.Inside() ==> DbAhead(forwards) != [] && DbAhead(forwards)[0] == db.Current()
      ensures !db.Inside() ==> DbAhead(forwards) == []
    {
      AheadStep(forwards, db.entries, db.pos);
    }

    lemma HeadOfCache(forwards: bool)
      requires Valid()
      ensures cache.Inside() ==> CacheAhead(forwards) != [] && CacheAhead(forwards)[0] == cache.Current()
      ensures !cache.Inside() ==> CacheAhead(forwards) == []
    {
      AheadStep(forwards, cache.entries, cache.pos);
    }

    /** The current entry is the first of those that remain. */
    lemma CurrentIsFirst(forwards: bool)
      requires Valid() && Positioned(forwards)
      ensures Exists() <==> Remaining(forwards) != []
      ensures Exists() ==> Entry() == Remaining(forwards)[0]
    {
      hide Before;
      HeadOfKept(forwards);
      HeadOfCache(forwards);
    }

    ghost predicate DbReached(forwards: bool)
      reads db
    {
      Reached(forwards, db.entries, db.pos)
    }

    ghost predicate CacheReached(forwards: bool)
      reads cache
    {
      Reached(forwards, cache.entries, cache.pos)
    }

    /** The visible entries that the database cursor has gone past, the nearest first. */
    ghost function DbBehind(forwards: bool): seq<Entry>
      reads db
      requires DbReached(forwards)
    {
      Kept(Behind(forwards, db.entries, db.pos), Hidden())
    }

    ghost function CacheBehind(forwards: bool): seq<Entry>
      reads cache
      requires CacheReached(forwards)
    {
      Behind(forwards, cache.entries, cache.pos)
    }

    method SkipPendingUpdates(forwards: bool)
      requires Valid()
      modifies db
      ensures Valid() && Skipped()
      ensures DbAhead(forwards) == old(DbAhead(forwards))
      ensures old(Skipped()) ==> db.pos == old(db.pos)
      ensures old(DbReached(forwards)) ==> DbReached(forwards) && DbBehind(forwards) == old(DbBehind(forwards))
    {
      while db.Inside() && db.Current().key in Hidden()
        invariant Valid()
        invariant old(Skipped()) ==> db.pos == old(db.pos)
        invariant old(DbReached(forwards)) ==> DbReached(forwards) && DbBehind(forwards) == old(DbBehind(forwards))
        invariant DbAhead(forwards) == old(DbAhead(forwards))
        decreases if forwards then |db.entries| - db.pos else db.pos + 1
      {
        AheadStep(forwards, db.entries, db.pos);
        BehindStep(forwards, db.entries, db.pos);
        db.Step(forwards);
      }
    }

    method ChooseIterator(forwards: bool) returns (found: bool)
      requires Valid()
      modifies this, db
      ensures Valid() && Positioned(forwards) && found == Exists()
      ensures Remaining(forwards) == old(Remaining(forwards))
      ensures old(Skipped()) ==> db.pos == old(db.pos)
      ensures old(DbReached(forwards)) ==> DbReached(forwards) && DbBehind(forwards) == old(DbBehind(forwards))
    {
      SkipPendingUpdates(forwards);
      if !db.Inside() && !cache.Inside() {
        current := Nowhere;
        return false;
      }
      if !cache.Inside() {
        current := Database;
        return true;
      }
      if !db.Inside() {
        current := Cache;
        return true;
      }
      current := if Before(forwards, cache.Current().key, db.Current().key) then Cache else Database;
      return true;
    }

    /** The cursor that gives the current entry is on one. */
    ghost predicate Settled()
      reads this, db, cache
    {
      (current == Database ==> db.Inside()) && (current == Cache ==> cache.Inside())
    }

    /** Everything there is to visit in this direction. */
    ghost function Everything(forwards: bool): seq<Entry> {
      Merge(forwards, Kept(Whole(forwards, db.entries), Hidden()), Whole(forwards, cache.entries))
    }

    method Begin(forwards: bool) returns (found: bool)
      requires Valid()
      modifies this, db, cache
      ensures Valid() && Settled() && Positioned(forwards) && found == Exists()
      ensures Remaining(forwards) == Everything(forwards) && Came(forwards)
    {
      hide Merge, Before, Ahead, Behind, Whole;
      db.Start(forwards);
      cache.Start(forwards);
      NothingBehind(forwards, db.entries);
      NothingBehind(forwards, cache.entries);
      AheadOfStart(forwards, db.entries);
      AheadOfStart(forwards, cache.entries);
      found := ChooseIterator(forwards);
    }

    method First() returns (found: bool)
      requires Valid()
      modifies this, db, cache
      ensures Valid() && Settled() && Positioned(true) && found == Exists()
      ensures Remaining(true) == Everything(true) && Came(true)
    {
      found := Begin(true);
    }

    method Last() returns (found: bool)
      requires Valid()
      modifies this, db, cache
      ensures Valid() && Settled() && Positioned(false) && found == Exists()
      ensures Remaining(false) == Everything(false) && Came(false)
    {
      found := Begin(false);
    }

    method Seek(key: Key) returns (found: bool)
      requires Valid()
      modifies this, db, cache
      ensures Valid() && Settled() && Positioned(true) && found == Exists()
      ensures Remaining(true) == Merge(true, Kept(From(db.entries, key), Hidden()), From(cache.entries, key))
      ensures Sound() ==> Came(true)
    {
      db.Seek(key);
      cache.Seek(key);
      FromIsSuffix(db.entries, key, db.pos);
      FromIsSuffix(cache.entries, key, cache.pos);
      ghost var dbAt := db.pos;
      found := ChooseIterator(true);
      if Sound() && found {
        SoughtFound(key);
        SoughtBehind(db.entries, dbAt, key, Entry().key);
        SoughtBehind(cache.entries, cache.pos, key, Entry().key);
        KeptAfter(false, Entry().key, Behind(true, db.entries, dbAt), Hidden());
      }
    }

    lemma SoughtFound(key: Key)
      requires Valid() && Sound() && Positioned(true) && Exists()
      requires Remaining(true) == Merge(true, Kept(From(db.entries, key), Hidden()), From(cache.entries, key))
      ensures !Less(Entry().key, key)
    {
      hide Less, Before, Merge, Kept, From, Sorted;
      CurrentIsFirst(true);
      MergeMembers(true, Kept(From(db.entries, key), Hidden()), From(cache.entries, key), Entry());
      KeptMembers(From(db.entries, key), Hidden(), Entry());
      FromMembers(db.entries, key, Entry());
      FromMembers(cache.entries, key, Entry());
    }

    /** What further moves visit once the current cursor has moved in this direction. */
    ghost function Moved(forwards: bool): seq<Entry>
      reads this, db, cache
      requires Valid() && Settled() && Exists()
    {
      if current == Database
      then Merge(forwards, Kept(Ahead(forwards, db.entries, Advance(forwards, db.pos)), Hidden()), CacheAhead(forwards))
      else Merge(forwards, DbAhead(forwards), Ahead(forwards, cache.entries, Advance(forwards, cache.pos)))
    }

    /** Moving the current cursor drops the first of the remaining entries. */
    lemma DropsFirst(forwards: bool)
      requires Valid() && Positioned(forwards) && Exists()
      ensures Remaining(forwards) == [Entry()] + Moved(forwards)
    {
      hide Before;
      AheadStep(forwards, db.entries, db.pos);
      AheadStep(forwards, cache.entries, cache.pos);
    }

    /** Both cursors are sorted and the cache cursor walks pending keys. */
    ghost predicate Sound() {
      && Sorted(true, db.entries) && Sorted(true, cache.entries)
      && (forall e :: e in cache.entries ==> e.key in pending)
    }

    /**
     The state left by moves in this direction: what the cursors have gone past comes, in this
     direction, before the current entry.
     */
    ghost predicate Came(forwards: bool)
      reads this, db, cache
    {
      && DbReached(forwards) && CacheReached(forwards) && Positioned(forwards)
      && (Exists() ==> Beyond(forwards, Entry().key))
    }

    ghost predicate Beyond(forwards: bool, key: Key)
      reads db, cache
      requires DbReached(forwards) && CacheReached(forwards)
    {
      AllAfter(!forwards, key, DbBehind(forwards)) && AllAfter(!forwards, key, CacheBehind(forwards))
    }

    /** The entries of the overlay already gone past, the nearest first. */
    ghost function Passed(forwards: bool): seq<Entry>
      reads db, cache
      requires DbReached(forwards) && CacheReached(forwards)
    {
      Merge(!forwards, DbBehind(forwards), CacheBehind(forwards))
    }

    /**
     Turning round works: the other cursor has run out, and either its source has nothing visible
     or the current source's own previous entry is nearer. Once both have run out there is no
     current entry, and nothing may be left to go back to.
     */
    ghost predicate TurnsWell(forwards: bool)
      reads this, db, cache
      requires DbReached(forwards) && CacheReached(forwards)
    {
      match current
      case Nowhere => DbBehind(forwards) == [] && CacheBehind(forwards) == []
      case Database => !cache.Inside() && Leads(!forwards, DbBehind(forwards), CacheBehind(forwards))
      case Cache => !db.Inside() && Leads(!forwards, CacheBehind(forwards), DbBehind(forwards))
    }

    /** The current entry is this one, or there is neither. */
    ghost predicate At(entry: Option<Entry>)
      reads this, db, cache
      requires Settled()
    {
      if Exists() then entry == Some(Entry()) else entry == None
    }

    lemma CacheKeysHidden(es: seq<Entry>)
      requires Sound() && forall e :: e in es ==> e in cache.entries
      ensures forall e :: e in es ==> e.key in Hidden()
    {
    }

    lemma RemainingSorted(forwards: bool)
      requires Valid() && Sound()
      ensures Sorted(forwards, Remaining(forwards))
    {
      hide Before, Merge, Kept, Sorted, Ahead;
      AheadSorted(forwards, db.entries, db.pos);
      AheadSorted(forwards, cache.entries, cache.pos);
      KeptSorted(forwards, Ahead(forwards, db.entries, db.pos), Hidden());
      AheadMembers(forwards, cache.entries, cache.pos);
      CacheKeysHidden(CacheAhead(forwards));
      KeptApart(Ahead(forwards, db.entries, db.pos), Hidden(), CacheAhead(forwards));
      MergeSorted(forwards, DbAhead(forwards), CacheAhead(forwards));
    }

    /** Having gone past one more entry, the iterator is still beyond all it has gone past. */
    lemma StillBeyond(forwards: bool, passed: Entry, before: seq<Entry>, dbBehind: seq<Entry>, cacheBehind: seq<Entry>)
      requires Valid() && Settled() && Positioned(forwards) && DbReached(forwards) && CacheReached(forwards)
      requires Sorted(forwards, before) && before == [passed] + Remaining(forwards)
      requires AllAfter(!forwards, passed.key, dbBehind) && AllAfter(!forwards, passed.key, cacheBehind)
      requires DbBehind(forwards) == dbBehind || DbBehind(forwards) == [passed] + dbBehind
      requires CacheBehind(forwards) == cacheBehind || CacheBehind(forwards) == [passed] + cacheBehind
      ensures Came(forwards)
    {
      hide Before, Merge, Kept, AllAfter, DbBehind, CacheBehind, Remaining, Ahead;
      CurrentIsFirst(forwards);
      if Exists() {
        assert before[0] == passed && before[1] == Entry();
        AfterPassing(!forwards, Entry().key, passed, dbBehind);
        AfterPassing(!forwards, Entry().key, passed, cacheBehind);
      }
    }

    /** The current cursor, moved one entry, has that entry behind it. */
    lemma PassesCurrent(forwards: bool)
      requires Valid() && Settled() && Exists() && Skipped() && DbReached(forwards) && CacheReached(forwards)
      ensures current == Database ==>
                && Reached(forwards, db.entries, Advance(forwards, db.pos))
                && Kept(Behind(forwards, db.entries, Advance(forwards, db.pos)), Hidden()) ==
                   [Entry()] + DbBehind(forwards)
      ensures current == Cache ==>
                && Reached(forwards, cache.entries, Advance(forwards, cache.pos))
                && Behind(forwards, cache.entries, Advance(forwards, cache.pos)) == [Entry()] + CacheBehind(forwards)
    {
      hide Behind;
      if current == Database {
        BehindStep(forwards, db.entries, db.pos);
      } else {
        BehindStep(forwards, cache.entries, cache.pos);
      }
    }

    lemma BehindApart(forwards: bool)
      requires Valid() && Sound() && DbReached(forwards) && CacheReached(forwards)
      ensures KeysApart(DbBehind(forwards), CacheBehind(forwards))
      ensures KeysApart(DbBehind(forwards), CacheAhead(!forwards))
      ensures KeysApart(DbAhead(!forwards), CacheBehind(forwards))
    {
      hide Kept, Ahead, KeysApart;
      AheadMembers(!forwards, cache.entries, cache.pos);
      AheadMembers(!forwards, cache.entries, Advance(!forwards, cache.pos));
      CacheKeysHidden(CacheAhead(!forwards));
      CacheKeysHidden(CacheBehind(forwards));
      KeptApart(Behind(forwards, db.entries, db.pos), Hidden(), CacheBehind(forwards));
      KeptApart(Behind(forwards, db.entries, db.pos), Hidden(), CacheAhead(!forwards));
      KeptApart(Ahead(!forwards, db.entries, db.pos), Hidden(), CacheBehind(forwards));
    }

    /** The cursor that is not current is beyond the current entry. */
    lemma OtherBeyond(forwards: bool)
      requires Valid() && Sound() && Positioned(forwards) && db.Inside() && cache.Inside()
      ensures current == Database ==> Before(!forwards, cache.Current().key, db.Current().key)
      ensures current == Cache ==> Before(!forwards, db.Current().key, cache.Current().key)
    {
      hide Before;
      var d, c := db.Current(), cache.Current();
      assert c in cache.entries;
      BeforeOrder(forwards, d.key, c.key, d.key);
      Opposite(forwards, c.key, d.key);
      Opposite(forwards, d.key, c.key);
    }

    lemma TurnFromDatabase(forwards: bool)
      requires Valid() && Settled() && current == Database && Sound() && Came(forwards)
      ensures FirstOf(Moved(!forwards)) == FirstOf(Passed(forwards)) <==> TurnsWell(forwards)
    {
      hide Before, Merge, Kept, AllAfter, KeysApart, Ahead, Leads, Sooner, Sorted, Sound;
      var mine, other, still := DbBehind(forwards), CacheBehind(forwards), CacheAhead(!forwards);
      BehindApart(forwards);
      HeadOfCache(!forwards);
      if cache.Inside() {
        OtherBeyond(forwards);
      }
      FirstOfMerge(!forwards, mine, still);
      FirstOfMerge(!forwards, mine, other);
      TurnExact(!forwards, Entry().key, mine, other, still);
    }

    lemma TurnFromCache(forwards: bool)
      requires Valid() && Settled() && current == Cache && Sound() && Came(forwards)
      ensures FirstOf(Moved(!forwards)) == FirstOf(Passed(forwards)) <==> TurnsWell(forwards)
    {
      hide Before, Merge, Kept, AllAfter, KeysApart, Ahead, Leads, Sooner, Sorted, Sound;
      var mine, other, still := CacheBehind(forwards), DbBehind(forwards), DbAhead(!forwards);
      BehindApart(forwards);
      ApartEitherWay(other, mine);
      ApartEitherWay(still, mine);
      HeadOfKept(!forwards);
      if db.Inside() {
        OtherBeyond(forwards);
      }
      FirstOfMerge(!forwards, mine, still);
      FirstOfMerge(!forwards, mine, other);
      TurnExact(!forwards, Entry().key, mine, other, still);
    }

    /**
     Turning round moves the current cursor only, so where the other one stands decides what is
     found: the nearest entry gone past exactly when turning works.
     */
    lemma TurnLands(forwards: bool)
      requires Valid() && Settled() && Sound() && Came(forwards)
      ensures Exists() ==> (FirstOf(Moved(!forwards)) == FirstOf(Passed(forwards)) <==> TurnsWell(forwards))
      ensures !Exists() ==> (FirstOf(Passed(forwards)) == None <==> TurnsWell(forwards))
    {
      hide Before, Kept, Ahead, Sorted, Sound, DbBehind, CacheBehind;
      if current == Database {
        TurnFromDatabase(forwards);
      } else if current == Cache {
        TurnFromCache(forwards);
      }
    }

    /** With both cursors on an entry, turning round lands on the one that was not current. */
    lemma TurnOvershoots(forwards: bool)
      requires Valid() && Sound() && Exists() && Positioned(forwards) && db.Inside() && cache.Inside()
      ensures FirstOf(Moved(!forwards)) == Some(if current == Database then cache.Current() else db.Current())
    {
      hide Before, Merge, Kept, AllAfter, KeysApart, Ahead, Sooner, Sorted;
      BehindApart(forwards);
      OtherBeyond(forwards);
      if current == Database {
        HeadOfCache(!forwards);
        BehindAfter(forwards, db.entries, db.pos);
        KeptAfter(!forwards, db.Current().key, Behind(forwards, db.entries, db.pos), Hidden());
        FirstOfMerge(!forwards, DbBehind(forwards), CacheAhead(!forwards));
        Overshoots(!forwards, db.Current().key, DbBehind(forwards), CacheAhead(!forwards));
      } else {
        HeadOfKept(!forwards);
        BehindAfter(forwards, cache.entries, cache.pos);
        ApartEitherWay(DbAhead(!forwards), CacheBehind(forwards));
        FirstOfMerge(!forwards, CacheBehind(forwards), DbAhead(!forwards));
        Overshoots(!forwards, cache.Current().key, CacheBehind(forwards), DbAhead(!forwards));
      }
    }

    lemma AheadOrPassed(forwards: bool, e: Entry)
      requires Valid() && DbReached(forwards) && CacheReached(forwards)
      ensures e in Remaining(forwards) || e in Passed(forwards) <==> e in Everything(!forwards)
    {
      hide Before, Merge, Kept, Ahead, Behind;
      MergeMembers(forwards, DbAhead(forwards), CacheAhead(forwards), e);
      MergeMembers(!forwards, DbBehind(forwards), CacheBehind(forwards), e);
      KeptMembers(Ahead(forwards, db.entries, db.pos), Hidden(), e);
      KeptMembers(Behind(forwards, db.entries, db.pos), Hidden(), e);
      AheadOrBehind(forwards, db.entries, db.pos, e);
      AheadOrBehind(forwards, cache.entries, cache.pos, e);
      var wholeDb, wholeCache := Whole(!forwards, db.entries), Whole(!forwards, cache.entries);
      MergeMembers(!forwards, Kept(wholeDb, Hidden()), wholeCache, e);
      KeptMembers(wholeDb, Hidden(), e);
      MirroredMembers(db.entries, e);
      MirroredMembers(cache.entries, e);
    }

    lemma PassedSorted(forwards: bool)
      requires Valid() && Sound() && DbReached(forwards) && CacheReached(forwards)
      ensures Sorted(!forwards, Passed(forwards))
    {
      hide Before, Merge, Kept, Sorted, Ahead, KeysApart;
      AheadSorted(!forwards, db.entries, Advance(!forwards, db.pos));
      AheadSorted(!forwards, cache.entries, Advance(!forwards, cache.pos));
      KeptSorted(!forwards, Behind(forwards, db.entries, db.pos), Hidden());
      BehindApart(forwards);
      MergeSorted(!forwards, DbBehind(forwards), CacheBehind(forwards));
    }

    lemma EverythingSorted(forwards: bool)
      requires Valid() && Sound()
      ensures Sorted(forwards, Everything(forwards))
    {
      hide Before, Merge, Kept, Sorted, Mirrored;
      MirroredSorted(true, db.entries);
      MirroredSorted(true, cache.entries);
      var wholeDb, wholeCache := Whole(forwards, db.entries), Whole(forwards, cache.entries);
      KeptSorted(forwards, wholeDb, Hidden());
      forall e | e in wholeCache
        ensures e in cache.entries
      {
        MirroredMembers(cache.entries, e);
      }
      CacheKeysHidden(wholeCache);
      KeptApart(wholeDb, Hidden(), wholeCache);
      MergeSorted(forwards, Kept(wholeDb, Hidden()), wholeCache);
    }

    /**
     The whole walk in the other direction is what remains, read back, followed by what was gone
     past: the first entry gone past is the overlay's neighbour of the current one.
     */
    lemma PassedFollows(forwards: bool)
      requires Valid() && Settled() && Sound() && Came(forwards)
      ensures Everything(!forwards) == Mirrored(Remaining(forwards)) + Passed(forwards)
    {
      hide Before, Merge, Kept, Sorted, Ahead, Mirrored, Remaining, Passed, Everything, DbBehind, CacheBehind, AllAfter;
      var ahead, passed := Remaining(forwards), Passed(forwards);
      RemainingSorted(forwards);
      PassedSorted(forwards);
      EverythingSorted(!forwards);
      CurrentIsFirst(forwards);
      if Exists() {
        PassedAfter(forwards);
      }
      ReadBackSorted(forwards, ahead, passed);
      forall e
        ensures e in Everything(!forwards) <==> e in Mirrored(ahead) + passed
      {
        AheadOrPassed(forwards, e);
        MirroredMembers(ahead, e);
      }
      EnumerationUnique(!forwards, Everything(!forwards), Mirrored(ahead) + passed);
    }

    lemma PassedAfter(forwards: bool)
      requires Valid() && Settled() && Came(forwards) && Exists()
      ensures AllAfter(!forwards, Entry().key, Passed(forwards))
    {
      hide Before, Merge, Kept, AllAfter;
      MergeAfter(!forwards, Entry().key, DbBehind(forwards), CacheBehind(forwards));
    }

    /** The current entry, if any, is the first of what remains. */
    lemma AtFirst(forwards: bool)
      requires Valid() && Positioned(forwards)
      ensures At(FirstOf(Remaining(forwards)))
    {
      hide Merge, Kept, Before, Ahead;
      CurrentIsFirst(forwards);
    }

    method Move(forwards: bool) returns (found: bool)
      requires Valid() && Settled()
      modifies this, db, cache
      ensures Valid() && Settled() && found == Exists()
      ensures !old(Exists()) ==> !found && db.pos == old(db.pos) && cache.pos == old(cache.pos)
      ensures old(Exists()) ==> Positioned(forwards) && Remaining(forwards) == old(Moved(forwards))
      ensures old(Exists() && Positioned(forwards)) ==> old(Remaining(forwards)) == [old(Entry())] + Remaining(forwards)
      ensures Sound() && old(Came(forwards)) ==> Came(forwards)
    {
      hide Merge, Kept, Before, Sound, AllAfter, Sorted, Ahead, Behind;
      if current == Nowhere {
        return false;
      }
      ghost var came := Sound() && Came(forwards);
      ghost var here, rest := Entry(), Remaining(forwards);
      ghost var dbBehind := if came then DbBehind(forwards) else [];
      ghost var cacheBehind := if came then CacheBehind(forwards) else [];
      if Skipped() && Chosen(forwards) {
        DropsFirst(forwards);
      }
      if came {
        RemainingSorted(forwards);
        PassesCurrent(forwards);
      }
      if current == Database {
        db.Step(forwards);
      } else {
        cache.Step(forwards);
      }
      found := ChooseIterator(forwards);
      if came {
        StillBeyond(forwards, here, rest, dbBehind, cacheBehind);
      }
    }

    method Next() returns (found: bool)
      requires Valid() && Settled()
      modifies this, db, cache
      ensures Valid() && Settled() && found == Exists()
      ensures old(Exists()) ==> Positioned(true)
      ensures old(Exists() && Positioned(true)) ==> old(Remaining(true)) == [old(Entry())] + Remaining(true)
      ensures Sound() && old(Came(true)) ==> Came(true)
      ensures Sound() && old(Came(false)) ==> (At(old(FirstOf(Passed(false)))) <==> old(TurnsWell(false)))
      ensures Sound() && old(Exists() && Positioned(false) && db.Inside() && cache.Inside()) ==>
                At(Some(old(if current == Database then cache.Current() else db.Current())))
    {
      hide Merge, Kept, Before, Sound, Ahead, DbBehind, CacheBehind, Passed, Came, TurnsWell, Moved;
      if Sound() && Came(false) {
        TurnLands(false);
      }
      if Sound() && Exists() && Positioned(false) && db.Inside() && cache.Inside() {
        TurnOvershoots(false);
      }
      ghost var existed := Exists();
      found := Move(true);
      if existed {
        AtFirst(true);
      }
    }

    method Prev() returns (found: bool)
      requires Valid() && Settled()
      modifies this, db, cache
      ensures Valid() && Settled() && found == Exists()
      ensures old(Exists()) ==> Positioned(false)
      ensures old(Exists() && Positioned(false)) ==> old(Remaining(false)) == [old(Entry())] + Remaining(false)
      ensures Sound() && old(Came(false)) ==> Came(false)
      ensures Sound() && old(Came(true)) ==> (At(old(FirstOf(Passed(true)))) <==> old(TurnsWell(true)))
      ensures Sound() && old(Exists() && Positioned(true) && db.Inside() && cache.Inside()) ==>
                At(Some(old(if current == Database then cache.Current() else db.Current())))
    {
      hide Merge, Kept, Before, Sound, Ahead, DbBehind, CacheBehind, Passed, Came, TurnsWell, Moved;
      if Sound() && Came(true) {
        TurnLands(true);
      }
      if Sound() && Exists() && Positioned(true) && db.Inside() && cache.Inside() {
        TurnOvershoots(true);
      }
      ghost var existed := Exists();
      found := Move(false);
      if existed {
        AtFirst(false);
      }
    }

    /** Starting at one end and moving until nothing is left visits everything. */
    method Walk(forwards: bool) returns (visited: seq<Entry>)
      requires Valid()
      modifies this, db, cache
      ensures Valid() && visited == Everything(forwards)
    {
      hide Merge, Kept, Ahead, Whole, Before, Remaining, Everything, Chosen, Skipped;
      var found := Begin(forwards);
      visited := [];
      assert visited + Remaining(forwards) == Remaining(forwards);
      while found
        invariant Valid() && Settled() && Positioned(forwards) && found == Exists()
        invariant visited + Remaining(forwards) == Everything(forwards)
        decreases |Remaining(forwards)|
      {
        CurrentIsFirst(forwards);
        ghost var rest := Remaining(forwards);
        ShiftOne(visited, rest);
        visited := visited + [Entry()];
        found := Move(forwards);
      }
      CurrentIsFirst(forwards);
      assert visited + [] == visited;
    }
  }

  lemma ShiftOne(a: seq<Entry>, b: seq<Entry>)
    requires b != []
    ensures (a + [b[0]]) + b[1..] == a + b
  {
  }

  function Whole(forwards: bool, es: seq<Entry>): seq<Entry> {
    if forwards then es else Mirrored(es)
  }

  lemma AheadOfStart(forwards: bool, es: seq<Entry>)
    ensures Ahead(forwards, es, if forwards then 0 else |es| - 1) == Whole(forwards, es)
  {
    assert es[..|es|] == es;
  }

  /** The entries from the first key that is not below `key`. */
  function From(es: seq<Entry>, key: Key): seq<Entry>
    decreases |es|
  {
    if es != [] && Less(es[0].key, key) then From(es[1..], key) else es
  }

  lemma {:induction false} FromIsSuffix(es: seq<Entry>, key: Key, pos: nat)
    requires pos <= |es| && (forall i :: 0 <= i < pos ==> Less(es[i].key, key))
    requires pos < |es| ==> !Less(es[pos].key, key)
    ensures From(es, key) == es[pos..]
    decreases |es|
  {
    hide Less;
    if pos > 0 {
      FromIsSuffix(es[1..], key, pos - 1);
    }
  }

  // ----- What the walks enumerate -----

  lemma MirroredEnumerates(es: seq<Entry>, m: map<Key, Value>, wanted: Key -> bool)
    requires Enumerates(true, es, m, wanted)
    ensures Enumerates(false, Mirrored(es), m, wanted)
  {
    hide Less;
    forall e
      ensures e in Mirrored(es) <==> e in es
    {
      MirroredMembers(es, e);
    }
  }

  lemma {:induction false} FromMembers(es: seq<Entry>, key: Key, e: Entry)
    requires Sorted(true, es)
    ensures e in From(es, key) <==> e in es && !Less(e.key, key)
    ensures Sorted(true, From(es, key))
    decreases |es|
  {
    hide Less;
    if es != [] {
      SortedTail(true, es);
      if Less(es[0].key, key) {
        FromMembers(es[1..], key, e);
        assert e in es <==> e == es[0] || e in es[1..];
      } else {
        forall i | 0 <= i < |es|
          ensures !Less(es[i].key, key)
        {
          BeforeOrder(true, es[0].key, es[i].key, key);
        }
      }
    }
  }

  lemma FromEnumerates(es: seq<Entry>, m: map<Key, Value>, wanted: Key -> bool, key: Key)
    requires Enumerates(true, es, m, wanted)
    ensures Enumerates(true, From(es, key), m, k => wanted(k) && !Less(k, key))
  {
    hide Less, From, Sorted;
    if es == [] {
      FromMembers(es, key, Entry([], []));
    } else {
      FromMembers(es, key, es[0]);
    }
    forall e
      ensures e in From(es, key) <==> e in es && !Less(e.key, key)
    {
      FromMembers(es, key, e);
    }
  }

  /** From either end, the walk enumerates the whole overlay in that direction. */
  lemma WalkEnumerates(forwards: bool, dbEntries: seq<Entry>, cacheEntries: seq<Entry>,
                       db: map<Key, Value>, pending: map<Key, Value>, removed: set<Key>, wanted: Key -> bool)
    requires Enumerates(true, dbEntries, db, wanted) && Enumerates(true, cacheEntries, pending, wanted)
    ensures Enumerates(forwards, Merge(forwards, Kept(Whole(forwards, dbEntries), removed + pending.Keys),
                                       Whole(forwards, cacheEntries)), Overlay(db, pending, removed), wanted)
  {
    hide Enumerates, Merge, Kept, Mirrored;
    if !forwards {
      MirroredEnumerates(dbEntries, db, wanted);
      MirroredEnumerates(cacheEntries, pending, wanted);
    }
    MergeEnumerates(forwards, Whole(forwards, dbEntries), Whole(forwards, cacheEntries), db, pending, removed, wanted);
  }

  /** After a seek, the walk enumerates the part of the overlay from the sought key on. */
  lemma SeekEnumerates(dbEntries: seq<Entry>, cacheEntries: seq<Entry>, key: Key,
                       db: map<Key, Value>, pending: map<Key, Value>, removed: set<Key>, wanted: Key -> bool)
    requires Enumerates(true, dbEntries, db, wanted) && Enumerates(true, cacheEntries, pending, wanted)
    ensures Enumerates(true, Merge(true, Kept(From(dbEntries, key), removed + pending.Keys), From(cacheEntries, key)),
                       Overlay(db, pending, removed), k => wanted(k) && !Less(k, key))
  {
    hide Enumerates, Merge, Kept, From;
    var above := k => wanted(k) && !Less(k, key);
    FromEnumerates(dbEntries, db, wanted, key);
    FromEnumerates(cacheEntries, pending, wanted, key);
    MergeEnumerates(true, From(dbEntries, key), From(cacheEntries, key), db, pending, removed, above);
  }

  // ----- Changing direction -----

  const LOW: Entry := Entry([1], [])
  const MIDDLE: Entry := Entry([2], [])
  const HIGH: Entry := Entry([4], [])

  lemma ExampleMerge()
    ensures Merge(true, Kept([LOW, HIGH], {} + {MIDDLE.key}), [MIDDLE]) == [LOW, MIDDLE, HIGH]
    ensures Sorted(true, [LOW, HIGH]) && Sorted(true, [MIDDLE])
  {
    var d, hidden := [LOW, HIGH], {} + {MIDDLE.key};
    assert d[1..] == [HIGH] && [HIGH][1..] == [] && [MIDDLE][1..] == [];
    assert LOW.key[0] == 1 && MIDDLE.key[0] == 2 && HIGH.key[0] == 4;
    assert Less(LOW.key, MIDDLE.key) && Less(MIDDLE.key, HIGH.key) && Less(LOW.key, HIGH.key);
    assert Kept([HIGH], hidden) == [HIGH];
    assert Kept(d, hidden) == [LOW] + Kept(d[1..], hidden);
    assert !Before(true, MIDDLE.key, LOW.key);
    assert Merge(true, [HIGH], [MIDDLE]) == [MIDDLE] + Merge(true, [HIGH], []);
    assert Merge(true, d, [MIDDLE]) == [LOW] + Merge(true, d[1..], [MIDDLE]);
  }

  /**
   Over a database with keys 1 and 4 and the pending key 2: the first entry is 1, the next is 2,
   and moving back from there lands on 4 instead of 1.
   */
  method TurningBackSkips() returns (first: Key, next: Key, back: Key)
    ensures first == [1] && next == [2] && back == [4]
  {
    hide Less, Before, Sorted, Merge, Kept, Ahead;
    var db := new Cursor([LOW, HIGH]);
    var cache := new Cursor([MIDDLE]);
    var it := new Iterator(db, cache, {}, {MIDDLE.key});
    ExampleMerge();
    var _ := it.First();
    it.CurrentIsFirst(true);
    first := it.Entry().key;
    ghost var whole := it.Remaining(true);
    assert whole == [LOW, MIDDLE, HIGH];
    var _ := it.Next();
    it.CurrentIsFirst(true);
    assert it.Remaining(true) == whole[1..];
    next := it.Entry().key;
    OnTheWay(it);
    var _ := it.Prev();
    back := it.Entry().key;
  }

  lemma OnTheWay(it: Iterator)
    requires it.Valid() && it.Settled() && it.Positioned(true) && it.Exists() && it.Entry() == MIDDLE
    requires it.db.entries == [LOW, HIGH] && it.cache.entries == [MIDDLE] && it.Remaining(true) == [MIDDLE, HIGH]
    ensures it.current == Cache && it.db.Inside() && it.db.Current() == HIGH
  {
    hide Less, Before, Merge, Kept;
    assert MIDDLE.key[0] == 2 && LOW.key[0] == 1 && HIGH.key[0] == 4;
    it.HeadOfKept(true);
    if it.db.Inside() {
      MergeMembers(true, it.DbAhead(true), it.CacheAhead(true), it.db.Current());
    } else {
      MergeMembers(true, it.DbAhead(true), it.CacheAhead(true), HIGH);
    }
  }
}
