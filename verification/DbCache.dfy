/**
 The write-back cache in front of the metadata database. Pending additions and removals overlay
 the database; committing a transaction goes either into the overlay or, after a flush, straight
 into the database. Input and output errors are oracles: `fails(i)` says whether step `i` fails.
 */
module DbCache {
  import opened Wrappers
  import opened KeyOrder
  import opened MergedView

  type Store = map<Key, Value>

  function With(view: Store, adds: Store): Store {
    view + adds
  }

  function Without(view: Store, removes: set<Key>): Store {
    view - removes
  }

  /** A view with a transaction's changes; a key both added and removed ends up removed. */
  function Apply(view: Store, adds: Store, removes: set<Key>): Store {
    Without(With(view, adds), removes)
  }

  /** A lookup that checks removals first, then additions, then what lies beneath. */
  function Lookup(beneath: Option<Value>, adds: Store, removes: set<Key>, key: Key): Option<Value> {
    if key in removes then None else if key in adds then Some(adds[key]) else beneath
  }

  function Get(view: Store, key: Key): Option<Value> {
    if key in view then Some(view[key]) else None
  }

  datatype Snapshot = Snapshot(db: Store, pendingKeys: Store, pendingRemove: set<Key>) {

    function View(): Store {
      Overlay(db, pendingKeys, pendingRemove)
    }

    function Fetch(key: Key): Option<Value> {
      Lookup(Get(db, key), pendingKeys, pendingRemove, key)
    }

    predicate Has(key: Key) {
      if key in pendingRemove then false else if key in pendingKeys then true else key in db
    }
  }

  /** Looking a key up agrees with walking the overlay exactly when no key is both added and removed. */
  lemma FetchSeesView(s: Snapshot, key: Key)
    ensures s.Fetch(key) == Get(s.View(), key) <==> !(key in s.pendingKeys && key in s.pendingRemove)
    ensures s.Has(key) <==> s.Fetch(key).Some?
  {
  }

  /** Reading through pending changes is reading the view they lead to, whatever the overlap. */
  lemma LookupIsApply(view: Store, adds: Store, removes: set<Key>, key: Key)
    ensures Lookup(Get(view, key), adds, removes, key) == Get(Apply(view, adds, removes), key)
  {
  }

  datatype Changes = Changes(adds: Store, removes: set<Key>)

  /** The view after a sequence of committed transactions. */
  function Replay(base: Store, log: seq<Changes>): Store
    decreases |log|
  {
    if log == [] then base
    else
      var last := log[|log| - 1];
      Apply(Replay(base, log[..|log| - 1]), last.adds, last.removes)
  }

  class Transaction {
    const snapshot: Snapshot
    var pendingKeys: Store
    var pendingRemove: set<Key>

    constructor (snapshot: Snapshot)
      ensures this.snapshot == snapshot && pendingKeys == map[] && pendingRemove == {}
    {
      this.snapshot := snapshot;
      pendingKeys, pendingRemove := map[], {};
    }

    /** What the transaction reads before it is committed. */
    ghost function View(): Store
      reads this
    {
      Apply(snapshot.View(), pendingKeys, pendingRemove)
    }

    ghost predicate Disjoint()
      reads this
    {
      pendingKeys.Keys !! pendingRemove
    }

    method PutKey(key: Key, value: Value)
      requires Disjoint()
      modifies this
      ensures Disjoint() && View() == old(View())[key := value]
    {
      pendingRemove := pendingRemove - {key};
      pendingKeys := pendingKeys[key := value];
    }

    method DeleteKey(key: Key)
      requires Disjoint()
      modifies this
      ensures Disjoint() && View() == old(View()) - {key}
    {
      pendingKeys := pendingKeys - {key};
      pendingRemove := pendingRemove + {key};
    }

    method FetchKey(key: Key) returns (value: Option<Value>)
      requires snapshot.pendingKeys.Keys !! snapshot.pendingRemove
      ensures value == Get(View(), key)
    {
      FetchSeesView(snapshot, key);
      LookupIsApply(snapshot.View(), pendingKeys, pendingRemove, key);
      if key in pendingRemove {
        return None;
      }
      if key in pendingKeys {
        return Some(pendingKeys[key]);
      }
      return snapshot.Fetch(key);
    }
  }

  /** None of the steps from `first` up to `last` fails. */
  ghost predicate NoFailure(fails: nat -> bool, first: nat, last: nat) {
    forall i: nat :: first <= i < last ==> !fails(i)
  }

  /** The steps of a flush: writing the block files out, then one database transaction if needed. */
  ghost predicate FlushSucceeds(adds: Store, removes: set<Key>, fails: nat -> bool) {
    !fails(0) && ((adds == map[] && removes == {}) || NoFailure(fails, 1, |adds| + |removes| + 3))
  }

  lemma StepsOf(fails: nat -> bool, n: nat, m: nat)
    ensures NoFailure(fails, 0, n + m + 2) <==>
            !fails(0) && NoFailure(fails, 1, 1 + n) && NoFailure(fails, 1 + n, 1 + n + m) && !fails(1 + n + m)
  {
  }

  lemma LaterSteps(fails: nat -> bool, n: nat)
    ensures NoFailure((i: nat) => fails(i + 1), 0, n) <==> NoFailure(fails, 1, n + 1)
  {
    var later := (i: nat) => fails(i + 1);
    if NoFailure(later, 0, n) {
      forall i: nat | 1 <= i < n + 1
        ensures !fails(i)
      {
        assert !later(i - 1);
      }
    }
  }

  class Cache {
    var ldb: Store
    var cachedKeys: Store
    var cachedRemove: set<Key>

    // The database as it was opened, what has been committed since, and how much of that the
    // database itself holds.
    ghost const base: Store
    ghost var log: seq<Changes>
    ghost var durable: nat

    ghost function View(): Store
      reads this
    {
      Overlay(ldb, cachedKeys, cachedRemove)
    }

    /**
     No key is both added and removed; the view is all committed transactions in order; and the
     database alone is a prefix of them, so that losing the cache loses only a suffix.
     */
    ghost predicate Valid()
      reads this
    {
      && cachedKeys.Keys !! cachedRemove
      && durable <= |log|
      && ldb == Replay(base, log[..durable])
      && View() == Replay(base, log)
    }

    constructor (ldb: Store)
      ensures Valid() && View() == ldb && log == [] && this.ldb == ldb
    {
      this.ldb, cachedKeys, cachedRemove := ldb, map[], {};
      base, log, durable := ldb, [], 0;
    }

    method TakeSnapshot() returns (s: Snapshot)
      requires Valid()
      ensures s.View() == View() && s.pendingKeys.Keys !! s.pendingRemove
    {
      s := Snapshot(ldb, cachedKeys, cachedRemove);
    }

    /**
     All updates go through one database transaction: every one of them is applied or none. It
     succeeds exactly when opening it, every update and its commit do.
     */
    method CommitTreaps(adds: Store, removes: set<Key>, fails: nat -> bool) returns (ok: bool)
      modifies this`ldb
      ensures ldb == if ok then Apply(old(ldb), adds, removes) else old(ldb)
      ensures ok <==> NoFailure(fails, 0, |adds| + |removes| + 2)
    {
      hide NoFailure, With, Without;
      StepsOf(fails, |adds|, |removes|);
      if fails(0) {
        return false;
      }
      var put, step := PutAll(ldb, adds, fails, 1);
      if put.None? {
        return false;
      }
      var deleted, last := DeleteAll(put.value, removes, fails, step);
      if deleted.None? || fails(last) {
        return false;
      }
      ldb := deleted.value;
      return true;
    }

    /** Writes the cached changes to the database and empties the cache; the view stays as it is. */
    method Flush(fails: nat -> bool) returns (ok: bool)
      requires Valid()
      modifies this
      ensures Valid() && View() == old(View()) && log == old(log)
      ensures ok ==> cachedKeys == map[] && cachedRemove == {} && durable == |log|
      ensures !ok ==> ldb == old(ldb) && cachedKeys == old(cachedKeys) && cachedRemove == old(cachedRemove)
      ensures ok <==> FlushSucceeds(old(cachedKeys), old(cachedRemove), fails)
    {
      hide Replay, Overlay, Apply;
      if fails(0) {
        return false;
      }
      LaterSteps(fails, |cachedKeys| + |cachedRemove| + 2);
      FlushedView(ldb, cachedKeys, cachedRemove);
      assert log[..|log|] == log;
      if |cachedKeys| == 0 && |cachedRemove| == 0 {
        EmptyCache(cachedKeys, cachedRemove);
        NothingCached(ldb);
        durable := |log|;
        return true;
      }
      ok := CommitTreaps(cachedKeys, cachedRemove, (i: nat) => fails(i + 1));
      if !ok {
        return false;
      }
      cachedKeys, cachedRemove := map[], {};
      durable := |log|;
      NothingCached(ldb);
      return true;
    }

    /**
     Commits a transaction through the cache or, when `flush` says that a flush is due, directly to
     the database after flushing. Either way the view changes by exactly the transaction or, on an
     error, not at all. The two database transactions of a flush and the commit after it fail
     independently.
     */
    method CommitTx(tx: Transaction, flush: bool, flushFails: nat -> bool, commitFails: nat -> bool) returns (ok: bool)
      requires Valid()
      modifies this, tx
      ensures Valid()
      ensures ok ==> View() == Apply(old(View()), old(tx.pendingKeys), old(tx.pendingRemove))
      ensures ok && old(tx.snapshot.View() == View()) ==> View() == old(tx.View())
      ensures ok ==> log == old(log) + [Changes(old(tx.pendingKeys), old(tx.pendingRemove))]
      ensures ok ==> tx.pendingKeys == map[] && tx.pendingRemove == {}
      ensures !ok ==> View() == old(View()) && log == old(log)
      ensures !ok ==> tx.pendingKeys == old(tx.pendingKeys) && tx.pendingRemove == old(tx.pendingRemove)
      ensures ok <==> !flush || (FlushSucceeds(old(cachedKeys), old(cachedRemove), flushFails)
                                 && NoFailure(commitFails, 0, |old(tx.pendingKeys)| + |old(tx.pendingRemove)| + 2))
      ensures ok && flush ==> durable == |log| && cachedKeys == map[] && cachedRemove == {}
      ensures !flush ==> ldb == old(ldb) && durable == old(durable)
    {
      hide Replay, NoFailure, FlushSucceeds, Apply, Overlay;
      var change := Changes(tx.pendingKeys, tx.pendingRemove);
      if flush {
        ok := CommitAfterFlush(change, flushFails, commitFails);
        if !ok {
          return false;
        }
      } else {
        CommitIntoCache(change);
      }
      tx.pendingKeys, tx.pendingRemove := map[], {};
      return true;
    }

    method CommitAfterFlush(change: Changes, flushFails: nat -> bool, commitFails: nat -> bool) returns (ok: bool)
      requires Valid()
      modifies this
      ensures Valid()
      ensures ok ==> View() == Apply(old(View()), change.adds, change.removes) && log == old(log) + [change]
      ensures !ok ==> View() == old(View()) && log == old(log)
      ensures ok <==> FlushSucceeds(old(cachedKeys), old(cachedRemove), flushFails)
                      && NoFailure(commitFails, 0, |change.adds| + |change.removes| + 2)
      ensures ok ==> durable == |log| && cachedKeys == map[] && cachedRemove == {}
    {
      hide Replay, NoFailure, FlushSucceeds, Apply, Overlay;
      ReplaySnoc(base, log, change);
      ok := Flush(flushFails);
      if !ok {
        return false;
      }
      NothingCached(ldb);
      ok := CommitTreaps(change.adds, change.removes, commitFails);
      if !ok {
        return false;
      }
      NothingCached(ldb);
      log, durable := log + [change], durable + 1;
      assert log[..durable] == log;
    }

    method CommitIntoCache(change: Changes)
      requires Valid()
      modifies this
      ensures Valid() && View() == Apply(old(View()), change.adds, change.removes)
      ensures log == old(log) + [change] && durable == old(durable) && ldb == old(ldb)
    {
      hide Replay;
      ReplaySnoc(base, log, change);
      CachedView(ldb, cachedKeys, cachedRemove, change);
      var newRemove := cachedRemove - change.adds.Keys;
      var newKeys := cachedKeys + change.adds;
      newKeys := newKeys - change.removes;
      newRemove := newRemove + change.removes;
      cachedKeys, cachedRemove := newKeys, newRemove;
      assert (log + [change])[..durable] == log[..durable];
      log := log + [change];
    }
  }

  /** The database when nothing is cached. */
  lemma NothingCached(db: Store)
    ensures Overlay(db, map[], {}) == db
  {
  }

  /** Without overlap, writing the cached changes down gives what the overlay showed. */
  lemma FlushedView(db: Store, adds: Store, removes: set<Key>)
    requires adds.Keys !! removes
    ensures Apply(db, adds, removes) == Overlay(db, adds, removes)
  {
    var a, o := Apply(db, adds, removes), Overlay(db, adds, removes);
    assert a.Keys == o.Keys;
    forall k | k in a
      ensures a[k] == o[k]
    {
    }
  }

  lemma EmptyCache(adds: Store, removes: set<Key>)
    requires |adds| == 0 && |removes| == 0
    ensures adds == map[] && removes == {}
  {
    assert |adds.Keys| == 0;
  }

  /** Folding a transaction into the cached changes shows the transaction applied to the view. */
  lemma CachedView(db: Store, adds: Store, removes: set<Key>, change: Changes)
    requires adds.Keys !! removes
    ensures Overlay(db, (adds + change.adds) - change.removes, (removes - change.adds.Keys) + change.removes)
         == Apply(Overlay(db, adds, removes), change.adds, change.removes)
    ensures ((adds + change.adds) - change.removes).Keys !! ((removes - change.adds.Keys) + change.removes)
  {
  }

  lemma ReplaySnoc(base: Store, log: seq<Changes>, change: Changes)
    ensures Replay(base, log + [change]) == Apply(Replay(base, log), change.adds, change.removes)
  {
    assert (log + [change])[..|log|] == log;
  }

  method PutAll(start: Store, adds: Store, fails: nat -> bool, first: nat) returns (r: Option<Store>, step: nat)
    ensures r.Some? <==> NoFailure(fails, first, first + |adds|)
    ensures r.Some? ==> r.value == With(start, adds) && step == first + |adds|
  {
    hide With, Restrict;
    var tx, keys := start, adds.Keys;
    step := first;
    PutBounds(start, adds);
    assert adds.Keys - keys == {};
    while keys != {}
      invariant keys <= adds.Keys
      invariant tx == With(start, Restrict(adds, adds.Keys - keys))
      invariant step == first + |adds.Keys| - |keys| && NoFailure(fails, first, step)
      decreases |keys|
    {
      var k :| k in keys;
      if fails(step) {
        return None, step;
      }
      PutGrows(start, adds, adds.Keys - keys, k);
      assert (adds.Keys - keys) + {k} == adds.Keys - (keys - {k});
      tx := tx[k := adds[k]];
      keys := keys - {k};
      step := step + 1;
    }
    assert adds.Keys - keys == adds.Keys;
    return Some(tx), step;
  }

  method DeleteAll(start: Store, removes: set<Key>, fails: nat -> bool, first: nat) returns (r: Option<Store>, step: nat)
    ensures r.Some? <==> NoFailure(fails, first, first + |removes|)
    ensures r.Some? ==> r.value == Without(start, removes) && step == first + |removes|
  {
    var tx, gone := start, removes;
    step := first;
    while gone != {}
      invariant gone <= removes
      invariant tx == start - (removes - gone)
      invariant step == first + |removes| - |gone| && NoFailure(fails, first, step)
      decreases |gone|
    {
      var k :| k in gone;
      if fails(step) {
        return None, step;
      }
      DeleteGrows(start, removes - gone, k);
      assert removes - (gone - {k}) == (removes - gone) + {k};
      tx := tx - {k};
      gone := gone - {k};
      step := step + 1;
    }
    return Some(tx), step;
  }

  lemma DeleteGrows(start: Store, done: set<Key>, k: Key)
    ensures (start - done) - {k} == start - (done + {k})
  {
  }

  function Restrict(m: Store, keys: set<Key>): Store {
    map k | k in m && k in keys :: m[k]
  }

  lemma PutGrows(beneath: Store, adds: Store, done: set<Key>, k: Key)
    requires k in adds
    ensures With(beneath, Restrict(adds, done))[k := adds[k]] == With(beneath, Restrict(adds, done + {k}))
  {
  }

  lemma PutBounds(beneath: Store, adds: Store)
    ensures With(beneath, Restrict(adds, {})) == beneath
    ensures Restrict(adds, adds.Keys) == adds
  {
  }
}
