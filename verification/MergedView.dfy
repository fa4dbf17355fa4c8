/**
 What walking the overlay of a database and its pending changes visits: the entries of the
 database that no pending change hides, merged with the pending entries.
 */
module MergedView {
  import opened Bytes
  import opened KeyOrder
  import opened Sequences

  type Value = seq<Byte>

  datatype Entry = Entry(key: Key, value: Value)

  /** The entries a cursor at `pos` still has in front of it; none when it is off either end. */
  function Ahead(forwards: bool, es: seq<Entry>, pos: int): seq<Entry>
    requires -1 <= pos <= |es|
  {
    if forwards then if pos < 0 then [] else es[pos..]
    else if pos == |es| then [] else Mirrored(es[..pos + 1])
  }

  function Advance(forwards: bool, pos: int): int {
    if forwards then pos + 1 else pos - 1
  }

  lemma AheadStep(forwards: bool, es: seq<Entry>, pos: int)
    requires -1 <= pos <= |es|
    ensures Ahead(forwards, es, pos) ==
            if 0 <= pos < |es| then [es[pos]] + Ahead(forwards, es, Advance(forwards, pos)) else []
  {
    if 0 <= pos < |es| && !forwards {
      assert es[..pos + 1] == es[..pos] + [es[pos]];
      MirroredConcat(es[..pos], [es[pos]]);
    }
  }

  /** The entries whose keys are not hidden. */
  function Kept(es: seq<Entry>, hidden: set<Key>): seq<Entry>
    decreases |es|
  {
    if es == [] then []
    else if es[0].key in hidden then Kept(es[1..], hidden)
    else [es[0]] + Kept(es[1..], hidden)
  }

  /** Two walks combined, always taking the entry that comes first; the left one on a tie. */
  function Merge(forwards: bool, a: seq<Entry>, b: seq<Entry>): seq<Entry>
    decreases |a| + |b|
  {
    if a == [] then b
    else if b == [] then a
    else if Before(forwards, b[0].key, a[0].key) then [b[0]] + Merge(forwards, a, b[1..])
    else [a[0]] + Merge(forwards, a[1..], b)
  }

  predicate Sorted(forwards: bool, es: seq<Entry>) {
    forall i, j :: 0 <= i < j < |es| ==> Before(forwards, es[i].key, es[j].key)
  }

  /** Walks exactly the entries of `m` that satisfy `wanted`, in order, each once. */
  ghost predicate Enumerates(forwards: bool, es: seq<Entry>, m: map<Key, Value>, wanted: Key -> bool) {
    && Sorted(forwards, es)
    && (forall e :: e in es <==> e.key in m && m[e.key] == e.value && wanted(e.key))
  }

  /** Every key before, in walking order, all keys of the entries. */
  predicate AllAfter(forwards: bool, k: Key, es: seq<Entry>) {
    forall i :: 0 <= i < |es| ==> Before(forwards, k, es[i].key)
  }

  // ----- Filtering -----

  lemma {:induction false} KeptMembers(es: seq<Entry>, hidden: set<Key>, e: Entry)
    ensures e in Kept(es, hidden) <==> e in es && e.key !in hidden
    decreases |es|
  {
    if es != [] {
      KeptMembers(es[1..], hidden, e);
      assert e in es <==> e == es[0] || e in es[1..];
    }
  }

  lemma {:induction false} KeptAfter(forwards: bool, k: Key, es: seq<Entry>, hidden: set<Key>)
    requires AllAfter(forwards, k, es)
    ensures AllAfter(forwards, k, Kept(es, hidden))
    decreases |es|
  {
    hide Before;
    if es != [] {
      KeptAfter(forwards, k, es[1..], hidden);
    }
  }

  lemma SortedTail(forwards: bool, es: seq<Entry>)
    requires Sorted(forwards, es) && es != []
    ensures Sorted(forwards, es[1..]) && AllAfter(forwards, es[0].key, es[1..])
  {
    hide Before;
  }

  lemma SortedCons(forwards: bool, e: Entry, es: seq<Entry>)
    requires Sorted(forwards, es) && AllAfter(forwards, e.key, es)
    ensures Sorted(forwards, [e] + es)
  {
    hide Before;
    var all := [e] + es;
    forall i, j | 0 <= i < j < |all|
      ensures Before(forwards, all[i].key, all[j].key)
    {
      assert all[j] == es[j - 1];
      if i > 0 {
        assert all[i] == es[i - 1];
      }
    }
  }

  lemma {:induction false} KeptSorted(forwards: bool, es: seq<Entry>, hidden: set<Key>)
    requires Sorted(forwards, es)
    ensures Sorted(forwards, Kept(es, hidden))
    decreases |es|
  {
    hide Sorted, AllAfter;
    if es == [] {
      SortedNone(forwards);
    } else {
      SortedTail(forwards, es);
      KeptSorted(forwards, es[1..], hidden);
      KeptAfter(forwards, es[0].key, es[1..], hidden);
      if es[0].key !in hidden {
        SortedCons(forwards, es[0], Kept(es[1..], hidden));
      }
    }
  }

  lemma SortedNone(forwards: bool)
    ensures Sorted(forwards, [])
  {
  }

  // ----- Merging -----

  lemma {:induction false} MergeMembers(forwards: bool, a: seq<Entry>, b: seq<Entry>, e: Entry)
    ensures e in Merge(forwards, a, b) <==> e in a || e in b
    decreases |a| + |b|
  {
    hide Before;
    if a != [] && b != [] {
      assert e in a <==> e == a[0] || e in a[1..];
      assert e in b <==> e == b[0] || e in b[1..];
      if Before(forwards, b[0].key, a[0].key) {
        MergeMembers(forwards, a, b[1..], e);
      } else {
        MergeMembers(forwards, a[1..], b, e);
      }
    }
  }

  lemma {:induction false} MergeAfter(forwards: bool, k: Key, a: seq<Entry>, b: seq<Entry>)
    requires AllAfter(forwards, k, a) && AllAfter(forwards, k, b)
    ensures AllAfter(forwards, k, Merge(forwards, a, b))
    decreases |a| + |b|
  {
    hide Before;
    if a != [] && b != [] {
      if Before(forwards, b[0].key, a[0].key) {
        MergeAfter(forwards, k, a, b[1..]);
      } else {
        MergeAfter(forwards, k, a[1..], b);
      }
    }
  }

  predicate KeysApart(a: seq<Entry>, b: seq<Entry>) {
    forall i, j :: 0 <= i < |a| && 0 <= j < |b| ==> a[i].key != b[j].key
  }

  lemma AfterFirst(forwards: bool, k: Key, es: seq<Entry>)
    requires Sorted(forwards, es) && (es != [] ==> Before(forwards, k, es[0].key))
    ensures AllAfter(forwards, k, es)
  {
    hide Before;
    forall i | 0 <= i < |es|
      ensures Before(forwards, k, es[i].key)
    {
      if i > 0 {
        BeforeOrder(forwards, k, es[0].key, es[i].key);
      }
    }
  }

  lemma {:induction false} MergeSorted(forwards: bool, a: seq<Entry>, b: seq<Entry>)
    requires Sorted(forwards, a) && Sorted(forwards, b) && KeysApart(a, b)
    ensures Sorted(forwards, Merge(forwards, a, b))
    decreases |a| + |b|
  {
    hide Before, Sorted, AllAfter;
    if a != [] && b != [] {
      BeforeOrder(forwards, a[0].key, b[0].key, b[0].key);
      SortedTail(forwards, a);
      SortedTail(forwards, b);
      if Before(forwards, b[0].key, a[0].key) {
        MergeSorted(forwards, a, b[1..]);
        AfterFirst(forwards, b[0].key, a);
        MergeAfter(forwards, b[0].key, a, b[1..]);
        SortedCons(forwards, b[0], Merge(forwards, a, b[1..]));
      } else {
        MergeSorted(forwards, a[1..], b);
        AfterFirst(forwards, a[0].key, b);
        MergeAfter(forwards, a[0].key, a[1..], b);
        SortedCons(forwards, a[0], Merge(forwards, a[1..], b));
      }
    }
  }

  // ----- The overlay -----

  /** The database without the removed keys, overridden by the pending entries. */
  function Overlay(db: map<Key, Value>, pending: map<Key, Value>, removed: set<Key>): map<Key, Value> {
    (db - removed) + pending
  }

  /** The merged walk enumerates exactly the overlay, in walking order, each key once. */
  lemma MergeEnumerates(forwards: bool, dbEntries: seq<Entry>, cacheEntries: seq<Entry>,
                        db: map<Key, Value>, pending: map<Key, Value>, removed: set<Key>, wanted: Key -> bool)
    requires Enumerates(forwards, dbEntries, db, wanted) && Enumerates(forwards, cacheEntries, pending, wanted)
    ensures Enumerates(forwards, Merge(forwards, Kept(dbEntries, removed + pending.Keys), cacheEntries),
                       Overlay(db, pending, removed), wanted)
  {
    hide Merge, Kept, Sorted;
    var hidden := removed + pending.Keys;
    var kept := Kept(dbEntries, hidden);
    KeptSorted(forwards, dbEntries, hidden);
    forall e
      ensures e in kept <==> e in dbEntries && e.key !in hidden
    {
      KeptMembers(dbEntries, hidden, e);
    }
    forall i, j | 0 <= i < |kept| && 0 <= j < |cacheEntries|
      ensures kept[i].key != cacheEntries[j].key
    {
      assert kept[i] in kept && cacheEntries[j] in cacheEntries;
    }
    MergeSorted(forwards, kept, cacheEntries);
    forall e
      ensures e in Merge(forwards, kept, cacheEntries) <==> e in kept || e in cacheEntries
    {
      MergeMembers(forwards, kept, cacheEntries, e);
    }
  }

  /** There is only one way to enumerate a map in order. */
  lemma {:induction false} EnumerationUnique(forwards: bool, a: seq<Entry>, b: seq<Entry>)
    requires Sorted(forwards, a) && Sorted(forwards, b) && forall e :: e in a <==> e in b
    ensures a == b
    decreases |a|
  {
    hide Before, Sorted, AllAfter;
    assert a != [] ==> a[0] in a;
    assert b != [] ==> b[0] in b;
    if a != [] {
      FirstSame(forwards, a, b);
      SortedTail(forwards, a);
      SortedTail(forwards, b);
      forall e
        ensures e in a[1..] <==> e in b[1..]
      {
        TailMember(forwards, a, e);
        TailMember(forwards, b, e);
      }
      EnumerationUnique(forwards, a[1..], b[1..]);
    }
  }

  lemma TailMember(forwards: bool, es: seq<Entry>, e: Entry)
    requires es != [] && Sorted(forwards, es)
    ensures e in es[1..] <==> e in es && e != es[0]
  {
    hide Before;
    if e in es[1..] {
      var i :| 0 <= i < |es[1..]| && es[1..][i] == e;
      assert es[i + 1] == e;
      BeforeOrder(forwards, es[0].key, e.key, e.key);
    }
  }

  lemma FirstSame(forwards: bool, a: seq<Entry>, b: seq<Entry>)
    requires a != [] && b != [] && Sorted(forwards, a) && Sorted(forwards, b) && forall e :: e in a <==> e in b
    ensures a[0] == b[0]
  {
    hide Before;
    assert a[0] in b && b[0] in a;
    var i :| 0 <= i < |b| && b[i] == a[0];
    var j :| 0 <= j < |a| && a[j] == b[0];
    if i > 0 && j > 0 {
      assert Before(forwards, b[0].key, b[i].key) && Before(forwards, a[0].key, a[j].key);
      BeforeOrder(forwards, a[0].key, b[0].key, a[0].key);
    }
  }
}
