/**
 What two cursors have gone past, and what an iterator over them lands on when it turns round:
 it moves the cursor it stood on and leaves the other one where it was.
 */
module DirectionChange {
  import opened KeyOrder
  import opened MergedView
  import opened Sequences
  import opened Wrappers

  /** A place that a cursor moving in this direction can be at. */
  predicate Reached(forwards: bool, es: seq<Entry>, pos: int) {
    if forwards then 0 <= pos <= |es| else -1 <= pos < |es|
  }

  /** The entries a cursor has gone past, the nearest first. */
  function Behind(forwards: bool, es: seq<Entry>, pos: int): seq<Entry>
    requires Reached(forwards, es, pos)
  {
    Ahead(!forwards, es, Advance(!forwards, pos))
  }

  lemma BehindStep(forwards: bool, es: seq<Entry>, pos: int)
    requires 0 <= pos < |es|
    ensures Reached(forwards, es, pos) && Reached(forwards, es, Advance(forwards, pos))
    ensures Behind(forwards, es, Advance(forwards, pos)) == [es[pos]] + Behind(forwards, es, pos)
    ensures Ahead(!forwards, es, pos) == [es[pos]] + Behind(forwards, es, pos)
  {
    AheadStep(!forwards, es, pos);
  }

  lemma NothingBehind(forwards: bool, es: seq<Entry>)
    ensures var start := if forwards then 0 else |es| - 1;
            Reached(forwards, es, start) && Behind(forwards, es, start) == []
  {
  }

  /** Every entry is either ahead or behind. */
  lemma AheadOrBehind(forwards: bool, es: seq<Entry>, pos: int, e: Entry)
    requires Reached(forwards, es, pos)
    ensures e in es <==> e in Ahead(forwards, es, pos) || e in Behind(forwards, es, pos)
  {
    if forwards {
      MirroredMembers(es[..pos], e);
      assert es == es[..pos] + es[pos..];
    } else {
      MirroredMembers(es[..pos + 1], e);
      assert es == es[..pos + 1] + es[pos + 1..];
    }
  }

  lemma AheadMembers(forwards: bool, es: seq<Entry>, pos: int)
    requires -1 <= pos <= |es|
    ensures forall e :: e in Ahead(forwards, es, pos) ==> e in es
  {
  }

  lemma AheadSorted(forwards: bool, es: seq<Entry>, pos: int)
    requires -1 <= pos <= |es| && Sorted(true, es)
    ensures Sorted(forwards, Ahead(forwards, es, pos))
  {
    hide Less;
  }

  lemma MirroredSorted(forwards: bool, es: seq<Entry>)
    requires Sorted(forwards, es)
    ensures Sorted(!forwards, Mirrored(es))
  {
    hide Less;
  }

  /** The entries on one side of a database cursor that nothing hides, next to pending ones. */
  lemma KeptApart(es: seq<Entry>, hidden: set<Key>, cache: seq<Entry>)
    requires forall e :: e in cache ==> e.key in hidden
    ensures KeysApart(Kept(es, hidden), cache)
  {
    hide Kept;
    var kept := Kept(es, hidden);
    forall i, j | 0 <= i < |kept| && 0 <= j < |cache|
      ensures kept[i].key != cache[j].key
    {
      KeptMembers(es, hidden, kept[i]);
      assert kept[i] in kept && cache[j] in cache;
    }
  }

  lemma ApartEitherWay(a: seq<Entry>, b: seq<Entry>)
    requires KeysApart(a, b)
    ensures KeysApart(b, a)
  {
  }

  // ----- Turning round -----

  function FirstOf(es: seq<Entry>): Option<Entry> {
    if es == [] then None else Some(es[0])
  }

  /** The first entry of either walk. */
  function Sooner(forwards: bool, a: seq<Entry>, b: seq<Entry>): Option<Entry> {
    if a == [] then FirstOf(b)
    else if b == [] || !Before(forwards, b[0].key, a[0].key) then FirstOf(a)
    else FirstOf(b)
  }

  lemma FirstOfMerge(forwards: bool, a: seq<Entry>, b: seq<Entry>)
    requires KeysApart(a, b)
    ensures FirstOf(Merge(forwards, a, b)) == Sooner(forwards, a, b)
    ensures FirstOf(Merge(forwards, b, a)) == Sooner(forwards, a, b)
  {
    hide Before;
    if a != [] && b != [] {
      BeforeOrder(forwards, a[0].key, b[0].key, a[0].key);
      BeforeOrder(forwards, b[0].key, a[0].key, b[0].key);
    }
  }

  lemma Opposite(forwards: bool, a: Key, b: Key)
    ensures Before(!forwards, a, b) <==> Before(forwards, b, a)
  {
  }

  /** A cursor that stands beyond the key is met first, and has nothing to do with what lies behind. */
  lemma Overshoots(back: bool, key: Key, mine: seq<Entry>, still: seq<Entry>)
    requires AllAfter(back, key, mine) && still != [] && Before(back, still[0].key, key)
    ensures Sooner(back, mine, still) == Some(still[0])
  {
    hide Before;
    if mine != [] {
      BeforeOrder(back, still[0].key, key, mine[0].key);
    }
  }

  /**
   Going back from `key`: `mine` is what the moved cursor has behind it, `other` what the other one
   has, and `still` is where the other one still stands, beyond the key, if it is on an entry.
   */
  lemma TurnExact(back: bool, key: Key, mine: seq<Entry>, other: seq<Entry>, still: seq<Entry>)
    requires AllAfter(back, key, mine) && AllAfter(back, key, other) && KeysApart(mine, other)
    requires still != [] ==> Before(back, still[0].key, key)
    ensures Sooner(back, mine, still) == Sooner(back, mine, other) <==> still == [] && Leads(back, mine, other)
  {
    hide Before;
    if still != [] {
      Overshoots(back, key, mine, still);
      if Sooner(back, mine, other) == Some(still[0]) {
        BeforeOrder(back, key, still[0].key, key);
      }
    } else if mine != [] && other != [] {
      BeforeOrder(back, mine[0].key, other[0].key, mine[0].key);
      BeforeOrder(back, other[0].key, mine[0].key, other[0].key);
    }
  }

  /** The first walk starts before the second, which may be empty. */
  predicate Leads(forwards: bool, mine: seq<Entry>, other: seq<Entry>) {
    other == [] || (mine != [] && Before(forwards, mine[0].key, other[0].key))
  }

  // ----- What lies behind belongs before the current entry -----

  lemma BehindAfter(forwards: bool, es: seq<Entry>, pos: int)
    requires 0 <= pos < |es| && Sorted(true, es)
    ensures AllAfter(!forwards, es[pos].key, Behind(forwards, es, pos))
  {
    hide Less;
  }

  /** What lies behind a sought key comes before any entry that is not below the key. */
  lemma SoughtBehind(es: seq<Entry>, pos: nat, key: Key, current: Key)
    requires pos <= |es| && (forall i :: 0 <= i < pos ==> Less(es[i].key, key)) && !Less(current, key)
    ensures AllAfter(false, current, Behind(true, es, pos))
  {
    hide Less;
    var behind := Behind(true, es, pos);
    forall i | 0 <= i < |behind|
      ensures Before(false, current, behind[i].key)
    {
      var e := es[pos - 1 - i];
      assert behind[i] == e;
      BeforeOrder(true, e.key, key, current);
      BeforeOrder(true, current, key, key);
    }
  }

  lemma AfterFurther(forwards: bool, far: Key, near: Key, es: seq<Entry>)
    requires Before(forwards, far, near) && AllAfter(forwards, near, es)
    ensures AllAfter(forwards, far, es)
  {
    hide Before;
    forall i | 0 <= i < |es|
      ensures Before(forwards, far, es[i].key)
    {
      BeforeOrder(forwards, far, near, es[i].key);
    }
  }

  lemma AfterPassing(back: bool, next: Key, passed: Entry, es: seq<Entry>)
    requires Before(!back, passed.key, next) && AllAfter(back, passed.key, es)
    ensures AllAfter(back, next, es) && AllAfter(back, next, [passed] + es)
  {
    hide Before;
    Opposite(back, passed.key, next);
    AfterFurther(back, next, passed.key, es);
  }

  lemma SortedConcat(forwards: bool, a: seq<Entry>, b: seq<Entry>)
    requires Sorted(forwards, a) && Sorted(forwards, b)
    requires forall i, j :: 0 <= i < |a| && 0 <= j < |b| ==> Before(forwards, a[i].key, b[j].key)
    ensures Sorted(forwards, a + b)
  {
    hide Before;
  }

  /** What is ahead, read back, goes before what is behind. */
  lemma ReadBackSorted(forwards: bool, ahead: seq<Entry>, behind: seq<Entry>)
    requires Sorted(forwards, ahead) && Sorted(!forwards, behind)
    requires ahead != [] ==> AllAfter(!forwards, ahead[0].key, behind)
    ensures Sorted(!forwards, Mirrored(ahead) + behind)
  {
    hide Before, Mirrored;
    var front := Mirrored(ahead);
    MirroredSorted(forwards, ahead);
    forall i, j | 0 <= i < |front| && 0 <= j < |behind|
      ensures Before(!forwards, front[i].key, behind[j].key)
    {
      var k := |ahead| - 1 - i;
      assert front[i] == ahead[k];
      if k > 0 {
        Opposite(forwards, ahead[k].key, ahead[0].key);
        BeforeOrder(!forwards, ahead[k].key, ahead[0].key, behind[j].key);
      }
    }
    SortedConcat(!forwards, front, behind);
  }
}
