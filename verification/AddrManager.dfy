/** The address manager's operations. Hashing, randomness and clocks are oracles. */
module AddrManager {
  import opened Wrappers
  import opened AddrBook

  /** A connected address is stamped again only after twenty minutes. */
  const REFRESH_SECONDS: int := 20 * 60

  /** A uniform choice below `n`; the source panics when `n` is not positive. */
  method Int31n(roll: int -> int, n: int) returns (r: int)
    requires n > 0
    ensures r == roll(n)
  {
    r := roll(n);
  }

  class AddrManager {
    var addrIndex: map<Key, Known>
    var addrNew: seq<set<Key>>
    var addrTried: seq<seq<Key>>
    var nNew: int
    var nTried: int

    function State(): Book
      reads this
    {
      Book(addrIndex, addrNew, addrTried, nNew, nTried)
    }

    ghost predicate Valid()
      reads this
    {
      Sound(State(), {})
    }

    constructor ()
      ensures Valid() && addrIndex == map[]
    {
      addrIndex, nNew, nTried := map[], 0, 0;
      addrNew := seq(NEW_BUCKETS, _ => {});
      addrTried := seq(TRIED_BUCKETS, _ => []);
      new;
      EmptyOk();
    }

    /** Deletes an address from a new bucket, and from the index when that was its last place. */
    method DropNew(bucket: nat, k: Key, ghost free: set<Key>)
      requires Sound(State(), free) && bucket < |addrNew| && k in addrNew[bucket] && k !in free
      modifies this
      ensures Sound(State(), free) && old(k in addrIndex) && State() == Drop(old(State()), bucket, k)
    {
      hide Sound;
      HeldIsKnown(State(), free, bucket, k);
      DropOk(State(), free, bucket, k);
      addrNew := addrNew[bucket := addrNew[bucket] - {k}];
      var ka := addrIndex[k].(refs := addrIndex[k].refs - 1);
      if ka.refs == 0 {
        nNew := nNew - 1;
        addrIndex := addrIndex - {k};
      } else {
        addrIndex := addrIndex[k := ka];
      }
    }

    /**
     Throws out the bad addresses of a bucket and, if any are left, the oldest of the rest.
     */
    method ExpireNew(bucket: nat, bad: Key -> bool, ghost free: set<Key>)
      requires Sound(State(), free) && bucket < |addrNew| && addrNew[bucket] !! free
      modifies this
      ensures Sound(State(), free) && OnlyBucket(old(State()), State(), bucket)
      ensures Expired(old(State()), addrNew[bucket], bucket, bad)
    {
      hide Sound;
      var todo := addrNew[bucket];
      var oldest: Option<Key> := None;
      ghost var before := State();
      EveryoneKnown(before, free, bucket);
      OnlyBucketSelf(before, bucket);
      while todo != {}
        invariant Sound(State(), free) && OnlyBucket(before, State(), bucket)
        invariant todo <= addrNew[bucket] <= before.untried[bucket]
        invariant forall k :: k in before.untried[bucket] ==> (k in addrNew[bucket] <==> k in todo || !bad(k))
        invariant forall k :: k in addrNew[bucket] ==> k in addrIndex && addrIndex[k] == before.index[k]
        invariant oldest.None? ==> addrNew[bucket] == todo
        invariant oldest.Some? ==> oldest.value in addrNew[bucket] && oldest.value !in todo
        invariant oldest.Some? ==> forall k :: k in addrNew[bucket] && k !in todo ==>
                    before.index[oldest.value].timestamp <= before.index[k].timestamp
        decreases |todo|
      {
        var k :| k in todo;
        if bad(k) {
          DropKeepsOthers(before, State(), bucket, k);
          DropNew(bucket, k, free);
        } else if oldest.None? || !(addrIndex[k].timestamp > addrIndex[oldest.value].timestamp) {
          oldest := Some(k);
        }
        todo := todo - {k};
      }
      ghost var kept := addrNew[bucket];
      if oldest.Some? {
        DropKeepsOthers(before, State(), bucket, oldest.value);
        DropNew(bucket, oldest.value, free);
      }
      ExpiredIs(before, kept, bucket, bad, oldest, addrNew[bucket]);
    }

    /**
     Updates a known address, or adds one that is not known. `roll` is the random source, `bucket`
     the bucket that hashing picks, `bad` the quality check.
     */
    method UpdateAddress(k: Key, routable: bool, news: Known, roll: int -> int, bucket: nat, bad: Key -> bool)
      requires Valid() && bucket < NEW_BUCKETS
      modifies this
      ensures Valid()
      ensures !routable ==> State() == old(State())
      ensures routable ==> k in addrIndex
      ensures routable && k !in old(addrIndex) ==>
                addrIndex[k] == news.(attempts := 0, tried := false, refs := 1) && k in addrNew[bucket]
      ensures routable && k in old(addrIndex) ==>
                Updated(old(addrIndex)[k], addrIndex[k], news, GainsPlace(old(State()), k, roll, bucket))
      ensures routable ==> Spread(old(State()), State(), k, bucket, bad, GainsPlace(old(State()), k, roll, bucket))
    {
      hide Sound, Spread, Holding, EntryAfter, Updated;
      if !routable {
        return;
      }
      ghost var before := State();
      SizesOk(State(), {});
      if k in addrIndex {
        Refresh(k, news);
        UpdatedMore(before.index[k], addrIndex[k], news);
        var more := WantsMore(k, roll);
        if !more {
          SpreadNone(before, State(), k, bucket, bad);
          return;
        }
        FreeWeaker(State(), k);
      } else {
        InsertOk(State(), k, news);
        HeldByStranger(State(), k, bucket);
        addrIndex := addrIndex[k := news.(attempts := 0, tried := false, refs := 0)];
        nNew := nNew + 1;
      }
      if k in addrNew[bucket] {
        StillSound(State(), k, bucket);
        SpreadNone(before, State(), k, bucket, bad);
        return;
      }
      ghost var ready := State();
      PlaceInBucket(k, bucket, bad);
      SpreadFrom(before, ready, State(), k, bucket, bad);
    }

    /** Takes over a later time of last sight and further services. */
    method Refresh(k: Key, news: Known)
      requires Valid() && k in addrIndex
      modifies this`addrIndex
      ensures Valid() && addrIndex.Keys == old(addrIndex).Keys
      ensures addrIndex == old(addrIndex)[k := addrIndex[k]] && Updated(old(addrIndex)[k], addrIndex[k], news, false)
    {
      hide Sound;
      var ka := addrIndex[k];
      if news.timestamp > ka.timestamp || !(news.services <= ka.services) {
        TouchOk(State(), {}, k, ka.(timestamp := news.timestamp, services := ka.services + news.services));
        addrIndex := addrIndex[k := ka.(timestamp := news.timestamp, services := ka.services + news.services)];
      }
    }

    /** Whether a known address gets one more place: the more it has, the less likely. */
    method WantsMore(k: Key, roll: int -> int) returns (more: bool)
      requires Valid() && k in addrIndex
      ensures more <==> && !addrIndex[k].tried && addrIndex[k].refs != BUCKETS_PER_ADDRESS
                        && roll(2 * addrIndex[k].refs) == 0
      ensures more ==> 1 <= addrIndex[k].refs < BUCKETS_PER_ADDRESS
    {
      hide Sound;
      var ka := addrIndex[k];
      if ka.tried {
        return false;
      }
      if ka.refs == BUCKETS_PER_ADDRESS {
        return false;
      }
      UntriedHeld(State(), k);
      var rolled := Int31n(roll, 2 * ka.refs);
      return rolled == 0;
    }

    /** Expires a bucket that is over full. */
    method MakeRoom(k: Key, bucket: nat, bad: Key -> bool)
      requires Sound(State(), {k}) && bucket < |addrNew| == NEW_BUCKETS && k in addrIndex && k !in addrNew[bucket]
      modifies this
      ensures Sound(State(), {k}) && OnlyBucket(old(State()), State(), bucket)
      ensures |addrNew| == NEW_BUCKETS && |addrNew[bucket]| <= NEW_BUCKET_SIZE && k !in addrNew[bucket]
      ensures k in addrIndex && addrIndex[k] == old(addrIndex[k])
      ensures if |old(addrNew)[bucket]| <= NEW_BUCKET_SIZE then State() == old(State())
              else Expired(old(State()), addrNew[bucket], bucket, bad)
    {
      hide Sound, Expired, OnlyBucket;
      ghost var before := State();
      SizesOk(before, {k});
      OnlyBucketSelf(before, bucket);
      if |addrNew[bucket]| > NEW_BUCKET_SIZE {
        ExpireNew(bucket, bad, {k});
        NotInBucket(before, State(), bucket, k);
        ExpiredSmaller(before, addrNew[bucket], bucket, bad);
      }
    }

    /** Makes room in the bucket if it is over full and puts the address there. */
    method PlaceInBucket(k: Key, bucket: nat, bad: Key -> bool)
      requires Sound(State(), {k}) && bucket < |addrNew| == NEW_BUCKETS && k in addrIndex && k !in addrNew[bucket]
      requires !addrIndex[k].tried && addrIndex[k].refs < BUCKETS_PER_ADDRESS
      modifies this
      ensures Valid() && k in addrIndex && !addrIndex[k].tried && k in addrNew[bucket]
      ensures addrIndex[k] == old(addrIndex[k].(refs := addrIndex[k].refs + 1))
      ensures Spread(old(State()), State(), k, bucket, bad, true)
    {
      hide Sound, Expired, OnlyBucket, Spread;
      ghost var before := State();
      MakeRoom(k, bucket, bad);
      ghost var thinned := State();
      AddOk(thinned, bucket, k);
      SpreadAdded(before, thinned, Add(thinned, bucket, k), k, bucket, bad);
      addrIndex := addrIndex[k := addrIndex[k].(refs := addrIndex[k].refs + 1)];
      addrNew := addrNew[bucket := addrNew[bucket] + {k}];
    }

    method Attempt(k: Key)
      requires Valid()
      modifies this
      ensures Valid() && addrNew == old(addrNew) && addrTried == old(addrTried)
      ensures addrIndex == if k in old(addrIndex) then
                old(addrIndex)[k := old(addrIndex)[k].(attempts := old(addrIndex)[k].attempts + 1)] else old(addrIndex)
    {
      hide Sound;
      if k in addrIndex {
        TouchOk(State(), {}, k, addrIndex[k].(attempts := addrIndex[k].attempts + 1));
        addrIndex := addrIndex[k := addrIndex[k].(attempts := addrIndex[k].attempts + 1)];
      }
    }

    /** Stamps a known address with the time, unless that was done recently. */
    method Connected(k: Key, now: int)
      requires Valid()
      modifies this
      ensures Valid() && addrNew == old(addrNew) && addrTried == old(addrTried)
      ensures addrIndex == if k in old(addrIndex) && now > old(addrIndex)[k].timestamp + 1200 then
                old(addrIndex)[k := old(addrIndex)[k].(timestamp := now)] else old(addrIndex)
    {
      hide Sound;
      if k in addrIndex && now > addrIndex[k].timestamp + REFRESH_SECONDS {
        TouchOk(State(), {}, k, addrIndex[k].(timestamp := now));
        addrIndex := addrIndex[k := addrIndex[k].(timestamp := now)];
      }
    }

    method SetServices(k: Key, services: set<nat>)
      requires Valid()
      modifies this
      ensures Valid() && addrNew == old(addrNew) && addrTried == old(addrTried)
      ensures addrIndex == if k in old(addrIndex) then
                old(addrIndex)[k := old(addrIndex)[k].(services := services)] else old(addrIndex)
    {
      hide Sound;
      if k in addrIndex && addrIndex[k].services != services {
        TouchOk(State(), {}, k, addrIndex[k].(services := services));
        addrIndex := addrIndex[k := addrIndex[k].(services := services)];
      }
    }

    /** The slot of the eldest address of a full tried bucket. */
    method PickTried(bucket: nat) returns (p: nat)
      requires bucket < |addrTried| && addrTried[bucket] != []
      requires forall i :: 0 <= i < |addrTried[bucket]| ==> addrTried[bucket][i] in addrIndex
      ensures p < |addrTried[bucket]|
      ensures forall i :: 0 <= i < |addrTried[bucket]| ==>
                addrIndex[addrTried[bucket][p]].timestamp <= addrIndex[addrTried[bucket][i]].timestamp
      ensures forall i :: 0 <= i < p ==>
                addrIndex[addrTried[bucket][p]].timestamp < addrIndex[addrTried[bucket][i]].timestamp
    {
      p := 0;
      for e := 1 to |addrTried[bucket]|
        invariant 0 <= p < e
        invariant forall i :: 0 <= i < e ==>
                    addrIndex[addrTried[bucket][p]].timestamp <= addrIndex[addrTried[bucket][i]].timestamp
        invariant forall i :: 0 <= i < p ==>
                    addrIndex[addrTried[bucket][p]].timestamp < addrIndex[addrTried[bucket][i]].timestamp
      {
        if addrIndex[addrTried[bucket][p]].timestamp > addrIndex[addrTried[bucket][e]].timestamp {
          p := e;
        }
      }
    }

    /** Deletes an address from every new bucket and finds the first that held it. */
    method ClearNew(k: Key) returns (first: int)
      requires Valid() && k in addrIndex && !addrIndex[k].tried && |addrNew| == NEW_BUCKETS
      modifies this`addrNew, this`addrIndex
      ensures addrNew == Without(old(addrNew), k)
      ensures addrIndex == old(addrIndex)[k := old(addrIndex)[k].(refs := 0)]
      ensures 0 <= first < NEW_BUCKETS && k in old(addrNew)[first]
      ensures forall i :: 0 <= i < first ==> k !in old(addrNew)[i]
    {
      hide Sound, Holding;
      ghost var was := addrNew;
      ghost var index := addrIndex;
      first := -1;
      HoldingNone(k);
      UntriedHeld(State(), k);
      assert was[..0] == [];
      for i := 0 to NEW_BUCKETS
        invariant |addrNew| == NEW_BUCKETS
        invariant forall j :: 0 <= j < i ==> addrNew[j] == was[j] - {k}
        invariant forall j :: i <= j < NEW_BUCKETS ==> addrNew[j] == was[j]
        invariant addrIndex == index[k := index[k].(refs := index[k].refs - Holding(was[..i], k))]
        invariant first == -1 ==> Holding(was[..i], k) == 0
        invariant first == -1 || (0 <= first < i && k in was[first])
        invariant forall j :: 0 <= j < (if first == -1 then i else first) ==> k !in was[j]
      {
        HoldingPrefix(was, i, k);
        if k in addrNew[i] {
          addrNew := addrNew[i := addrNew[i] - {k}];
          addrIndex := addrIndex[k := addrIndex[k].(refs := addrIndex[k].refs - 1)];
          if first == -1 {
            first := i;
          }
        } else {
          assert addrNew[i] == was[i] - {k};
        }
      }
      assert was[..NEW_BUCKETS] == was;
      assert addrNew == Without(was, k);
    }

    /**
     Moves an address to the tried bucket `triedBucket`. When that bucket is full, the eldest
     address of it goes back to a new bucket: the one `newBucket` picks or, when that has no room,
     the first one that the moved address has just left.
     */
    method Good(k: Key, triedBucket: nat, newBucket: Key -> nat)
      requires Valid() && triedBucket < TRIED_BUCKETS && forall a :: newBucket(a) < NEW_BUCKETS
      modifies this
      ensures Valid()
      ensures k !in old(addrIndex) ==> State() == old(State())
      ensures k in old(addrIndex) ==>
                Moved(Touch(old(State()), k, old(addrIndex)[k].(attempts := 0)), State(), k, triedBucket, newBucket)
    {
      hide Sound;
      if k !in addrIndex {
        return;
      }
      TouchOk(State(), {}, k, addrIndex[k].(attempts := 0));
      addrIndex := addrIndex[k := addrIndex[k].(attempts := 0)];
      ghost var b := State();
      SizesOk(b, {});
      if addrIndex[k].tried {
        return;
      }
      var first := ClearNew(k);
      nNew := nNew - 1;
      var room := |addrTried[triedBucket]| < TRIED_BUCKET_SIZE;
      if room {
        PromoteOk(b, k, triedBucket);
        addrIndex := addrIndex[k := addrIndex[k].(tried := true)];
        addrTried := addrTried[triedBucket := addrTried[triedBucket] + [k]];
        nTried := nTried + 1;
        assert State() == Promote(b, k, triedBucket);
        return;
      }
      Evict(b, k, triedBucket, newBucket, first);
    }

    method Evict(ghost b: Book, k: Key, t: nat, newBucket: Key -> nat, first: int)
      requires Sound(b, {}) && t < |b.tried| == TRIED_BUCKETS && k in b.index && !b.index[k].tried
      requires |b.untried| == NEW_BUCKETS && |b.tried[t]| >= TRIED_BUCKET_SIZE
      requires forall a :: newBucket(a) < NEW_BUCKETS
      requires 0 <= first < NEW_BUCKETS && FirstPlace(b, k, first)
      requires addrIndex == b.index[k := b.index[k].(refs := 0)] && addrNew == Without(b.untried, k)
      requires addrTried == b.tried && nNew == b.nNew - 1 && nTried == b.nTried
      modifies this
      ensures Valid() && Moved(b, State(), k, t, newBucket)
    {
      hide Sound;
      forall i | 0 <= i < |addrTried[t]|
        ensures addrTried[t][i] in addrIndex
      {
        SlotKnown(b, t, i);
      }
      var p := PickTried(t);
      var out := addrTried[t][p];
      SlotKnown(b, t, p);
      var bucket := RoomyBucket(b, k, newBucket(out), first);
      SwapOk(b, k, t, p, bucket);
      Exchange(b, k, t, p, bucket);
      assert Eldest(b, t, p) && Roomy(b, k, newBucket(out), bucket) && State() == Swap(b, k, t, p, bucket);
    }

    /** The bucket for the evicted address: the picked one if it has room, else the one just left. */
    method RoomyBucket(ghost b: Book, k: Key, picked: nat, first: int) returns (bucket: nat)
      requires picked < NEW_BUCKETS == |b.untried| && 0 <= first < NEW_BUCKETS && FirstPlace(b, k, first)
      requires addrNew == Without(b.untried, k)
      ensures bucket < NEW_BUCKETS && Roomy(b, k, picked, bucket)
      ensures k in b.untried[bucket] || |b.untried[bucket]| <= NEW_BUCKET_SIZE
    {
      bucket := picked;
      if |addrNew[bucket]| >= NEW_BUCKET_SIZE {
        bucket := first;
      }
      SmallerWithout(b.untried[bucket], k);
      WithoutAt(b.untried, k, bucket);
      WithoutAt(b.untried, k, picked);
    }

    method Exchange(ghost b: Book, k: Key, t: nat, p: nat, bucket: nat)
      requires t < |b.tried| && p < |b.tried[t]| && bucket < |b.untried| && k in b.index && b.tried[t][p] in b.index
      requires k != b.tried[t][p]
      requires addrIndex == b.index[k := b.index[k].(refs := 0)] && addrNew == Without(b.untried, k)
      requires addrTried == b.tried && nNew == b.nNew - 1 && nTried == b.nTried
      modifies this
      ensures State() == Swap(b, k, t, p, bucket)
    {
      var out := addrTried[t][p];
      addrIndex := addrIndex[k := addrIndex[k].(tried := true)];
      addrTried := addrTried[t := addrTried[t][p := k]];
      addrIndex := addrIndex[out := addrIndex[out].(tried := false, refs := addrIndex[out].refs + 1)];
      nNew := nNew + 1;
      addrNew := addrNew[bucket := addrNew[bucket] + {out}];
    }
  }

  /**
   A known address keeps all services it ever had. It takes over the time of the news when that is
   later or the news brings a service, so that its time goes back exactly when an older sighting
   brings a service.
   */
  ghost predicate Updated(a: Known, c: Known, news: Known, gains: bool) {
    && c.services == a.services + news.services
    && c.timestamp == (if news.timestamp > a.timestamp || !(news.services <= a.services)
                       then news.timestamp else a.timestamp)
    && (c.timestamp >= a.timestamp <==> news.timestamp >= a.timestamp || news.services <= a.services)
    && c.source == a.source && c.attempts == a.attempts && c.tried == a.tried
    && c.refs == a.refs + One(gains)
  }

  lemma UpdatedMore(a: Known, c: Known, news: Known)
    requires Updated(a, c, news, false)
    ensures Updated(a, c.(refs := c.refs + 1), news, true) && c.tried == a.tried && c.refs == a.refs
  {
  }

  /** An entry when only places in one bucket were given up: it counts one place less, or is gone with the last. */
  ghost predicate EntryAfter(b: Book, c: Book, bucket: nat, o: Key)
    requires bucket < |b.untried| == |c.untried|
  {
    if o !in b.index then o !in c.index
    else if o in b.untried[bucket] && o !in c.untried[bucket] then
      if b.index[o].refs == 1 then o !in c.index
      else o in c.index && c.index[o] == b.index[o].(refs := b.index[o].refs - 1)
    else o in c.index && c.index[o] == b.index[o]
  }

  /** An address gets a place in the bucket: it is not there, and if known the draw is for it. */
  ghost predicate GainsPlace(b: Book, k: Key, roll: int -> int, bucket: nat) {
    && bucket < |b.untried| && k !in b.untried[bucket]
    && (k in b.index ==> var a := b.index[k]; !a.tried && a.refs < 8 && roll(2 * a.refs) == 0)
  }

  /**
   What an update of `k` does to the rest: the bucket gains `k` or stays as it is; only when it
   gains `k` and held more than 64 addresses does it first lose the bad and the oldest of the rest.
   */
  ghost predicate Spread(b: Book, c: Book, k: Key, bucket: nat, bad: Key -> bool, gains: bool) {
    && bucket < |b.untried| == |c.untried|
    && c.untried == b.untried[bucket := c.untried[bucket]] && c.tried == b.tried && c.nTried == b.nTried
    && (forall o :: o != k ==> EntryAfter(b, c, bucket, o))
    && if !gains then c.untried[bucket] == b.untried[bucket]
       else
         && k in c.untried[bucket]
         && if |b.untried[bucket]| <= 64 then c.untried[bucket] == b.untried[bucket] + {k}
            else Expired(b, c.untried[bucket] - {k}, bucket, bad)
  }

  lemma SpreadNone(b: Book, c: Book, k: Key, bucket: nat, bad: Key -> bool)
    requires bucket < |b.untried| && c.untried == b.untried && c.tried == b.tried && c.nTried == b.nTried
    requires forall o :: o != k ==> (o in c.index <==> o in b.index) && (o in b.index ==> c.index[o] == b.index[o])
    ensures Spread(b, c, k, bucket, bad, false)
  {
    assert c.untried == b.untried[bucket := c.untried[bucket]];
  }

  /** Changing the entry of `k` beforehand makes no difference to the rest. */
  lemma SpreadFrom(b: Book, r: Book, c: Book, k: Key, bucket: nat, bad: Key -> bool)
    requires Spread(r, c, k, bucket, bad, true) && r.untried == b.untried && r.tried == b.tried && r.nTried == b.nTried
    requires forall o :: o != k ==> (o in r.index <==> o in b.index) && (o in b.index ==> r.index[o] == b.index[o])
    requires k !in b.untried[bucket]
    ensures Spread(b, c, k, bucket, bad, true)
  {
    hide Expired;
    if |b.untried[bucket]| > NEW_BUCKET_SIZE {
      ExpiredSame(b, r, c.untried[bucket] - {k}, bucket, bad);
    }
    forall o | o != k
      ensures EntryAfter(b, c, bucket, o)
    {
      assert EntryAfter(r, c, bucket, o);
    }
  }

  lemma ExpiredSame(b: Book, r: Book, left: set<Key>, bucket: nat, bad: Key -> bool)
    requires bucket < |b.untried| && r.untried == b.untried && Expired(r, left, bucket, bad)
    requires forall o :: o in b.untried[bucket] && o in r.index ==> o in b.index && r.index[o] == b.index[o]
    ensures Expired(b, left, bucket, bad)
  {
    assert Decent(r, bucket, bad) == Decent(b, bucket, bad);
  }

  lemma SpreadAdded(b: Book, t: Book, c: Book, k: Key, bucket: nat, bad: Key -> bool)
    requires OnlyBucket(b, t, bucket) && k in t.index && k !in t.untried[bucket] && k !in b.untried[bucket]
    requires if |b.untried[bucket]| <= NEW_BUCKET_SIZE then t == b else Expired(b, t.untried[bucket], bucket, bad)
    requires c == Add(t, bucket, k)
    ensures Spread(b, c, k, bucket, bad, true)
  {
    hide Expired;
    assert c.untried[bucket] - {k} == t.untried[bucket];
    assert c.untried == b.untried[bucket := c.untried[bucket]];
    forall o | o != k
      ensures EntryAfter(b, c, bucket, o)
    {
      assert EntryAfter(b, t, bucket, o);
    }
  }

  /** Slot `p` holds the oldest address of the tried bucket, the first of several. */
  ghost predicate Eldest(b: Book, t: nat, p: nat) {
    && t < |b.tried| && p < |b.tried[t]| && b.tried[t][p] in b.index
    && (forall i :: 0 <= i < |b.tried[t]| ==>
         b.tried[t][i] in b.index && b.index[b.tried[t][p]].timestamp <= b.index[b.tried[t][i]].timestamp)
    && (forall i :: 0 <= i < p ==> b.index[b.tried[t][p]].timestamp < b.index[b.tried[t][i]].timestamp)
  }

  /** The first new bucket that holds an address. */
  ghost predicate FirstPlace(b: Book, k: Key, n: nat) {
    n < |b.untried| && k in b.untried[n] && forall i :: 0 <= i < n ==> k !in b.untried[i]
  }

  /** The picked bucket if it has room without `k`, else the first one that `k` leaves. */
  ghost predicate Roomy(b: Book, k: Key, picked: nat, n: nat) {
    picked < |b.untried| && if |b.untried[picked] - {k}| < 64 then n == picked else FirstPlace(b, k, n)
  }

  /**
   An address is tried from now on; a full bucket gives up its eldest address for it, which goes
   to the bucket picked for it or to the first one that the moved address has left.
   */
  ghost predicate Moved(b: Book, c: Book, k: Key, t: nat, newBucket: Key -> nat) {
    && k in b.index && t < |b.tried|
    && if b.index[k].tried then c == b
       else if |b.tried[t]| < 256 then c == Promote(b, k, t)
       else exists p: nat, n: nat ::
              && Eldest(b, t, p) && n < |b.untried| && Roomy(b, k, newBucket(b.tried[t][p]), n)
              && c == Swap(b, k, t, p, n)
  }

  lemma SizesOk(b: Book, free: set<Key>)
    requires Sound(b, free)
    ensures |b.untried| == NEW_BUCKETS && |b.tried| == TRIED_BUCKETS
    ensures forall i :: 0 <= i < |b.untried| ==> |b.untried[i]| <= NEW_BUCKET_SIZE + 1
  {
    hide Placed, Counted;
  }

  lemma FreeWeaker(b: Book, k: Key)
    requires Sound(b, {})
    ensures Sound(b, {k})
  {
    hide Holding, Slots, Counted, Bounded;
    forall other | other in b.index
      ensures PlacesOk(b, other, Least(other, {k}))
    {
      assert PlacesOk(b, other, Least(other, {}));
    }
  }

  /** An address that turns out to be in the bucket already had a place after all. */
  lemma StillSound(b: Book, k: Key, bucket: nat)
    requires Sound(b, {k}) && bucket < |b.untried| && k in b.untried[bucket]
    ensures Sound(b, {})
  {
    hide Holding, Slots, Counted, Bounded;
    HeldSomewhere(b.untried, k, bucket);
    forall other | other in b.index
      ensures PlacesOk(b, other, Least(other, {}))
    {
      assert PlacesOk(b, other, Least(other, {k}));
    }
  }

  lemma HeldByStranger(b: Book, k: Key, bucket: nat)
    requires Sound(b, {}) && k !in b.index && bucket < |b.untried|
    ensures k !in b.untried[bucket]
  {
    hide Sound;
    if k in b.untried[bucket] {
      HeldIsKnown(b, {}, bucket, k);
    }
  }

  lemma SlotKnown(b: Book, t: nat, p: nat)
    requires Sound(b, {}) && t < |b.tried| && p < |b.tried[t]|
    ensures b.tried[t][p] in b.index && b.index[b.tried[t][p]].tried
  {
    hide Placed, Counted, Bounded;
    TriedSlot(b, t, p);
  }

  /** Everything but one new bucket is as before, and entries change only with places given up there. */
  ghost predicate OnlyBucket(b: Book, c: Book, bucket: nat) {
    && |c.untried| == |b.untried| && bucket < |b.untried|
    && c.untried == b.untried[bucket := c.untried[bucket]]
    && c.tried == b.tried && c.nTried == b.nTried
    && (forall o :: EntryAfter(b, c, bucket, o))
  }

  lemma OnlyBucketSelf(b: Book, bucket: nat)
    requires bucket < |b.untried|
    ensures OnlyBucket(b, b, bucket)
  {
  }

  lemma NotInBucket(b: Book, c: Book, bucket: nat, k: Key)
    requires OnlyBucket(b, c, bucket) && k in b.index && k !in b.untried[bucket]
    ensures |c.untried| == |b.untried| && k in c.index && c.index[k] == b.index[k]
  {
    assert EntryAfter(b, c, bucket, k);
  }

  lemma EveryoneKnown(b: Book, free: set<Key>, bucket: nat)
    requires Sound(b, free) && bucket < |b.untried|
    ensures forall k :: k in b.untried[bucket] ==> k in b.index
  {
    forall k | k in b.untried[bucket]
      ensures k in b.index
    {
      HeldIsKnown(b, free, bucket, k);
    }
  }

  lemma DropKeepsOthers(b: Book, c: Book, bucket: nat, k: Key)
    requires OnlyBucket(b, c, bucket) && k in c.index && k in c.untried[bucket] && k in b.untried[bucket]
    ensures OnlyBucket(b, Drop(c, bucket, k), bucket)
    ensures Drop(c, bucket, k).untried[bucket] == c.untried[bucket] - {k}
    ensures forall other :: other != k && other in c.index ==>
              other in Drop(c, bucket, k).index && Drop(c, bucket, k).index[other] == c.index[other]
  {
    var d := Drop(c, bucket, k);
    assert d.untried == b.untried[bucket := d.untried[bucket]];
    forall o
      ensures EntryAfter(b, d, bucket, o)
    {
      assert EntryAfter(b, c, bucket, o) && EntryAfter(b, c, bucket, k);
    }
  }

  /** The addresses of a bucket that are not bad. */
  ghost function Decent(b: Book, bucket: nat, bad: Key -> bool): set<Key>
    requires bucket < |b.untried|
  {
    set k | k in b.untried[bucket] && !bad(k)
  }

  /** What is left after expiry: all that are not bad, except one that no other is older than. */
  ghost predicate Expired(b: Book, left: set<Key>, bucket: nat, bad: Key -> bool)
    requires bucket < |b.untried|
  {
    var decent := Decent(b, bucket, bad);
    || (decent == {} && left == {})
    || (exists o :: && o in decent && left == decent - {o}
                    && o in b.index && (forall k :: k in decent ==>
                         k in b.index && b.index[o].timestamp <= b.index[k].timestamp))
  }

  lemma ExpiredIs(b: Book, kept: set<Key>, bucket: nat, bad: Key -> bool, oldest: Option<Key>, left: set<Key>)
    requires bucket < |b.untried| && kept <= b.untried[bucket]
    requires forall k :: k in b.untried[bucket] ==> k in b.index && (k in kept <==> !bad(k))
    requires oldest.None? ==> kept == {} && left == kept
    requires oldest.Some? ==> oldest.value in kept && left == kept - {oldest.value}
    requires oldest.Some? ==> forall k :: k in kept ==> b.index[oldest.value].timestamp <= b.index[k].timestamp
    ensures Expired(b, left, bucket, bad)
  {
    assert kept == Decent(b, bucket, bad);
  }

  /** Expiry makes room. */
  lemma ExpiredSmaller(b: Book, left: set<Key>, bucket: nat, bad: Key -> bool)
    requires bucket < |b.untried| && Expired(b, left, bucket, bad) && b.untried[bucket] != {}
    ensures |left| < |b.untried[bucket]| && left <= b.untried[bucket]
  {
    assert Decent(b, bucket, bad) <= b.untried[bucket];
    assert left < b.untried[bucket];
    SmallerSubset(left, b.untried[bucket]);
  }

  lemma SmallerSubset(a: set<Key>, b: set<Key>)
    requires a <= b
    ensures a < b ==> |a| < |b|
  {
    if a < b {
      assert b == a + (b - a);
    }
  }
}
