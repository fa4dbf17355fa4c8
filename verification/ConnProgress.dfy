/**
 That the connection manager keeps trying: no pending request is left without something under way
 for it, and the pool of requests that `Start` set off does not shrink unless callers end them.
 */
module ConnProgress {
  import opened Wrappers
  import opened ConnManager

  // ----- Something is under way for every pending request -----

  /** A flight that will lead back to the handler about this request. */
  predicate For(f: Flight, id: Id) {
    match f
    case Address(i) => i == id
    case Connect(i) => i == id
    case Dial(i) => i == id
    case SendConnected(i, _) => i == id
    case SendFailed(i) => i == id
    case Replace(i) => i == id
    case _ => false
  }

  ghost predicate Served(s: State, id: Id) {
    exists f :: f in s.flights && For(f, id)
  }

  /** A request that may be given up: it is not permanent and there is nowhere to get another address. */
  predicate Dispensable(s: State, id: Id) {
    id !in s.permanent && !s.hasSource
  }

  ghost predicate Tended(s: State, id: Id) {
    && id in s.status && s.status[id] != Canceled
    && (Served(s, id) || Dispensable(s, id))
  }

  ghost predicate AllTended(s: State) {
    forall id :: id in s.pending ==> Tended(s, id)
  }

  lemma TurnHas(s: State, f: Flight, next: multiset<Flight>, g: Flight)
    requires f in s.flights && ((g in s.flights && g != f) || g in next)
    ensures g in Turn(s, f, next).flights
  {
  }

  /** The same request, with all that was under way for it and perhaps more. */
  lemma TendedMore(s: State, t: State, id: Id)
    requires Tended(s, id) && (forall f :: f in s.flights && For(f, id) ==> f in t.flights)
    requires id in t.status && t.status[id] != Canceled && t.hasSource == s.hasSource
    requires id in t.permanent <==> id in s.permanent
    ensures Tended(t, id)
  {
    if Served(s, id) {
      var f :| f in s.flights && For(f, id);
      assert f in t.flights;
    }
  }

  lemma CallerTends(s: State, a: Action)
    requires AllTended(s) && FreshIds(s) && CallerStep(s, a).Some?
    ensures AllTended(CallerStep(s, a).value)
  {
    hide Copies, Tended;
    var t := CallerStep(s, a).value;
    forall id | id in t.pending
      ensures Tended(t, id)
    {
      assert Somewhere(s, id) && id <= s.count;
      StatusKnown(s, id);
      TendedMore(s, t, id);
    }
  }

  lemma StatusKnown(s: State, id: Id)
    requires Tended(s, id)
    ensures id in s.status && s.status[id] != Canceled
  {
  }

  /** A goroutine that acts for a request that is still wanted goes on acting for it. */
  lemma FlightGoesOn(s: State, a: Action, id: Id)
    requires FlightStep(s, a).Some? && !s.stopped && FlightAction(a) && For(Ends(a), id)
    requires id in s.status && s.status[id] != Canceled && (a.GetAddress? || a.BeginConnect? || a.DialDone?)
    ensures exists f :: f in FlightStep(s, a).value.flights && For(f, id)
  {
    var t := FlightStep(s, a).value;
    var next := GoesOnAs(s, a, id);
    TurnHas(s, Ends(a), multiset{next}, next);
    assert next in t.flights;
  }

  function GoesOnAs(s: State, a: Action, id: Id): (f: Flight)
    requires FlightAction(a) && For(Ends(a), id) && (a.GetAddress? || a.BeginConnect? || a.DialDone?)
    ensures For(f, id)
  {
    match a
    case GetAddress(_, ok) => if ok then Connect(id) else SendFailed(id)
    case BeginConnect(_) => Dial(id)
    case DialDone(_, ok) => if ok then SendConnected(id, s.dialed + 1) else SendFailed(id)
  }

  lemma RunningFlight(s: State, a: Action)
    requires FlightStep(s, a).Some? && !s.stopped
    ensures a.BeginSpawn? || a.GetAddress? || a.BeginConnect? || a.DialDone?
  {
  }

  lemma FlightTends(s: State, a: Action)
    requires AllTended(s) && !s.stopped && FlightStep(s, a).Some?
    ensures AllTended(FlightStep(s, a).value)
  {
    hide FlightStep;
    var next := FlightMoves(s, a);
    var t := FlightStep(s, a).value;
    forall id | id in t.pending
      ensures Tended(t, id)
    {
      assert Tended(s, id);
      if For(Ends(a), id) {
        RunningFlight(s, a);
        FlightGoesOn(s, a, id);
      } else {
        TendedMore(s, t, id);
      }
    }
  }

  /** What a failure sets off: the same request again, or another in its place. */
  lemma FailureSetsOff(s: State, id: Id, reconnect: bool)
    ensures s.stopped ==> AfterFailure(s, id, reconnect) == multiset{}
    ensures !s.stopped && (id in s.permanent || reconnect) ==> AfterFailure(s, id, reconnect) == multiset{Connect(id)}
    ensures !s.stopped && id !in s.permanent && !reconnect ==>
              AfterFailure(s, id, reconnect) == if s.hasSource then multiset{Replace(id)} else multiset{}
  {
  }

  /** What concerns the other requests is as before. */
  ghost predicate Aside(s: State, t: State, id: Id) {
    && t.permanent == s.permanent && t.hasSource == s.hasSource && t.pending <= s.pending + {id}
    && (forall f :: f in s.flights ==> f in t.flights)
    && (forall i :: i != id && i in s.status ==> i in t.status && t.status[i] == s.status[i])
  }

  lemma AsideTwice(s: State, t: State, u: State, id: Id)
    requires Aside(s, t, id) && Aside(t, u, id)
    ensures Aside(s, u, id)
  {
  }

  lemma EndAside(s: State, id: Id)
    ensures Aside(s, End(s, id), id) && Aside(s, Forget(s, id), id) && Aside(s, Cancel(s, id), id) && Aside(s, s, id)
    ensures id in s.conns ==> Aside(s, Close(s, id), id)
  {
  }

  lemma RequeueAside(s: State, id: Id, next: multiset<Flight>)
    ensures Aside(s, Requeue(s, id, next), id)
  {
  }

  lemma GoneAside(s: State, id: Id, retry: bool, reconnect: bool)
    ensures Aside(s, HandleGone(s, id, retry, reconnect), id)
  {
    hide AfterFailure, Aside, Close, End, Forget, Cancel, Requeue;
    EndAside(s, id);
    if id in s.conns {
      var t := Close(s, id);
      EndAside(t, id);
      RequeueAside(t, id, AfterFailure(s, id, reconnect));
      AsideTwice(s, t, HandleGone(s, id, retry, reconnect), id);
    }
  }

  /** A request that is pending after its disconnect was established and is tried again. */
  lemma GoneAgain(s: State, id: Id, retry: bool, reconnect: bool)
    requires Apart(s) && !s.stopped && id in HandleGone(s, id, retry, reconnect).pending
    ensures Tended(HandleGone(s, id, retry, reconnect), id)
  {
    hide AfterFailure;
    var t := HandleGone(s, id, retry, reconnect);
    FailureSetsOff(s, id, reconnect);
    assert id in s.conns && t.status[id] == Pending && t.flights == s.flights + AfterFailure(s, id, reconnect);
    if id in s.permanent || reconnect {
      assert Connect(id) in t.flights;
    } else if s.hasSource {
      assert Replace(id) in t.flights;
    }
  }

  lemma GoneTends(s: State, id: Id, retry: bool, reconnect: bool)
    requires AllTended(s) && Apart(s) && !s.stopped
    ensures AllTended(HandleGone(s, id, retry, reconnect))
  {
    hide HandleGone, Apart;
    var t := HandleGone(s, id, retry, reconnect);
    GoneAside(s, id, retry, reconnect);
    forall i | i in t.pending
      ensures Tended(t, i)
    {
      if i == id {
        GoneAgain(s, id, retry, reconnect);
      } else {
        assert Tended(s, i);
        TendedMore(s, t, i);
      }
    }
  }

  lemma RegisterTends(s: State, id: Id, caller: bool)
    requires AllTended(s) && HandlerStep(s, HandleRegister(id, caller)).Some?
    ensures AllTended(HandlerStep(s, HandleRegister(id, caller)).value)
  {
    var t := HandlerStep(s, HandleRegister(id, caller)).value;
    var f, next := if caller then RegisterCaller(id) else Register(id), if caller then Dial(id) else Address(id);
    TurnHas(s, f, multiset{next}, next);
    forall i | i in t.pending
      ensures Tended(t, i)
    {
      if i == id {
        assert next in t.flights && For(next, id);
      } else {
        assert Tended(s, i);
        TendedMore(s, t, i);
      }
    }
  }

  lemma ConnectedTends(s: State, id: Id, conn: Conn)
    requires AllTended(s) && HandlerStep(s, HandleConnected(id, conn)).Some?
    ensures AllTended(HandlerStep(s, HandleConnected(id, conn)).value)
  {
    var t := HandlerStep(s, HandleConnected(id, conn)).value;
    forall i | i in t.pending
      ensures Tended(t, i)
    {
      assert Tended(s, i) && i != id;
      TendedMore(s, t, i);
    }
  }

  /** A pending request that failed is tried again or replaced, unless it is dispensable. */
  lemma FailedAgain(s: State, id: Id, t: State)
    requires !s.stopped && id in s.pending && SendFailed(id) in s.flights
    requires t.flights == Turn(s, SendFailed(id), AfterFailure(s, id, false)).flights
    requires t.permanent == s.permanent && t.hasSource == s.hasSource && id in t.status && t.status[id] == Failing
    ensures Tended(t, id)
  {
    hide AfterFailure;
    FailureSetsOff(s, id, false);
    if !Dispensable(s, id) {
      var f := if id in s.permanent then Connect(id) else Replace(id);
      TurnHas(s, SendFailed(id), AfterFailure(s, id, false), f);
    }
  }

  lemma FailedTends(s: State, id: Id)
    requires AllTended(s) && !s.stopped && HandlerStep(s, HandleFailed(id)).Some?
    ensures AllTended(HandlerStep(s, HandleFailed(id)).value)
  {
    hide AfterFailure;
    var t := HandlerStep(s, HandleFailed(id)).value;
    forall i | i in t.pending
      ensures Tended(t, i)
    {
      assert Tended(s, i);
      if i != id {
        TendedMore(s, t, i);
      } else {
        FailedAgain(s, id, t);
      }
    }
  }

  lemma ReplaceTends(s: State, id: Id)
    requires AllTended(s) && Apart(s) && !s.stopped && HandlerStep(s, HandleReplace(id)).Some?
    ensures AllTended(HandlerStep(s, HandleReplace(id)).value)
  {
    var m := Turn(s, Replace(id), multiset{Spawn});
    var t := HandlerStep(s, HandleReplace(id)).value;
    forall i | i in t.pending
      ensures Tended(t, i)
    {
      assert i != id && Tended(s, i);
      forall f | f in s.flights && For(f, i)
        ensures f in t.flights
      {
        TurnHas(s, Replace(id), multiset{Spawn}, f);
      }
      TendedMore(s, t, i);
    }
  }

  lemma HandlerTends(s: State, a: Action)
    requires AllTended(s) && Apart(s) && !s.stopped && HandlerStep(s, a).Some?
    ensures AllTended(HandlerStep(s, a).value)
  {
    hide Apart, HandleGone, Tended;
    match a
    case HandleRegister(id, caller) => RegisterTends(s, id, caller);
    case HandleConnected(id, conn) => ConnectedTends(s, id, conn);
    case HandleFailed(id) => FailedTends(s, id);
    case HandleReplace(id) => ReplaceTends(s, id);
    case HandleDisconnect(id, retry, reconnect) =>
      GoneTends(s, id, retry, reconnect);
      RecordTends(HandleGone(s, id, retry, reconnect), HandlerStep(s, a).value);
  }

  lemma RecordTends(s: State, t: State)
    requires AllTended(s) && t == s.(removed := t.removed)
    ensures AllTended(t)
  {
    forall id | id in t.pending
      ensures Tended(t, id)
    {
      assert Tended(s, id);
      TendedMore(s, t, id);
    }
  }

  // ----- Every request is accounted for -----

  predicate InRegistration(s: State, id: Id) {
    Register(id) in s.flights || RegisterCaller(id) in s.flights
  }

  /** Every id ever given out is on its way to the handler or known to it. */
  ghost predicate Placed(s: State) {
    forall id: Id :: 1 <= id <= s.count ==> InRegistration(s, id) || Somewhere(s, id)
  }

  /**
   The ids given out, and the goroutines about to get one, are as many as were set off by `Start`, by
   callers and in place of failed requests; those that were removed have ended, and besides them only
   those that were replaced.
   */
  predicate Counted(s: State) {
    && (s.hasSource ==> s.flights[Spawn] + s.count == s.spawned + s.replaced + s.created)
    && s.removed <= |s.ended| <= s.removed + s.replaced
    && (s.called == 0 ==> s.dropped == {})
    && if s.started then s.target <= s.spawned + s.created
       else s.count == s.created && s.spawned == 0 && s.flights[Spawn] == 0
  }

  ghost predicate Going(s: State) {
    !s.stopped ==> AllTended(s) && Placed(s) && Counted(s)
  }

  lemma PlacedMore(s: State, t: State)
    requires Placed(s) && t.count == s.count
    requires forall id: Id :: Somewhere(s, id) ==> Somewhere(t, id)
    requires forall id: Id :: InRegistration(s, id) ==> InRegistration(t, id) || Somewhere(t, id)
    ensures Placed(t)
  {
  }

  lemma {:induction false} SpawnCopies(n: nat)
    ensures Copies(n)[Spawn] == n
  {
    if n > 0 {
      SpawnCopies(n - 1);
    }
  }

  lemma CallerPlaces(s: State, a: Action)
    requires Placed(s) && CallerStep(s, a).Some?
    ensures Placed(CallerStep(s, a).value)
  {
    hide Copies, Somewhere;
    var t := CallerStep(s, a).value;
    forall id: Id | 1 <= id <= t.count
      ensures InRegistration(t, id) || Somewhere(t, id)
    {
      SomewhereSame(s, t, id);
      assert id <= s.count ==> InRegistration(s, id) || Somewhere(s, id);
    }
  }

  lemma SomewhereSame(s: State, t: State, id: Id)
    requires t.pending == s.pending && t.conns == s.conns && t.ended == s.ended && t.dropped == s.dropped
    ensures Somewhere(t, id) == Somewhere(s, id)
  {
  }

  lemma CallerCounts(s: State, a: Action)
    requires Counted(s) && CallerStep(s, a).Some?
    ensures Counted(CallerStep(s, a).value)
  {
    hide Copies;
    if a.Start? {
      SpawnCopies(if s.count < s.target then s.target - s.count else 0);
    }
  }

  lemma FlightPlaces(s: State, a: Action)
    requires Placed(s) && !s.stopped && FlightStep(s, a).Some?
    ensures Placed(FlightStep(s, a).value)
  {
    hide FlightStep, Somewhere;
    var next := FlightMoves(s, a);
    var t := FlightStep(s, a).value;
    RunningFlight(s, a);
    forall id: Id | 1 <= id <= t.count
      ensures InRegistration(t, id) || Somewhere(t, id)
    {
      SomewhereSame(s, t, id);
      TurnCounts(s, Ends(a), Bag(next), Register(id));
      TurnCounts(s, Ends(a), Bag(next), RegisterCaller(id));
      assert id <= s.count ==> InRegistration(s, id) || Somewhere(s, id);
    }
  }

  lemma SpawnGivesId(s: State)
    requires FlightStep(s, BeginSpawn).Some? && !s.stopped && s.hasSource
    ensures FlightStep(s, BeginSpawn).value.count == s.count + 1
    ensures FlightStep(s, BeginSpawn).value.flights[Spawn] == s.flights[Spawn] - 1
  {
    TurnCounts(s, Spawn, multiset{Register(s.count + 1)}, Spawn);
  }

  lemma AddressGivesNone(s: State, id: Id, ok: bool)
    requires FlightStep(s, GetAddress(id, ok)).Some?
    ensures var t := FlightStep(s, GetAddress(id, ok)).value; t.count == s.count && t.flights[Spawn] == s.flights[Spawn]
  {
    TurnCounts(s, Address(id), multiset{if ok then Connect(id) else SendFailed(id)}, Spawn);
  }

  lemma ConnectGivesNone(s: State, id: Id)
    requires FlightStep(s, BeginConnect(id)).Some?
    ensures var t := FlightStep(s, BeginConnect(id)).value; t.count == s.count && t.flights[Spawn] == s.flights[Spawn]
  {
    TurnCounts(s, Connect(id), multiset{}, Spawn);
    TurnCounts(s, Connect(id), multiset{Dial(id)}, Spawn);
  }

  lemma DialGivesNone(s: State, id: Id, ok: bool)
    requires FlightStep(s, DialDone(id, ok)).Some?
    ensures var t := FlightStep(s, DialDone(id, ok)).value; t.count == s.count && t.flights[Spawn] == s.flights[Spawn]
  {
    TurnCounts(s, Dial(id), multiset{SendFailed(id)}, Spawn);
    TurnCounts(s, Dial(id), multiset{SendConnected(id, s.dialed + 1)}, Spawn);
  }

  lemma FlightCounts(s: State, a: Action)
    requires Counted(s) && !s.stopped && FlightStep(s, a).Some?
    ensures Counted(FlightStep(s, a).value)
  {
    hide FlightStep;
    var next := FlightMoves(s, a);
    var t := FlightStep(s, a).value;
    RunningFlight(s, a);
    if a.BeginSpawn? {
      TurnCounts(s, Spawn, Bag(next), Spawn);
      if s.hasSource {
        SpawnGivesId(s);
      }
    } else if a.GetAddress? {
      AddressGivesNone(s, a.id, a.ok);
    } else if a.BeginConnect? {
      ConnectGivesNone(s, a.id);
    } else {
      DialGivesNone(s, a.id, a.ok);
    }
  }

  // ----- Disconnecting -----

  predicate SameCounts(s: State, t: State) {
    && t.flights[Spawn] == s.flights[Spawn] && t.count == s.count && t.spawned == s.spawned && t.called == s.called
    && t.created == s.created && t.started == s.started && t.target == s.target && t.hasSource == s.hasSource
  }

  /** What a disconnect is made of leaves the counts alone and says which requests are over. */
  lemma PartsCount(s: State, id: Id)
    ensures SameCounts(s, End(s, id)) && SameCounts(s, Forget(s, id)) && SameCounts(s, Cancel(s, id))
    ensures id in s.conns ==> SameCounts(s, Close(s, id))
  {
  }

  lemma RequeueCounts(s: State, id: Id, next: multiset<Flight>)
    requires Spawn !in next
    ensures SameCounts(s, Requeue(s, id, next))
  {
  }

  predicate SameRecord(s: State, t: State) {
    t.replaced == s.replaced && t.removed == s.removed
  }

  lemma PartsOver(s: State, id: Id, next: multiset<Flight>)
    ensures var t := End(s, id); t.ended == s.ended + {id} && t.dropped == s.dropped && SameRecord(s, t)
    ensures var t := Cancel(s, id); t.ended == s.ended + {id} && t.dropped == s.dropped && SameRecord(s, t)
    ensures var t := Forget(s, id); t.ended == s.ended && t.dropped == s.dropped + {id} && SameRecord(s, t)
    ensures var t := Requeue(s, id, next); t.ended == s.ended && t.dropped == s.dropped && SameRecord(s, t)
    ensures id in s.conns ==> var t := Close(s, id); t.ended == s.ended && t.dropped == s.dropped && SameRecord(s, t)
  {
  }

  lemma GoneCounts(s: State, id: Id, retry: bool, reconnect: bool)
    ensures SameCounts(s, HandleGone(s, id, retry, reconnect))
  {
    hide AfterFailure, Close, End, Forget, Cancel, Requeue;
    PartsCount(s, id);
    if id in s.conns {
      PartsCount(Close(s, id), id);
      RequeueCounts(Close(s, id), id, AfterFailure(s, id, reconnect));
    }
  }

  /** A disconnect ends a request: a pending one, or an established one that is not to be retried. */
  predicate EndsRequest(s: State, id: Id, retry: bool) {
    if id in s.conns then !retry else id in s.pending
  }

  lemma GoneEnds(s: State, id: Id, retry: bool, reconnect: bool)
    ensures var t := HandleGone(s, id, retry, reconnect);
      && SameRecord(s, t) && t.ended == (if EndsRequest(s, id, retry) then s.ended + {id} else s.ended)
      && (t.dropped == s.dropped ||
          (t.dropped == s.dropped + {id} && retry && id in s.conns && id !in s.permanent
           && |Close(s, id).conns| >= s.target))
  {
    hide AfterFailure, Close, End, Forget, Cancel, Requeue;
    PartsOver(s, id, multiset{});
    if id in s.conns {
      PartsOver(Close(s, id), id, AfterFailure(s, id, reconnect));
    }
  }

  /** Other requests stay where they are. */
  ghost predicate SamePlaces(s: State, t: State, id: Id) {
    && t.count == s.count
    && (forall i: Id :: i != id && Somewhere(s, i) ==> Somewhere(t, i))
    && (forall i: Id :: InRegistration(s, i) ==> InRegistration(t, i))
  }

  lemma EndPlaces(s: State, id: Id)
    ensures SamePlaces(s, End(s, id), id) && Somewhere(End(s, id), id)
    ensures SamePlaces(s, Forget(s, id), id) && Somewhere(Forget(s, id), id)
  {
  }

  lemma CancelPlaces(s: State, id: Id)
    ensures SamePlaces(s, Cancel(s, id), id) && Somewhere(Cancel(s, id), id) && SamePlaces(s, s, id)
    ensures id in s.conns ==> SamePlaces(s, Close(s, id), id)
  {
  }

  lemma RequeuePlaces(s: State, id: Id, next: multiset<Flight>)
    ensures SamePlaces(s, Requeue(s, id, next), id) && Somewhere(Requeue(s, id, next), id)
  {
  }

  lemma PlacesTwice(s: State, t: State, u: State, id: Id)
    requires SamePlaces(s, t, id) && SamePlaces(t, u, id)
    ensures SamePlaces(s, u, id)
  {
    hide Somewhere, InRegistration;
  }

  lemma GonePlaces(s: State, id: Id, retry: bool, reconnect: bool)
    ensures var t := HandleGone(s, id, retry, reconnect);
      SamePlaces(s, t, id) && (Somewhere(s, id) ==> Somewhere(t, id))
  {
    hide AfterFailure, Close, End, Forget, Cancel, Requeue, SamePlaces, Somewhere;
    CancelPlaces(s, id);
    if id in s.conns {
      var t := Close(s, id);
      EndPlaces(t, id);
      RequeuePlaces(t, id, AfterFailure(s, id, reconnect));
      PlacesTwice(s, t, HandleGone(s, id, retry, reconnect), id);
    }
  }

  // ----- The handler -----

  lemma CountedSame(s: State, t: State)
    requires Counted(s) && SameCounts(s, t) && SameRecord(s, t) && t.ended == s.ended && t.dropped == s.dropped
    ensures Counted(t)
  {
  }

  lemma GoneCounted(s: State, id: Id, retry: bool, reconnect: bool)
    requires Counted(s) && Slots(s) && Apart(s) && s.started
    ensures var t := HandleGone(s, id, retry, reconnect);
      Counted(t.(removed := s.removed + if EndsRequest(s, id, retry) then 1 else 0))
  {
    hide HandleGone, Close;
    GoneCounts(s, id, retry, reconnect);
    GoneEnds(s, id, retry, reconnect);
    if id in s.conns {
      CloseCount(s, id);
    }
  }

  lemma ReplaceCounted(s: State, id: Id)
    requires Counted(s) && s.started && Replace(id) in s.flights
    ensures Counted(HandleGone(Turn(s, Replace(id), multiset{Spawn}), id, false, false).(replaced := s.replaced + 1))
  {
    hide HandleGone;
    var m := Turn(s, Replace(id), multiset{Spawn});
    TurnCounts(s, Replace(id), multiset{Spawn}, Spawn);
    GoneCounts(m, id, false, false);
    GoneEnds(m, id, false, false);
    SubsetSize(s.ended, s.ended + {id});
  }

  lemma TurnSame(s: State, f: Flight, next: multiset<Flight>)
    requires f in s.flights && f != Spawn && Spawn !in next
    ensures SameCounts(s, Turn(s, f, next)) && SameRecord(s, Turn(s, f, next))
  {
    TurnCounts(s, f, next, Spawn);
  }

  lemma RegisterCounted(s: State, id: Id, f: Flight, next: Flight)
    requires Counted(s) && f in s.flights && (f.Register? || f.RegisterCaller?) && (next.Dial? || next.Address?)
    ensures Counted(Registered(s, id, f, next))
  {
    hide Counted;
    TurnSame(s, f, multiset{next});
    CountedSame(s, Registered(s, id, f, next));
  }

  lemma ConnectedCounted(s: State, id: Id, conn: Conn)
    requires Counted(s) && HandlerStep(s, HandleConnected(id, conn)).Some?
    ensures Counted(HandlerStep(s, HandleConnected(id, conn)).value)
  {
    hide Counted, Turn;
    var m, t := Turn(s, SendConnected(id, conn), multiset{}), HandlerStep(s, HandleConnected(id, conn)).value;
    TurnSame(s, SendConnected(id, conn), multiset{});
    TurnOver(s, SendConnected(id, conn), multiset{});
    CountedSame(s, m);
    CountedSame(m, t);
  }

  lemma TurnOver(s: State, f: Flight, next: multiset<Flight>)
    ensures Turn(s, f, next).ended == s.ended && Turn(s, f, next).dropped == s.dropped
  {
  }

  lemma FailedCounted(s: State, id: Id)
    requires Counted(s) && HandlerStep(s, HandleFailed(id)).Some?
    ensures Counted(HandlerStep(s, HandleFailed(id)).value)
  {
    hide Counted, AfterFailure, Turn;
    var next := if id in s.pending then AfterFailure(s, id, false) else multiset{};
    var m, t := Turn(s, SendFailed(id), next), HandlerStep(s, HandleFailed(id)).value;
    TurnSame(s, SendFailed(id), next);
    TurnOver(s, SendFailed(id), next);
    CountedSame(s, m);
    assert t == m || t == m.(status := t.status);
    CountedSame(m, t);
  }

  lemma HandlerCounts(s: State, a: Action)
    requires Counted(s) && Slots(s) && Apart(s) && HandlerStep(s, a).Some?
    ensures Counted(HandlerStep(s, a).value)
  {
    hide HandleGone, AfterFailure, Slots, Counted, Apart;
    match a
    case HandleRegister(id, caller) =>
      RegisterCounted(s, id, if caller then RegisterCaller(id) else Register(id), if caller then Dial(id) else Address(id));
    case HandleConnected(id, conn) => ConnectedCounted(s, id, conn);
    case HandleFailed(id) => FailedCounted(s, id);
    case HandleReplace(id) => ReplaceCounted(s, id);
    case HandleDisconnect(id, retry, reconnect) => GoneCounted(s, id, retry, reconnect);
    case Exit => CountedSame(s, HandlerStep(s, a).value);
  }

  lemma TurnPlaces(s: State, f: Flight, next: multiset<Flight>)
    requires Placed(s) && f in s.flights && !f.Register? && !f.RegisterCaller?
    ensures Placed(Turn(s, f, next))
  {
    var t := Turn(s, f, next);
    forall id: Id
      ensures InRegistration(s, id) ==> InRegistration(t, id)
      ensures Somewhere(s, id) ==> Somewhere(t, id)
    {
      SomewhereSame(s, t, id);
    }
    PlacedMore(s, t);
  }

  lemma RegisterPlaces(s: State, id: Id, f: Flight, next: Flight)
    requires Placed(s) && f in s.flights && (f == Register(id) || f == RegisterCaller(id))
    ensures Placed(Registered(s, id, f, next))
  {
    var t := Registered(s, id, f, next);
    forall i: Id
      ensures InRegistration(s, i) ==> InRegistration(t, i) || Somewhere(t, i)
    {
      TurnCounts(s, f, multiset{next}, Register(i));
      TurnCounts(s, f, multiset{next}, RegisterCaller(i));
    }
    PlacedMore(s, t);
  }

  lemma GonePlaced(s: State, id: Id, retry: bool, reconnect: bool)
    requires Placed(s)
    ensures Placed(HandleGone(s, id, retry, reconnect))
  {
    hide HandleGone, Somewhere, InRegistration;
    GonePlaces(s, id, retry, reconnect);
    PlacedMore(s, HandleGone(s, id, retry, reconnect));
  }

  lemma ConnectedPlaces(s: State, id: Id, conn: Conn)
    requires Placed(s) && HandlerStep(s, HandleConnected(id, conn)).Some?
    ensures Placed(HandlerStep(s, HandleConnected(id, conn)).value)
  {
    var m, t := Turn(s, SendConnected(id, conn), multiset{}), HandlerStep(s, HandleConnected(id, conn)).value;
    TurnPlaces(s, SendConnected(id, conn), multiset{});
    PlacedMore(m, t);
  }

  lemma HandlerPlaces(s: State, a: Action)
    requires Placed(s) && HandlerStep(s, a).Some?
    ensures Placed(HandlerStep(s, a).value)
  {
    hide HandleGone, AfterFailure, Placed, Somewhere;
    var t := HandlerStep(s, a).value;
    match a
    case HandleRegister(id, caller) =>
      RegisterPlaces(s, id, if caller then RegisterCaller(id) else Register(id), if caller then Dial(id) else Address(id));
    case HandleConnected(id, conn) => ConnectedPlaces(s, id, conn);
    case HandleFailed(id) =>
      TurnPlaces(s, SendFailed(id), AfterFailure(s, id, false));
      TurnPlaces(s, SendFailed(id), multiset{});
      RecordPlaces(Turn(s, SendFailed(id), AfterFailure(s, id, false)), t);
    case HandleReplace(id) =>
      TurnPlaces(s, Replace(id), multiset{Spawn});
      GonePlaced(Turn(s, Replace(id), multiset{Spawn}), id, false, false);
      RecordPlaces(HandleGone(Turn(s, Replace(id), multiset{Spawn}), id, false, false), t);
    case HandleDisconnect(id, retry, reconnect) =>
      GonePlaced(s, id, retry, reconnect);
      RecordPlaces(HandleGone(s, id, retry, reconnect), t);
    case Exit => RecordPlaces(s, t);
  }

  lemma RecordPlaces(s: State, t: State)
    ensures Placed(s) && t == s.(status := t.status, exited := t.exited, replaced := t.replaced, removed := t.removed) ==>
              Placed(t)
  {
    if Placed(s) && t == s.(status := t.status, exited := t.exited, replaced := t.replaced, removed := t.removed) {
      PlacedMore(s, t);
    }
  }

  // ----- Whole runs -----

  lemma StopStays(s: State, a: Action)
    requires Step(s, a).Some? && s.stopped
    ensures Step(s, a).value.stopped
  {
    hide Copies, AfterFailure, HandleGone;
    if a.HandleReplace? {
      GoneStopped(Turn(s, Replace(a.id), multiset{Spawn}), a.id, false, false);
    } else if a.HandleDisconnect? {
      GoneStopped(s, a.id, a.retry, a.reconnect);
    }
  }

  lemma GoneStopped(s: State, id: Id, retry: bool, reconnect: bool)
    ensures HandleGone(s, id, retry, reconnect).stopped == s.stopped
  {
    hide AfterFailure;
  }

  lemma GoingStep(s: State, a: Action)
    requires Invariant(s) && Going(s) && Step(s, a).Some?
    ensures Going(Step(s, a).value)
  {
    hide CallerStep, FlightStep, HandlerStep, AllTended, Placed, Counted, Apart, FreshIds, Held, FreshConns, Slots, StatusOk;
    if s.stopped {
      StopStays(s, a);
    } else if CallerStep(s, a).Some? {
      CallerTends(s, a);
      CallerPlaces(s, a);
      CallerCounts(s, a);
    } else if FlightStep(s, a).Some? {
      FlightTends(s, a);
      FlightPlaces(s, a);
      FlightCounts(s, a);
    } else {
      HandlerTends(s, a);
      HandlerPlaces(s, a);
      HandlerCounts(s, a);
    }
  }

  lemma {:induction false} RunGoes(s: State, acts: seq<Action>)
    requires Invariant(s) && Going(s) && Run(s, acts).Some?
    ensures Going(Run(s, acts).value)
    decreases |acts|
  {
    hide Step, Invariant, Going;
    if acts != [] {
      StepKeeps(s, acts[0]);
      GoingStep(s, acts[0]);
      RunGoes(Step(s, acts[0]).value, acts[1..]);
    }
  }

  lemma ReachableGoing(s: State)
    requires Reachable(s)
    ensures Going(s)
  {
    hide Invariant, Going;
    var acts :| Run(Init(s.target, s.hasSource), acts) == Some(s);
    InitInvariant(s.target, s.hasSource);
    InitGoing(s.target, s.hasSource);
    RunGoes(Init(s.target, s.hasSource), acts);
  }

  lemma InitGoing(target: nat, hasSource: bool)
    ensures Going(Init(target, hasSource))
  {
  }

  /**
   Until the manager is stopped, something is under way for every pending request that is permanent,
   and with an address source for every pending request.
   */
  lemma NoOrphan(s: State, id: Id)
    requires Reachable(s) && !s.stopped && id in s.pending
    ensures Served(s, id) || Dispensable(s, id)
  {
    hide Reachable, Placed, Counted;
    ReachableGoing(s);
  }

  function IdsUpto(n: nat): (ids: set<Id>)
    ensures |ids| == n && forall id :: id in ids <==> 1 <= id <= n
  {
    if n == 0 then {} else IdsUpto(n - 1) + {n}
  }

  /** The ids on their way to the handler. */
  function InRegistrationIds(s: State): set<Id> {
    set id: nat | 1 <= id <= s.count && InRegistration(s, id)
  }

  /** The requests that are being made or established, those about to get an id included. */
  function Pool(s: State): nat {
    s.flights[Spawn] + |InRegistrationIds(s)| + |s.pending| + |s.conns|
  }

  lemma UnionSize(a: set<Id>, b: set<Id>)
    ensures |a + b| <= |a| + |b|
  {
    assert a + b == a + (b - a);
    assert |b - a| <= |b| by { SubsetSize(b - a, b); }
  }

  lemma SubsetSize(a: set<Id>, b: set<Id>)
    requires a <= b
    ensures |a| <= |b|
  {
    assert b == a + (b - a);
  }

  /** No id is lost. */
  lemma IdsFit(s: State)
    requires Placed(s)
    ensures s.count <= |InRegistrationIds(s)| + |s.pending| + |s.conns| + |s.ended| + |s.dropped|
  {
    hide InRegistration;
    var r, k := InRegistrationIds(s), s.conns.Keys;
    var all := r + s.pending + k + s.ended + s.dropped;
    forall id | id in IdsUpto(s.count)
      ensures id in all
    {
      assert InRegistration(s, id) || Somewhere(s, id);
    }
    assert IdsUpto(s.count) <= all;
    SubsetSize(IdsUpto(s.count), all);
    UnionSize(r + s.pending + k + s.ended, s.dropped);
    UnionSize(r + s.pending + k, s.ended);
    UnionSize(r + s.pending, k);
    UnionSize(r, s.pending);
  }

  /**
   With an address source and until it is stopped, the manager keeps its pool: what `Start` set off
   and callers created, less what callers removed and what was dropped as not needed. Left to
   itself it has at least the target number of requests made or established, in every state.
   */
  lemma PoolKept(s: State)
    requires Reachable(s) && !s.stopped && s.hasSource
    ensures s.spawned + s.created <= Pool(s) + s.removed + |s.dropped|
    ensures s.started ==> s.target <= Pool(s) + s.removed + |s.dropped|
    ensures s.started && s.called == 0 && s.removed == 0 ==> s.target <= Pool(s)
  {
    hide Reachable, AllTended, Placed;
    ReachableGoing(s);
    IdsFit(s);
  }

  // ----- What a disconnect comes to -----

  /**
   An established request that is disconnected loses its connection. It is pending again, and tried
   again or replaced, exactly when fewer than the target number of others remain or it is
   permanent; otherwise it is dropped. One that is removed has ended. Other requests stay.
   */
  lemma DisconnectExact(s: State, id: Id, retry: bool, reconnect: bool)
    requires Reachable(s) && id in s.conns
    ensures var t := HandleGone(s, id, retry, reconnect);
      && t.conns == s.conns - {id} && t.closed == s.closed + {s.conns[id]}
      && (id in t.pending <==> retry && (|s.conns| <= s.target || id in s.permanent))
      && (id in t.dropped <==> retry && |s.conns| > s.target && id !in s.permanent)
      && (id in t.ended <==> !retry)
      && t.flights == s.flights + (if id !in t.pending || s.stopped then multiset{}
                                   else if id in s.permanent || reconnect then multiset{Connect(id)}
                                   else if s.hasSource then multiset{Replace(id)} else multiset{})
      && t.pending - {id} == s.pending - {id}
  {
    hide Reachable, FreshIds, Held, FreshConns, Slots, StatusOk, AfterFailure, Close, End, Forget, Requeue, Cancel;
    ReachableInvariant(s);
    CloseCount(s, id);
    FailureSetsOff(s, id, reconnect);
    CloseFields(s, id);
    PartsFields(Close(s, id), id, AfterFailure(s, id, reconnect));
  }

  lemma CloseFields(s: State, id: Id)
    requires id in s.conns
    ensures var t := Close(s, id);
      && t.conns == s.conns - {id} && t.closed == s.closed + {s.conns[id]} && t.flights == s.flights
      && t.pending == s.pending && t.dropped == s.dropped && t.ended == s.ended
  {
  }

  lemma PartsFields(s: State, id: Id, next: multiset<Flight>)
    ensures var t := End(s, id);
      && t.conns == s.conns && t.closed == s.closed && t.flights == s.flights + multiset{}
      && t.pending == s.pending && t.dropped == s.dropped && t.ended == s.ended + {id}
    ensures var t := Forget(s, id);
      && t.conns == s.conns && t.closed == s.closed && t.flights == s.flights + multiset{}
      && t.pending == s.pending && t.dropped == s.dropped + {id} && t.ended == s.ended
    ensures var t := Requeue(s, id, next);
      && t.conns == s.conns && t.closed == s.closed && t.flights == s.flights + next
      && t.pending == s.pending + {id} && t.dropped == s.dropped && t.ended == s.ended
  {
  }

  /** One caller's request that is not permanent, over no source, after `Start`. */
  function OneCaller(fs: multiset<Flight>, pending: set<Id>, status: map<Id, Status>): State {
    Init(1, false).(started := true, count := 1, called := 1, created := 1, flights := fs, pending := pending,
                    status := status)
  }

  lemma OneRequested()
    ensures Reachable(OneCaller(multiset{RegisterCaller(1)}, {}, map[]))
  {
    var s0 := Init(1, false);
    assert Run(Init(s0.target, s0.hasSource), []) == Some(s0);
    var s1 := s0.(count := 1, called := 1, created := 1, flights := s0.flights + multiset{RegisterCaller(1)});
    CallerReaches(s0, ConnectNew(false), s1);
    var s2 := s1.(started := true, flights := s1.flights + Copies(0));
    CallerReaches(s1, Start, s2);
    assert s2.flights == multiset{RegisterCaller(1)};
  }

  lemma OneFailed()
    ensures Reachable(OneCaller(multiset{SendFailed(1)}, {1}, map[1 := Pending]))
  {
    hide Reachable, HandleGone;
    OneRequested();
    var s2 := OneCaller(multiset{RegisterCaller(1)}, {}, map[]);
    var s3 := OneCaller(s2.flights - multiset{RegisterCaller(1)} + multiset{Dial(1)}, {} + {1}, map[1 := Pending]);
    assert RegisterCaller(1) in s2.flights && HandlerStep(s2, HandleRegister(1, true)) == Some(s3);
    HandlerReaches(s2, HandleRegister(1, true), s3);
    var s4 := OneCaller(s3.flights - multiset{Dial(1)} + multiset{SendFailed(1)}, {} + {1}, map[1 := Pending]);
    assert Dial(1) in s3.flights && FlightStep(s3, DialDone(1, false)) == Some(s4);
    FlightReaches(s3, DialDone(1, false), s4);
    assert s4.flights == multiset{SendFailed(1)} && s4.pending == {1};
  }

  /** A request that is not permanent can be left pending with nothing under way when there is no source. */
  lemma OrphanWithoutSource()
    ensures exists s :: Reachable(s) && !s.stopped && !s.hasSource && 1 in s.pending && s.flights == multiset{}
  {
    hide Reachable, HandleGone;
    OneFailed();
    var s4 := OneCaller(multiset{SendFailed(1)}, {1}, map[1 := Pending]);
    var s5 := OneCaller(s4.flights - multiset{SendFailed(1)} + multiset{}, {1}, map[1 := Pending][1 := Failing]);
    assert SendFailed(1) in s4.flights && HandlerStep(s4, HandleFailed(1)) == Some(s5);
    HandlerReaches(s4, HandleFailed(1), s5);
    assert s5.flights == multiset{};
  }

  // ----- Permanent requests -----

  /** A permanent request is never dropped or replaced, and only ids that were given out are replaced. */
  ghost predicate Lasting(s: State) {
    && (forall id :: id in s.permanent ==> id !in s.dropped && Replace(id) !in s.flights && id <= s.count)
    && (forall id: Id :: Replace(id) in s.flights ==> id <= s.count)
    && (forall id :: id in s.dropped ==> id <= s.count)
  }

  /** No flight to replace a request is new, except perhaps one for a request that is not permanent. */
  lemma LastingMore(s: State, t: State, id: Id)
    requires Lasting(s) && t.permanent == s.permanent && t.count >= s.count
    requires id in s.permanent || id > s.count ==> t.dropped <= s.dropped && (Replace(id) in t.flights ==> Replace(id) in s.flights)
    requires t.dropped <= s.dropped + {id}
    requires forall i: Id :: i != id && Replace(i) in t.flights ==> Replace(i) in s.flights
    ensures Lasting(t)
  {
  }

  lemma CallerLasts(s: State, a: Action)
    requires Lasting(s) && CallerStep(s, a).Some?
    ensures Lasting(CallerStep(s, a).value) && s.permanent <= CallerStep(s, a).value.permanent
  {
    hide Copies;
    var t := CallerStep(s, a).value;
    forall id: Id | Replace(id) in t.flights
      ensures Replace(id) in s.flights
    {
      if a.Start? {
        CopiesPlain(if s.count < s.target then s.target - s.count else 0, Replace(id));
      }
    }
  }

  lemma TurnNoReplace(s: State, f: Flight, next: multiset<Flight>, id: Id)
    requires f in s.flights && Replace(id) !in next && Replace(id) in Turn(s, f, next).flights
    ensures Replace(id) in s.flights
  {
    TurnCounts(s, f, next, Replace(id));
  }

  /** What a goroutine's flight turns into. */
  function TurnsInto(s: State, a: Action): multiset<Flight>
    requires FlightAction(a)
  {
    match a
    case BeginSpawn => if s.stopped || !s.hasSource then multiset{} else multiset{Register(s.count + 1)}
    case GetAddress(id, ok) => multiset{if ok then Connect(id) else SendFailed(id)}
    case BeginConnect(id) =>
      if s.stopped || (id in s.status && s.status[id] == Canceled) then multiset{} else multiset{Dial(id)}
    case DialDone(id, ok) => multiset{if ok then SendConnected(id, s.dialed + 1) else SendFailed(id)}
    case Abandon(_) => multiset{}
  }

  lemma TurnFields(s: State, f: Flight, next: multiset<Flight>)
    ensures var t := Turn(s, f, next); t.dropped == s.dropped && t.permanent == s.permanent && t.count == s.count
  {
  }

  lemma TurnsAs(s: State, a: Action)
    requires FlightStep(s, a).Some? && FlightAction(a)
    ensures Ends(a) in s.flights
    ensures var t := FlightStep(s, a).value;
      t.flights == Turn(s, Ends(a), TurnsInto(s, a)).flights && t.dropped == s.dropped && t.permanent == s.permanent
      && t.count >= s.count
  {
    hide Turn;
    TurnFields(s, Ends(a), TurnsInto(s, a));
  }

  lemma FlightLasts(s: State, a: Action)
    requires Lasting(s) && FlightStep(s, a).Some?
    ensures Lasting(FlightStep(s, a).value) && FlightStep(s, a).value.permanent == s.permanent
  {
    hide FlightStep, Turn;
    var next := FlightMoves(s, a);
    var t := FlightStep(s, a).value;
    TurnsAs(s, a);
    forall id: Id | Replace(id) in t.flights
      ensures Replace(id) in s.flights
    {
      TurnNoReplace(s, Ends(a), TurnsInto(s, a), id);
    }
    LastingMore(s, t, 0);
  }

  lemma GoneFlights(s: State, id: Id, retry: bool, reconnect: bool)
    ensures var t := HandleGone(s, id, retry, reconnect);
      && t.permanent == s.permanent && t.count == s.count
      && (t.flights == s.flights || (id in s.conns && t.flights == s.flights + AfterFailure(s, id, reconnect)))
  {
    hide AfterFailure, Close, End, Forget, Requeue, Cancel;
    GoneAside(s, id, retry, reconnect);
    GoneCounts(s, id, retry, reconnect);
    CancelFlights(s, id);
    if id in s.conns {
      CloseFields(s, id);
      PartsFields(Close(s, id), id, AfterFailure(s, id, reconnect));
    }
  }

  lemma CancelFlights(s: State, id: Id)
    ensures Cancel(s, id).flights == s.flights
  {
  }

  lemma GoneLasts(s: State, id: Id, retry: bool, reconnect: bool)
    requires Lasting(s) && FreshIds(s)
    ensures Lasting(HandleGone(s, id, retry, reconnect))
    ensures HandleGone(s, id, retry, reconnect).permanent == s.permanent
  {
    hide HandleGone, AfterFailure, Close;
    var t := HandleGone(s, id, retry, reconnect);
    GoneFlights(s, id, retry, reconnect);
    GoneEnds(s, id, retry, reconnect);
    FailureSetsOff(s, id, reconnect);
    assert id in s.conns ==> Somewhere(s, id) && id <= s.count;
    LastingMore(s, t, id);
  }

  lemma TurnLasts(s: State, f: Flight, next: multiset<Flight>)
    requires Lasting(s) && f in s.flights && forall i: Id :: Replace(i) !in next
    ensures Lasting(Turn(s, f, next))
  {
    hide Turn;
    var t := Turn(s, f, next);
    TurnOver(s, f, next);
    TurnFrame(s, f, next);
    forall id: Id | Replace(id) in t.flights
      ensures Replace(id) in s.flights
    {
      TurnNoReplace(s, f, next, id);
    }
    LastingMore(s, t, 0);
  }

  lemma TurnFrame(s: State, f: Flight, next: multiset<Flight>)
    ensures Turn(s, f, next).permanent == s.permanent && Turn(s, f, next).count == s.count
  {
  }

  lemma LastingSame(s: State, t: State)
    requires Lasting(s) && t.permanent == s.permanent && t.count == s.count && t.dropped == s.dropped
    requires t.flights == s.flights
    ensures Lasting(t)
  {
  }

  lemma FailedLasts(s: State, id: Id)
    requires Lasting(s) && FreshIds(s) && SendFailed(id) in s.flights && id in s.pending
    ensures Lasting(Turn(s, SendFailed(id), AfterFailure(s, id, false)))
  {
    hide Turn, AfterFailure;
    var next := AfterFailure(s, id, false);
    var t := Turn(s, SendFailed(id), next);
    FailureSetsOff(s, id, false);
    TurnOver(s, SendFailed(id), next);
    TurnFrame(s, SendFailed(id), next);
    assert Somewhere(s, id) && id <= s.count;
    forall i: Id | Replace(i) in t.flights && (i != id || id in s.permanent)
      ensures Replace(i) in s.flights
    {
      TurnNoReplace(s, SendFailed(id), next, i);
    }
    LastingMore(s, t, id);
  }

  lemma MessageLasts(s: State, a: Action)
    requires Lasting(s) && FreshIds(s) && HandlerStep(s, a).Some? && !a.HandleReplace? && !a.HandleDisconnect?
    ensures Lasting(HandlerStep(s, a).value) && HandlerStep(s, a).value.permanent == s.permanent
  {
    hide AfterFailure, Turn, Lasting, FreshIds;
    var t := HandlerStep(s, a).value;
    match a
    case HandleRegister(id, caller) =>
      var f, next := if caller then RegisterCaller(id) else Register(id), multiset{if caller then Dial(id) else Address(id)};
      TurnLasts(s, f, next);
      TurnFrame(s, f, next);
      LastingSame(Turn(s, f, next), t);
    case HandleConnected(id, conn) =>
      TurnLasts(s, SendConnected(id, conn), multiset{});
      TurnFrame(s, SendConnected(id, conn), multiset{});
      LastingSame(Turn(s, SendConnected(id, conn), multiset{}), t);
    case HandleFailed(id) =>
      var next := if id in s.pending then AfterFailure(s, id, false) else multiset{};
      if id in s.pending {
        FailedLasts(s, id);
      } else {
        TurnLasts(s, SendFailed(id), multiset{});
      }
      TurnFrame(s, SendFailed(id), next);
      LastingSame(Turn(s, SendFailed(id), next), t);
    case Exit => LastingSame(s, t);
  }

  lemma ReplaceLasts(s: State, id: Id)
    requires Lasting(s) && FreshIds(s) && HandlerStep(s, HandleReplace(id)).Some?
    ensures var t := HandlerStep(s, HandleReplace(id)).value; Lasting(t) && t.permanent == s.permanent
  {
    hide HandleGone;
    var m := Turn(s, Replace(id), multiset{Spawn});
    var t := HandlerStep(s, HandleReplace(id)).value;
    GoneFlights(m, id, false, false);
    GoneEnds(m, id, false, false);
    RemovedFlights(m, id);
    LastingMore(s, t, id);
  }

  lemma RemovedFlights(s: State, id: Id)
    ensures HandleGone(s, id, false, false).flights == s.flights
  {
    hide Close, End, Cancel;
    CancelFlights(s, id);
    if id in s.conns {
      CloseFields(s, id);
      PartsFields(Close(s, id), id, multiset{});
    }
  }

  lemma LastingStep(s: State, a: Action)
    requires Invariant(s) && Lasting(s) && Step(s, a).Some?
    ensures Lasting(Step(s, a).value) && s.permanent <= Step(s, a).value.permanent
  {
    hide CallerStep, FlightStep, Apart, FreshIds, Held, FreshConns, Slots, StatusOk, HandleGone, Lasting;
    if CallerStep(s, a).Some? {
      CallerLasts(s, a);
    } else if FlightStep(s, a).Some? {
      FlightLasts(s, a);
    } else if a.HandleReplace? {
      ReplaceLasts(s, a.id);
    } else if a.HandleDisconnect? {
      GoneLasts(s, a.id, a.retry, a.reconnect);
      RecordLasts(HandleGone(s, a.id, a.retry, a.reconnect), Step(s, a).value);
    } else {
      MessageLasts(s, a);
    }
  }

  lemma RecordLasts(s: State, t: State)
    requires Lasting(s) && t == s.(removed := t.removed)
    ensures Lasting(t)
  {
  }

  lemma {:induction false} RunLasts(s: State, acts: seq<Action>)
    requires Invariant(s) && Lasting(s) && Run(s, acts).Some?
    ensures Lasting(Run(s, acts).value) && s.permanent <= Run(s, acts).value.permanent
    decreases |acts|
  {
    hide Step, Invariant, Lasting;
    if acts != [] {
      StepKeeps(s, acts[0]);
      LastingStep(s, acts[0]);
      RunLasts(Step(s, acts[0]).value, acts[1..]);
    }
  }

  lemma ReachableLasts(s: State)
    requires Reachable(s)
    ensures Lasting(s)
  {
    hide Invariant;
    var acts :| Run(Init(s.target, s.hasSource), acts) == Some(s);
    InitInvariant(s.target, s.hasSource);
    RunLasts(Init(s.target, s.hasSource), acts);
  }

  /**
   A permanent request is never given up: whatever happens after the call, until the manager is
   stopped it is on its way to the handler, pending with something under way, established, or was
   ended by a disconnect or remove; it is never dropped, and never replaced.
   */
  lemma PermanentForever(s: State, acts: seq<Action>)
    requires Reachable(s) && Step(s, ConnectNew(true)).Some? && Run(Step(s, ConnectNew(true)).value, acts).Some?
    ensures var id, t := s.count + 1, Run(Step(s, ConnectNew(true)).value, acts).value;
      && id !in t.dropped && Replace(id) !in t.flights
      && (!t.stopped ==> InRegistration(t, id) || (id in t.pending && Served(t, id)) || id in t.conns || id in t.ended)
  {
    hide Reachable, Invariant, Step, Lasting, AllTended, Placed, Run;
    var id, m := s.count + 1, Step(s, ConnectNew(true)).value;
    NewPermanent(s);
    ReachableInvariant(s);
    ReachableGoing(s);
    ReachableLasts(s);
    StepKeeps(s, ConnectNew(true));
    GoingStep(s, ConnectNew(true));
    LastingStep(s, ConnectNew(true));
    RunGoes(m, acts);
    RunLasts(m, acts);
    CountGrows(m, acts);
    var t := Run(m, acts).value;
    NeverDropped(t, id);
    if !t.stopped {
      PermanentPlaced(t, id);
    }
  }

  lemma NewPermanent(s: State)
    requires Step(s, ConnectNew(true)).Some?
    ensures var m := Step(s, ConnectNew(true)).value; m.count == s.count + 1 && s.count + 1 in m.permanent
  {
  }

  lemma NeverDropped(t: State, id: Id)
    requires Lasting(t) && id in t.permanent
    ensures id !in t.dropped && Replace(id) !in t.flights
  {
  }

  lemma PermanentPlaced(t: State, id: Id)
    requires AllTended(t) && Placed(t) && Lasting(t) && id in t.permanent && 1 <= id <= t.count
    ensures InRegistration(t, id) || (id in t.pending && Served(t, id)) || id in t.conns || id in t.ended
  {
    assert InRegistration(t, id) || Somewhere(t, id);
    assert id in t.pending ==> Tended(t, id);
  }

  lemma CountStep(s: State, a: Action)
    requires Step(s, a).Some?
    ensures s.count <= Step(s, a).value.count
  {
    hide Copies, AfterFailure, HandleGone;
    if a.HandleReplace? {
      GoneCounts(Turn(s, Replace(a.id), multiset{Spawn}), a.id, false, false);
    } else if a.HandleDisconnect? {
      GoneCounts(s, a.id, a.retry, a.reconnect);
    }
  }

  lemma {:induction false} CountGrows(s: State, acts: seq<Action>)
    requires Run(s, acts).Some?
    ensures s.count <= Run(s, acts).value.count
    decreases |acts|
  {
    hide Step;
    if acts != [] {
      CountStep(s, acts[0]);
      CountGrows(Step(s, acts[0]).value, acts[1..]);
    }
  }

  // ----- After the handler has exited -----

  predicate SameHandler(s: State, t: State) {
    && t.pending == s.pending && t.conns == s.conns && t.received == s.received && t.closed == s.closed
    && t.ended == s.ended && t.dropped == s.dropped && t.status == s.status
  }

  lemma ExitedCaller(s: State, a: Action)
    requires CallerStep(s, a).Some?
    ensures SameHandler(s, CallerStep(s, a).value) && CallerStep(s, a).value.exited == s.exited
  {
    hide Copies;
  }

  lemma ExitedStep(s: State, a: Action)
    requires s.exited && Step(s, a).Some?
    ensures SameHandler(s, Step(s, a).value) && Step(s, a).value.exited
  {
    hide CallerStep, FlightStep;
    if CallerStep(s, a).Some? {
      ExitedCaller(s, a);
    } else if FlightStep(s, a).Some? {
      var next := FlightMoves(s, a);
    }
  }

  lemma {:induction false} ExitedStays(s: State, acts: seq<Action>)
    requires s.exited && Run(s, acts).Some?
    ensures SameHandler(s, Run(s, acts).value)
    decreases |acts|
  {
    hide Step;
    if acts != [] {
      ExitedStep(s, acts[0]);
      ExitedStays(Step(s, acts[0]).value, acts[1..]);
    }
  }

  /** Once the handler has exited, no request or connection changes any more. */
  lemma ExitFinal(s: State, acts: seq<Action>)
    requires Step(s, Exit).Some? && Run(Step(s, Exit).value, acts).Some?
    ensures s.stopped && SameHandler(s, Run(Step(s, Exit).value, acts).value)
  {
    hide Run;
    ExitedStays(Step(s, Exit).value, acts);
  }
}
