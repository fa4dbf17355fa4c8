/**
 The connection manager as a state machine. Its handler owns the pending and established requests;
 dials, timers and replacement requests are in flight beside it and reach it in any order.
 */
module ConnManager {
  import opened Wrappers

  type Id = nat

  type Conn = nat

  datatype Status = Pending | Failing | Canceled | Established | Disconnected

  /** What a goroutine or timer is about to do for a request. */
  datatype Flight =
    | Spawn
    | Register(id: Id)
    | RegisterCaller(id: Id)
    | Address(id: Id)
    | Connect(id: Id)
    | Dial(id: Id)
    | SendConnected(id: Id, conn: Conn)
    | SendFailed(id: Id)
    | Replace(id: Id)

  /**
   `count` is the last id given out. `permanent` are the requests to be retried. `received` are the
   connections the handler was given and `closed` those it closed. `ended` are the requests that
   were canceled or removed, and `dropped` those let go because there were enough connections.
   `spawned` and `called` count what `Start` and callers of `Connect` set off, `created` the new
   requests among the latter. `replaced` counts the replacements set off after failures, and
   `removed` the requests that a disconnect or remove ended.
   */
  datatype State = State(
    target: nat,
    hasSource: bool,
    started: bool,
    stopped: bool,
    exited: bool,
    count: nat,
    pending: set<Id>,
    conns: map<Id, Conn>,
    status: map<Id, Status>,
    permanent: set<Id>,
    flights: multiset<Flight>,
    dialed: nat,
    received: set<Conn>,
    closed: set<Conn>,
    ended: set<Id>,
    dropped: set<Id>,
    spawned: nat,
    called: nat,
    created: nat,
    replaced: nat,
    removed: nat)

  function Init(target: nat, hasSource: bool): State {
    State(target, hasSource, false, false, false, 0, {}, map[], map[], {}, multiset{}, 0, {}, {}, {}, {}, 0, 0, 0, 0, 0)
  }

  datatype Action =
    // callers
    | Start
    | ConnectNew(permanent: bool)
    | ConnectAgain(id: Id)
    | Stop
    // goroutines and timers
    | BeginSpawn
    | GetAddress(id: Id, ok: bool)
    | BeginConnect(id: Id)
    | DialDone(id: Id, ok: bool)
    | Abandon(flight: Flight)
    // the handler
    | HandleRegister(id: Id, caller: bool)
    | HandleConnected(id: Id, conn: Conn)
    | HandleFailed(id: Id)
    | HandleReplace(id: Id)
    | HandleDisconnect(id: Id, retry: bool, reconnect: bool)
    | Exit

  /** One flight ends and others take its place. */
  function Turn(s: State, f: Flight, next: multiset<Flight>): State {
    s.(flights := s.flights - multiset{f} + next)
  }

  function Copies(n: nat): (fs: multiset<Flight>)
    ensures |fs| == n && forall f :: f in fs ==> f == Spawn
    decreases n
  {
    if n == 0 then multiset{} else multiset{Spawn} + Copies(n - 1)
  }

  function CallerStep(s: State, a: Action): Option<State> {
    match a
    case Start =>
      if s.started then None
      else
        var n := if s.count < s.target then s.target - s.count else 0;
        Some(s.(started := true, flights := s.flights + Copies(n), spawned := s.spawned + n))
    case ConnectNew(permanent) =>
      if s.stopped then None
      else
        var id := s.count + 1;
        Some(s.(count := id, called := s.called + 1, created := s.created + 1, flights := s.flights + multiset{RegisterCaller(id)},
                permanent := if permanent then s.permanent + {id} else s.permanent))
    case ConnectAgain(id) =>
      if s.stopped || !(1 <= id <= s.count) then None
      else Some(s.(called := s.called + 1, flights := s.flights + multiset{Connect(id)}))
    case Stop => Some(s.(stopped := true))
    case _ => None
  }

  function FlightStep(s: State, a: Action): Option<State> {
    match a
    case BeginSpawn =>
      if Spawn !in s.flights then None
      else if s.stopped || !s.hasSource then Some(Turn(s, Spawn, multiset{}))
      else Some(Turn(s, Spawn, multiset{Register(s.count + 1)}).(count := s.count + 1))
    case GetAddress(id, ok) =>
      if Address(id) !in s.flights then None
      else Some(Turn(s, Address(id), multiset{if ok then Connect(id) else SendFailed(id)}))
    case BeginConnect(id) =>
      if Connect(id) !in s.flights then None
      else if s.stopped || (id in s.status && s.status[id] == Canceled) then Some(Turn(s, Connect(id), multiset{}))
      else Some(Turn(s, Connect(id), multiset{Dial(id)}))
    case DialDone(id, ok) =>
      if Dial(id) !in s.flights then None
      else if !ok then Some(Turn(s, Dial(id), multiset{SendFailed(id)}))
      else Some(Turn(s, Dial(id), multiset{SendConnected(id, s.dialed + 1)}).(dialed := s.dialed + 1))
    case Abandon(f) =>
      if s.stopped && f in s.flights then Some(Turn(s, f, multiset{})) else None
    case _ => None
  }

  /** What is set off after a failure: a retry of the same request or a replacement by a new one. */
  function AfterFailure(s: State, id: Id, reconnect: bool): (fs: multiset<Flight>)
    ensures |fs| <= 1 && forall f :: f in fs ==> f == Connect(id) || f == Replace(id)
  {
    if s.stopped then multiset{}
    else if id in s.permanent || reconnect then multiset{Connect(id)}
    else if s.hasSource then multiset{Replace(id)}
    else multiset{}
  }

  /** Takes a request off the established ones and closes its connection. */
  function Close(s: State, id: Id): State
    requires id in s.conns
  {
    s.(conns := s.conns - {id}, closed := s.closed + {s.conns[id]})
  }

  function Cancel(s: State, id: Id): State {
    s.(status := s.status[id := Canceled], pending := s.pending - {id}, ended := s.ended + {id})
  }

  function End(s: State, id: Id): State {
    s.(status := s.status[id := Disconnected], ended := s.ended + {id})
  }

  function Requeue(s: State, id: Id, next: multiset<Flight>): State {
    s.(status := s.status[id := Pending], pending := s.pending + {id}, flights := s.flights + next)
  }

  function Forget(s: State, id: Id): State {
    s.(dropped := s.dropped + {id})
  }

  /** The handler's answer to a disconnect or, without `retry`, a remove. */
  function HandleGone(s: State, id: Id, retry: bool, reconnect: bool): State {
    if id in s.conns then
      var t := Close(s, id);
      if !retry then End(t, id)
      else if |t.conns| < s.target || id in s.permanent then Requeue(t, id, AfterFailure(s, id, reconnect))
      else Forget(t, id)
    else if id in s.pending then Cancel(s, id)
    else s
  }

  function HandlerStep(s: State, a: Action): Option<State> {
    if !s.started || s.exited then None
    else
      match a
      case HandleRegister(id, caller) =>
        var f := if caller then RegisterCaller(id) else Register(id);
        if f !in s.flights then None
        else Some(Turn(s, f, multiset{if caller then Dial(id) else Address(id)})
                  .(status := s.status[id := Pending], pending := s.pending + {id}))
      case HandleConnected(id, conn) =>
        if SendConnected(id, conn) !in s.flights then None
        else
          var t := Turn(s, SendConnected(id, conn), multiset{}).(received := s.received + {conn});
          if id !in s.pending then Some(t.(closed := s.closed + {conn}))
          else Some(t.(status := s.status[id := Established], conns := s.conns[id := conn], pending := s.pending - {id}))
      case HandleFailed(id) =>
        if SendFailed(id) !in s.flights then None
        else if id !in s.pending then Some(Turn(s, SendFailed(id), multiset{}))
        else Some(Turn(s, SendFailed(id), AfterFailure(s, id, false)).(status := s.status[id := Failing]))
      case HandleReplace(id) =>
        if Replace(id) !in s.flights then None
        else Some(HandleGone(Turn(s, Replace(id), multiset{Spawn}), id, false, false).(replaced := s.replaced + 1))
      case HandleDisconnect(id, retry, reconnect) =>
        var gone := if id in s.conns then !retry else id in s.pending;
        Some(HandleGone(s, id, retry, reconnect).(removed := s.removed + if gone then 1 else 0))
      case Exit => if s.stopped then Some(s.(exited := true)) else None
      case _ => None
  }

  function Step(s: State, a: Action): Option<State> {
    if CallerStep(s, a).Some? then CallerStep(s, a)
    else if FlightStep(s, a).Some? then FlightStep(s, a)
    else HandlerStep(s, a)
  }

  function Run(s: State, acts: seq<Action>): Option<State>
    decreases |acts|
  {
    if acts == [] then Some(s)
    else
      var t := Step(s, acts[0]);
      if t.None? then None else Run(t.value, acts[1..])
  }

  ghost predicate Reachable(s: State) {
    exists acts :: Run(Init(s.target, s.hasSource), acts) == Some(s)
  }

  // ----- The invariant -----

  /** How many registrations of an id are on their way. */
  function Registering(fs: multiset<Flight>, id: Id): nat {
    fs[Register(id)] + fs[RegisterCaller(id)]
  }

  /** A request is in at most one of these places. */
  predicate Apart(s: State) {
    && s.pending !! s.conns.Keys
    && s.ended !! s.pending && s.ended !! s.conns.Keys
    && s.dropped !! s.pending && s.dropped !! s.conns.Keys && s.dropped !! s.ended
  }

  predicate Somewhere(s: State, id: Id) {
    id in s.pending || id in s.conns || id in s.ended || id in s.dropped
  }

  /** Ids are given out once: one being registered is new to the handler. */
  ghost predicate FreshIds(s: State) {
    forall id: Id ::
      && Registering(s.flights, id) <= 1
      && (Registering(s.flights, id) == 1 ==> !Somewhere(s, id) && id <= s.count)
      && (Somewhere(s, id) ==> id <= s.count)
  }

  /** Every established request holds its own received connection; all others received are closed. */
  ghost predicate Held(s: State) {
    && s.closed <= s.received
    && (forall id :: id in s.conns ==> s.conns[id] in s.received && s.conns[id] !in s.closed)
    && (forall c :: c in s.received ==> c in s.closed || c in s.conns.Values)
    && (forall i, j :: i in s.conns && j in s.conns && s.conns[i] == s.conns[j] ==> i == j)
  }

  /** A connection on its way to the handler is new to it. */
  ghost predicate FreshConns(s: State) {
    && (forall c :: c in s.received ==> c <= s.dialed)
    && (forall i: Id, c: Conn :: SendConnected(i, c) in s.flights ==>
          c !in s.received && c <= s.dialed && s.flights[SendConnected(i, c)] == 1)
    && (forall i: Id, j: Id, c: Conn :: SendConnected(i, c) in s.flights && SendConnected(j, c) in s.flights ==> i == j)
  }

  /** Connections and flights together never outnumber what was set off. */
  predicate Slots(s: State) {
    && |s.conns| + |s.flights| <= s.spawned + s.called
    && (if s.started then s.spawned <= s.target else s.spawned == 0)
  }

  /** A request calls itself established when it is, or when it was dropped. */
  ghost predicate StatusOk(s: State) {
    forall id: Id :: id in s.status && s.status[id] == Established <==> id in s.conns || id in s.dropped
  }

  ghost predicate Invariant(s: State) {
    Apart(s) && FreshIds(s) && Held(s) && FreshConns(s) && Slots(s) && StatusOk(s)
  }

  // ----- Callers -----

  lemma CopiesPlain(n: nat, f: Flight)
    requires f != Spawn
    ensures Copies(n)[f] == 0
  {
  }

  lemma CallerKeeps(s: State, a: Action)
    requires Invariant(s) && CallerStep(s, a).Some?
    ensures Invariant(CallerStep(s, a).value)
  {
    hide Apart, Held, StatusOk, Copies, FreshIds, FreshConns, Slots;
    CallerFreshIds(s, a);
    CallerFreshConns(s, a);
    CallerSlots(s, a);
    CallerPlain(s, a);
  }

  lemma CallerPlain(s: State, a: Action)
    requires Apart(s) && Held(s) && StatusOk(s) && CallerStep(s, a).Some?
    ensures var t := CallerStep(s, a).value; Apart(t) && Held(t) && StatusOk(t)
  {
    hide Copies;
  }

  lemma CallerFreshIds(s: State, a: Action)
    requires FreshIds(s) && CallerStep(s, a).Some?
    ensures FreshIds(CallerStep(s, a).value)
  {
    hide Copies;
    var t := CallerStep(s, a).value;
    forall id: Id
      ensures Registering(t.flights, id) == Registering(s.flights, id) + (if a.ConnectNew? && id == t.count then 1 else 0)
    {
      if a.Start? {
        var n := if s.count < s.target then s.target - s.count else 0;
        CopiesPlain(n, Register(id));
        CopiesPlain(n, RegisterCaller(id));
      }
    }
    forall id: Id
      ensures Somewhere(t, id) == Somewhere(s, id)
    {
    }
  }

  lemma CallerFreshConns(s: State, a: Action)
    requires FreshConns(s) && CallerStep(s, a).Some?
    ensures FreshConns(CallerStep(s, a).value)
  {
    hide Copies;
    var t := CallerStep(s, a).value;
    forall i: Id, c: Conn
      ensures t.flights[SendConnected(i, c)] == s.flights[SendConnected(i, c)]
    {
      if a.Start? {
        var n := if s.count < s.target then s.target - s.count else 0;
        CopiesPlain(n, SendConnected(i, c));
      }
    }
  }

  lemma CallerSlots(s: State, a: Action)
    requires Slots(s) && CallerStep(s, a).Some?
    ensures Slots(CallerStep(s, a).value)
  {
    hide Copies;
  }

  // ----- Goroutines and timers -----

  lemma TurnCounts(s: State, f: Flight, next: multiset<Flight>, g: Flight)
    requires f in s.flights
    ensures Turn(s, f, next).flights[g] == s.flights[g] - (if g == f then 1 else 0) + next[g]
    ensures |Turn(s, f, next).flights| == |s.flights| - 1 + |next|
  {
  }

  /** The flight that an action of a goroutine ends. */
  function Ends(a: Action): Flight
    requires FlightAction(a)
  {
    match a
    case BeginSpawn => Spawn
    case GetAddress(id, _) => Address(id)
    case BeginConnect(id) => Connect(id)
    case DialDone(id, _) => Dial(id)
    case Abandon(f) => f
  }

  predicate FlightAction(a: Action) {
    a.BeginSpawn? || a.GetAddress? || a.BeginConnect? || a.DialDone? || a.Abandon?
  }

  function Bag(f: Option<Flight>): multiset<Flight> {
    if f.Some? then multiset{f.value} else multiset{}
  }

  /** What such an action does: one flight becomes at most one other, and a counter may advance. */
  predicate FlightMove(s: State, t: State, f: Flight, next: Option<Flight>) {
    && f in s.flights
    && t == Turn(s, f, Bag(next)).(count := t.count, dialed := t.dialed)
    && t.count == s.count + (if next.Some? && next.value.Register? then 1 else 0)
    && t.dialed == s.dialed + (if next.Some? && next.value.SendConnected? then 1 else 0)
    && (next.Some? ==>
          match next.value
          case Register(id) => id == t.count
          case SendConnected(_, c) => c == t.dialed
          case RegisterCaller(_) => false
          case _ => true)
  }

  lemma SpawnMoves(s: State) returns (next: Option<Flight>)
    requires FlightStep(s, BeginSpawn).Some?
    ensures FlightMove(s, FlightStep(s, BeginSpawn).value, Spawn, next)
  {
    if s.stopped || !s.hasSource {
      next := None;
    } else {
      next := Some(Register(s.count + 1));
      assert Bag(next) == multiset{Register(s.count + 1)};
    }
  }

  lemma DialMoves(s: State, id: Id, ok: bool) returns (next: Option<Flight>)
    requires FlightStep(s, DialDone(id, ok)).Some?
    ensures FlightMove(s, FlightStep(s, DialDone(id, ok)).value, Dial(id), next)
  {
    if ok {
      next := Some(SendConnected(id, s.dialed + 1));
      assert Bag(next) == multiset{SendConnected(id, s.dialed + 1)};
    } else {
      next := Some(SendFailed(id));
    }
  }

  lemma PlainMoves(s: State, a: Action) returns (next: Option<Flight>)
    requires (a.GetAddress? || a.BeginConnect? || a.Abandon?) && FlightStep(s, a).Some?
    ensures FlightMove(s, FlightStep(s, a).value, Ends(a), next)
  {
    if a.GetAddress? {
      next := Some(if a.ok then Connect(a.id) else SendFailed(a.id));
    } else if a.Abandon? || s.stopped || (a.id in s.status && s.status[a.id] == Canceled) {
      next := None;
    } else {
      next := Some(Dial(a.id));
    }
  }

  lemma FlightMoves(s: State, a: Action) returns (next: Option<Flight>)
    requires FlightStep(s, a).Some?
    ensures FlightAction(a) && FlightMove(s, FlightStep(s, a).value, Ends(a), next)
  {
    hide FlightMove;
    if a.BeginSpawn? {
      next := SpawnMoves(s);
    } else if a.DialDone? {
      next := DialMoves(s, a.id, a.ok);
    } else {
      next := PlainMoves(s, a);
    }
  }

  lemma FlightFreshIds(s: State, t: State, f: Flight, next: Option<Flight>)
    requires FreshIds(s) && FlightMove(s, t, f, next)
    ensures FreshIds(t)
  {
    forall id: Id
      ensures Registering(t.flights, id) <= 1
      ensures Registering(t.flights, id) == 1 ==> !Somewhere(t, id) && id <= t.count
      ensures Somewhere(t, id) ==> id <= t.count
    {
      TurnCounts(s, f, Bag(next), Register(id));
      TurnCounts(s, f, Bag(next), RegisterCaller(id));
      assert Registering(s.flights, id) == 1 ==> !Somewhere(s, id) && id <= s.count;
      assert Somewhere(t, id) == Somewhere(s, id);
    }
  }

  lemma FlightFreshConns(s: State, t: State, f: Flight, next: Option<Flight>)
    requires FreshConns(s) && FlightMove(s, t, f, next)
    ensures FreshConns(t)
  {
    forall i: Id, c: Conn
      ensures t.flights[SendConnected(i, c)] <= s.flights[SendConnected(i, c)] + Bag(next)[SendConnected(i, c)]
    {
      TurnCounts(s, f, Bag(next), SendConnected(i, c));
    }
    forall i: Id, c: Conn | SendConnected(i, c) in t.flights
      ensures c !in t.received && c <= t.dialed && t.flights[SendConnected(i, c)] == 1
      ensures SendConnected(i, c) in s.flights || (c == t.dialed && next == Some(SendConnected(i, c)))
    {
      assert SendConnected(i, c) in s.flights || next == Some(SendConnected(i, c));
    }
  }

  lemma FlightSlots(s: State, t: State, f: Flight, next: Option<Flight>)
    requires Slots(s) && FlightMove(s, t, f, next)
    ensures Slots(t)
  {
    TurnCounts(s, f, Bag(next), f);
  }

  lemma FlightPlain(s: State, t: State, f: Flight, next: Option<Flight>)
    requires Apart(s) && Held(s) && StatusOk(s) && FlightMove(s, t, f, next)
    ensures Apart(t) && Held(t) && StatusOk(t)
  {
  }

  lemma FlightKeeps(s: State, a: Action)
    requires Invariant(s) && FlightStep(s, a).Some?
    ensures Invariant(FlightStep(s, a).value)
  {
    hide FlightStep, FlightMove, Apart, Held, StatusOk, FreshIds, FreshConns, Slots;
    var next := FlightMoves(s, a);
    var t := FlightStep(s, a).value;
    FlightFreshIds(s, t, Ends(a), next);
    FlightFreshConns(s, t, Ends(a), next);
    FlightSlots(s, t, Ends(a), next);
    FlightPlain(s, t, Ends(a), next);
  }

  lemma MoveKeeps(s: State, t: State, f: Flight, next: Option<Flight>)
    requires Invariant(s) && FlightMove(s, t, f, next)
    ensures Invariant(t)
  {
    hide FlightMove, Apart, Held, StatusOk, FreshIds, FreshConns, Slots;
    FlightFreshIds(s, t, f, next);
    FlightFreshConns(s, t, f, next);
    FlightSlots(s, t, f, next);
    FlightPlain(s, t, f, next);
  }

  // ----- Disconnecting -----

  lemma CancelKeeps(s: State, id: Id)
    requires Invariant(s) && id in s.pending
    ensures Invariant(Cancel(s, id))
  {
    hide Held, FreshConns, Slots;
    var t := Cancel(s, id);
    SameConns(s, t);
    forall i: Id
      ensures Somewhere(t, i) == Somewhere(s, i)
    {
    }
  }

  /** An established request that was closed and is placed nowhere yet. */
  ghost predicate Loose(s: State, id: Id) {
    && Apart(s) && Held(s) && FreshConns(s)
    && !Somewhere(s, id) && id <= s.count && Registering(s.flights, id) == 0
    && (forall i: Id :: i != id ==>
          && Registering(s.flights, i) <= 1
          && (Registering(s.flights, i) == 1 ==> !Somewhere(s, i) && i <= s.count)
          && (Somewhere(s, i) ==> i <= s.count))
    && |s.conns| + |s.flights| + 1 <= s.spawned + s.called && s.started && s.spawned <= s.target
    && id in s.status && s.status[id] == Established
    && (forall i: Id :: i != id ==> (i in s.status && s.status[i] == Established <==> i in s.conns || i in s.dropped))
  }

  lemma CloseHeld(s: State, id: Id)
    requires Held(s) && id in s.conns
    ensures Held(Close(s, id))
  {
    var t := Close(s, id);
    forall c | c in t.received
      ensures c in t.closed || c in t.conns.Values
    {
      if c !in t.closed {
        var i :| i in s.conns && s.conns[i] == c;
        assert i in t.conns && t.conns[i] == c;
      }
    }
  }

  lemma CloseCount(s: State, id: Id)
    requires id in s.conns
    ensures |Close(s, id).conns| == |s.conns| - 1
  {
    var rest := s.conns - {id};
    assert s.conns == rest[id := s.conns[id]];
  }

  lemma CloseLoose(s: State, id: Id)
    requires Invariant(s) && id in s.conns && s.started
    ensures Loose(Close(s, id), id)
  {
    hide Held, FreshConns;
    var t := Close(s, id);
    CloseHeld(s, id);
    CloseCount(s, id);
    assert FreshConns(t) by { CloseFresh(s, id); }
    forall i: Id
      ensures i != id ==> Somewhere(t, i) == Somewhere(s, i)
    {
    }
    assert Somewhere(s, id);
  }

  lemma CloseFresh(s: State, id: Id)
    requires FreshConns(s) && id in s.conns
    ensures FreshConns(Close(s, id))
  {
  }

  lemma EndKeeps(s: State, id: Id)
    requires Loose(s, id)
    ensures Invariant(End(s, id))
  {
    hide Held, FreshConns;
    var t := End(s, id);
    SameConns(s, t);
    forall i: Id
      ensures Somewhere(t, i) == (Somewhere(s, i) || i == id)
    {
    }
  }

  lemma ForgetKeeps(s: State, id: Id)
    requires Loose(s, id)
    ensures Invariant(Forget(s, id))
  {
    hide Held, FreshConns;
    var t := Forget(s, id);
    SameConns(s, t);
    forall i: Id
      ensures Somewhere(t, i) == (Somewhere(s, i) || i == id)
    {
    }
  }

  /** A flight that neither registers nor delivers a connection. */
  predicate Harmless(fs: multiset<Flight>) {
    |fs| <= 1 && forall f :: f in fs ==> f.Connect? || f.Replace?
  }

  lemma RequeueFreshConns(s: State, id: Id, next: multiset<Flight>)
    requires FreshConns(s) && Harmless(next)
    ensures FreshConns(Requeue(s, id, next))
  {
    var t := Requeue(s, id, next);
    forall i: Id, c: Conn
      ensures t.flights[SendConnected(i, c)] == s.flights[SendConnected(i, c)]
    {
      assert SendConnected(i, c) !in next;
    }
  }

  lemma RequeueKeeps(s: State, id: Id, next: multiset<Flight>)
    requires Loose(s, id) && Harmless(next)
    ensures Invariant(Requeue(s, id, next))
  {
    hide Held, FreshConns;
    var t := Requeue(s, id, next);
    SameConns(s, t);
    RequeueFreshConns(s, id, next);
    forall i: Id
      ensures Somewhere(t, i) == (Somewhere(s, i) || i == id)
      ensures Registering(t.flights, i) == Registering(s.flights, i)
    {
      assert Register(i) !in next && RegisterCaller(i) !in next;
    }
  }

  lemma GoneKeeps(s: State, id: Id, retry: bool, reconnect: bool)
    requires Invariant(s) && s.started
    ensures Invariant(HandleGone(s, id, retry, reconnect))
  {
    hide Invariant, Loose, Close, End, Requeue, Forget, Cancel;
    if id in s.conns {
      CloseLoose(s, id);
      if !retry {
        EndKeeps(Close(s, id), id);
      } else if |Close(s, id).conns| < s.target || id in s.permanent {
        RequeueKeeps(Close(s, id), id, AfterFailure(s, id, reconnect));
      } else {
        ForgetKeeps(Close(s, id), id);
      }
    } else if id in s.pending {
      CancelKeeps(s, id);
    }
  }

  // ----- The handler's other messages -----

  /** A registration arrives: the request is pending and goes on to get its address or to dial. */
  function Registered(s: State, id: Id, f: Flight, next: Flight): State {
    Turn(s, f, multiset{next}).(status := s.status[id := Pending], pending := s.pending + {id})
  }

  lemma RegisteredFreshIds(s: State, id: Id, f: Flight, next: Flight)
    requires FreshIds(s) && f in s.flights && (f == Register(id) || f == RegisterCaller(id)) && (next.Dial? || next.Address?)
    ensures FreshIds(Registered(s, id, f, next)) && !Somewhere(s, id)
  {
    var t := Registered(s, id, f, next);
    assert Registering(s.flights, id) == 1;
    forall i: Id
      ensures Registering(t.flights, i) == Registering(s.flights, i) - (if i == id then 1 else 0)
      ensures Somewhere(t, i) == (Somewhere(s, i) || i == id)
    {
      TurnCounts(s, f, multiset{next}, Register(i));
      TurnCounts(s, f, multiset{next}, RegisterCaller(i));
    }
  }

  lemma RegisteredPlain(s: State, id: Id, f: Flight, next: Flight)
    requires Apart(s) && StatusOk(s) && !Somewhere(s, id)
    ensures Apart(Registered(s, id, f, next)) && StatusOk(Registered(s, id, f, next))
  {
  }

  lemma RegisterKeeps(s: State, id: Id, caller: bool)
    requires Invariant(s) && HandlerStep(s, HandleRegister(id, caller)).Some?
    ensures Invariant(HandlerStep(s, HandleRegister(id, caller)).value)
  {
    hide Apart, StatusOk, FreshIds, Held, FreshConns, Slots;
    var f := if caller then RegisterCaller(id) else Register(id);
    var next := if caller then Dial(id) else Address(id);
    var m, t := Turn(s, f, multiset{next}), Registered(s, id, f, next);
    RegisteredFreshIds(s, id, f, next);
    RegisteredPlain(s, id, f, next);
    FlightSlots(s, m, f, Some(next));
    FlightFreshConns(s, m, f, Some(next));
    SameConns(m, t);
    SameConns(s, t);
  }

  // A connection arrives.

  lemma RefusedKeeps(s: State, id: Id, conn: Conn)
    requires Invariant(s) && SendConnected(id, conn) in s.flights
    ensures Invariant(Turn(s, SendConnected(id, conn), multiset{}).(received := s.received + {conn}, closed := s.closed + {conn}))
  {
    hide Apart, StatusOk, FreshIds, Slots, FlightMove;
    var f := SendConnected(id, conn);
    var m := Turn(s, f, multiset{});
    var t := m.(received := s.received + {conn}, closed := s.closed + {conn});
    assert FlightMove(s, m, f, None) by { GoneFlight(s, f); }
    MoveKeeps(s, m, f, None);
    SameIds(m, t);
    SamePlain(m, t);
    DeliveredFresh(s, id, conn, t);
    assert Slots(t) by { SameSlots(m, t); }
    assert conn !in s.received;
  }

  lemma GoneFlight(s: State, f: Flight)
    requires f in s.flights
    ensures FlightMove(s, Turn(s, f, multiset{}), f, None)
  {
  }

  lemma SamePlain(s: State, t: State)
    requires s.conns == t.conns && s.pending == t.pending && s.ended == t.ended && s.dropped == t.dropped && s.status == t.status
    ensures Apart(s) ==> Apart(t)
    ensures StatusOk(s) ==> StatusOk(t)
  {
  }

  lemma SameSlots(s: State, t: State)
    requires |s.conns| == |t.conns| && s.flights == t.flights && s.spawned == t.spawned && s.called == t.called
    requires s.started == t.started && s.target == t.target
    ensures Slots(s) ==> Slots(t)
  {
  }

  lemma DeliveredFresh(s: State, id: Id, conn: Conn, t: State)
    requires FreshConns(s) && SendConnected(id, conn) in s.flights
    requires t.flights == s.flights - multiset{SendConnected(id, conn)}
    requires t.received == s.received + {conn} && t.dialed == s.dialed
    ensures FreshConns(t)
  {
    forall i: Id, c: Conn | SendConnected(i, c) in t.flights
      ensures c !in t.received && c <= t.dialed && t.flights[SendConnected(i, c)] == 1
    {
      assert SendConnected(i, c) in s.flights;
      assert c == conn ==> i == id;
    }
  }

  /** The connection is accepted for a pending request. */
  function Accepted(s: State, id: Id, conn: Conn): State {
    Turn(s, SendConnected(id, conn), multiset{})
    .(received := s.received + {conn}, status := s.status[id := Established],
      conns := s.conns[id := conn], pending := s.pending - {id})
  }

  lemma AcceptedHeld(s: State, id: Id, conn: Conn)
    requires Held(s) && conn !in s.received && id !in s.conns
    ensures Held(Accepted(s, id, conn))
  {
    var t := Accepted(s, id, conn);
    assert t.conns[id] == conn;
    forall c | c in t.received
      ensures c in t.closed || c in t.conns.Values
    {
      if c != conn && c !in s.closed {
        var i :| i in s.conns && s.conns[i] == c;
        assert i in t.conns && t.conns[i] == c;
      }
    }
  }

  lemma AcceptedIds(s: State, id: Id, conn: Conn)
    requires Apart(s) && StatusOk(s) && FreshIds(s) && id in s.pending && SendConnected(id, conn) in s.flights
    ensures var t := Accepted(s, id, conn); Apart(t) && StatusOk(t) && FreshIds(t)
  {
    var t := Accepted(s, id, conn);
    forall i: Id
      ensures Registering(t.flights, i) == Registering(s.flights, i)
      ensures Somewhere(t, i) == Somewhere(s, i)
    {
      TurnCounts(s, SendConnected(id, conn), multiset{}, Register(i));
      TurnCounts(s, SendConnected(id, conn), multiset{}, RegisterCaller(i));
    }
  }

  lemma AcceptedKeeps(s: State, id: Id, conn: Conn)
    requires Invariant(s) && id in s.pending && SendConnected(id, conn) in s.flights
    ensures Invariant(Accepted(s, id, conn))
  {
    hide StatusOk, FreshIds, Held;
    var t := Accepted(s, id, conn);
    AcceptedIds(s, id, conn);
    AcceptedHeld(s, id, conn);
    DeliveredFresh(s, id, conn, t);
    TurnCounts(s, SendConnected(id, conn), multiset{}, Spawn);
    assert |t.conns| == |s.conns| + 1;
  }

  lemma ReplaceKeeps(s: State, id: Id)
    requires Invariant(s) && HandlerStep(s, HandleReplace(id)).Some?
    ensures Invariant(HandlerStep(s, HandleReplace(id)).value)
  {
    hide Invariant, HandleGone;
    var m := Turn(s, Replace(id), multiset{Spawn});
    assert FlightMove(s, m, Replace(id), Some(Spawn));
    MoveKeeps(s, m, Replace(id), Some(Spawn));
    GoneKeeps(m, id, false, false);
    var t := HandleGone(m, id, false, false);
    RecordKeeps(t, t.(replaced := s.replaced + 1));
  }

  /** The counts of replacements and removals are only a record. */
  lemma RecordKeeps(s: State, t: State)
    requires Invariant(s) && t == s.(replaced := t.replaced, removed := t.removed)
    ensures Invariant(t)
  {
    hide Apart, StatusOk, FreshIds, Held, FreshConns, Slots;
    SameConns(s, t);
    SameIds(s, t);
    SamePlain(s, t);
  }

  lemma HandlerKeeps(s: State, a: Action)
    requires Invariant(s) && HandlerStep(s, a).Some?
    ensures Invariant(HandlerStep(s, a).value)
  {
    hide Apart, StatusOk, FreshIds, Held, FreshConns, Slots, HandleGone;
    match a
    case HandleRegister(id, caller) => RegisterKeeps(s, id, caller);
    case HandleConnected(id, conn) =>
      if id in s.pending {
        AcceptedKeeps(s, id, conn);
      } else {
        RefusedKeeps(s, id, conn);
      }
    case HandleFailed(id) => FailedKeeps(s, id);
    case HandleReplace(id) => ReplaceKeeps(s, id);
    case HandleDisconnect(id, retry, reconnect) =>
      GoneKeeps(s, id, retry, reconnect);
      RecordKeeps(HandleGone(s, id, retry, reconnect), HandlerStep(s, a).value);
    case Exit => ExitKeeps(s);
  }

  lemma ExitKeeps(s: State)
    requires Invariant(s)
    ensures Invariant(s.(exited := true))
  {
    hide Apart, StatusOk, FreshIds, Held, FreshConns, Slots;
    var t := s.(exited := true);
    SameConns(s, t);
    SameIds(s, t);
    SamePlain(s, t);
  }

  /** What `Held`, `FreshConns` and `Slots` depend on. */
  lemma SameConns(s: State, t: State)
    requires s.conns == t.conns && s.received == t.received && s.closed == t.closed && s.dialed == t.dialed
    requires s.spawned == t.spawned && s.called == t.called && s.started == t.started && s.target == t.target
    ensures Held(s) ==> Held(t)
    ensures s.flights == t.flights && FreshConns(s) ==> FreshConns(t)
    ensures s.flights == t.flights && Slots(s) ==> Slots(t)
  {
  }

  lemma FailedKeeps(s: State, id: Id)
    requires Invariant(s) && HandlerStep(s, HandleFailed(id)).Some?
    ensures Invariant(HandlerStep(s, HandleFailed(id)).value)
  {
    hide Invariant, FlightMove, AfterFailure;
    var next := FailureFlight(s, id);
    var m := Turn(s, SendFailed(id), Bag(next));
    FailureMoves(s, id, m, next);
    MoveKeeps(s, m, SendFailed(id), next);
    if id in s.pending {
      FailingKeeps(m, id);
    }
  }

  lemma FailingKeeps(s: State, id: Id)
    requires Invariant(s) && id in s.pending
    ensures Invariant(s.(status := s.status[id := Failing]))
  {
    hide Held, FreshConns, Slots, FreshIds;
    var t := s.(status := s.status[id := Failing]);
    SameConns(s, t);
    SameIds(s, t);
  }

  /** The flight that replaces a failed one, if any. */
  function FailureFlight(s: State, id: Id): Option<Flight> {
    if id !in s.pending || s.stopped then None
    else if id in s.permanent then Some(Connect(id))
    else if s.hasSource then Some(Replace(id))
    else None
  }

  lemma FailureMoves(s: State, id: Id, m: State, next: Option<Flight>)
    requires SendFailed(id) in s.flights && next == FailureFlight(s, id) && m == Turn(s, SendFailed(id), Bag(next))
    ensures FlightMove(s, m, SendFailed(id), next)
    ensures id in s.pending ==> Bag(next) == AfterFailure(s, id, false)
  {
  }

  lemma SameIds(s: State, t: State)
    requires s.conns == t.conns && s.pending == t.pending && s.ended == t.ended && s.dropped == t.dropped
    requires s.flights == t.flights && s.count == t.count
    ensures FreshIds(s) ==> FreshIds(t)
  {
    forall i: Id
      ensures Somewhere(t, i) == Somewhere(s, i)
    {
    }
  }

  // ----- Whole runs -----

  lemma InitInvariant(target: nat, hasSource: bool)
    ensures Invariant(Init(target, hasSource))
  {
  }

  lemma StepKeeps(s: State, a: Action)
    requires Invariant(s) && Step(s, a).Some?
    ensures Invariant(Step(s, a).value)
  {
    hide CallerStep, FlightStep, HandlerStep, Invariant;
    if CallerStep(s, a).Some? {
      CallerKeeps(s, a);
    } else if FlightStep(s, a).Some? {
      FlightKeeps(s, a);
    } else {
      HandlerKeeps(s, a);
    }
  }

  lemma {:induction false} RunKeeps(s: State, acts: seq<Action>)
    requires Invariant(s) && Run(s, acts).Some?
    ensures Invariant(Run(s, acts).value)
    decreases |acts|
  {
    hide Step, Invariant;
    if acts != [] {
      StepKeeps(s, acts[0]);
      RunKeeps(Step(s, acts[0]).value, acts[1..]);
    }
  }

  lemma ReachableInvariant(s: State)
    requires Reachable(s)
    ensures Invariant(s)
  {
    hide Invariant;
    var acts :| Run(Init(s.target, s.hasSource), acts) == Some(s);
    InitInvariant(s.target, s.hasSource);
    RunKeeps(Init(s.target, s.hasSource), acts);
  }

  /** In every reachable state no request is both pending and established. */
  lemma PendingNotEstablished(s: State)
    requires Reachable(s)
    ensures s.pending !! s.conns.Keys
  {
    hide Reachable, FreshIds, Held, FreshConns, Slots, StatusOk;
    ReachableInvariant(s);
  }

  /**
   Every connection the handler was ever given is closed or is the connection of exactly one
   established request, and never both.
   */
  lemma ConnectionsAccounted(s: State, c: Conn)
    requires Reachable(s) && c in s.received
    ensures c in s.closed <==> c !in s.conns.Values
    ensures forall i, j :: i in s.conns && j in s.conns && s.conns[i] == c && s.conns[j] == c ==> i == j
  {
    hide Reachable, FreshIds, FreshConns, Slots, StatusOk, Apart;
    ReachableInvariant(s);
    assert forall id :: id in s.conns ==> s.conns[id] !in s.closed;
  }

  /**
   Established requests never outnumber what `Start` and callers set off; with no callers, there
   are never more than the target.
   */
  lemma OutboundBound(s: State)
    requires Reachable(s)
    ensures |s.conns| <= s.target + s.called
    ensures s.called == 0 ==> |s.conns| <= s.target
  {
    hide Reachable, FreshIds, Held, FreshConns, Apart, StatusOk;
    ReachableInvariant(s);
  }

  /** A request that was canceled, removed or dropped. */
  predicate Over(s: State, id: Id) {
    id in s.ended || id in s.dropped
  }

  lemma OverStaysGone(s: State, id: Id, retry: bool, reconnect: bool, other: Id)
    requires Over(s, other)
    ensures Over(HandleGone(s, id, retry, reconnect), other)
  {
    hide AfterFailure;
  }

  lemma OverStays(s: State, a: Action, id: Id)
    requires Step(s, a).Some? && Over(s, id)
    ensures Over(Step(s, a).value, id)
  {
    hide Copies, AfterFailure, HandleGone;
    if a.HandleReplace? {
      OverStaysGone(Turn(s, Replace(a.id), multiset{Spawn}), a.id, false, false, id);
    } else if a.HandleDisconnect? {
      OverStaysGone(s, a.id, a.retry, a.reconnect, id);
    }
  }

  /** Once over, a request is never pending or established again, whatever else happens. */
  lemma {:induction false} OverForever(s: State, acts: seq<Action>, id: Id)
    requires Invariant(s) && (id in s.ended || id in s.dropped) && Run(s, acts).Some?
    ensures var t := Run(s, acts).value; (id in t.ended || id in t.dropped) && id !in t.pending && id !in t.conns
    decreases |acts|
  {
    hide Step, FreshIds, Held, FreshConns, Slots, StatusOk;
    if acts == [] {
      OverApart(s, id);
    } else {
      StepKeeps(s, acts[0]);
      OverStays(s, acts[0], id);
      OverForever(Step(s, acts[0]).value, acts[1..], id);
    }
  }

  lemma OverApart(s: State, id: Id)
    requires Apart(s) && Over(s, id)
    ensures id !in s.pending && id !in s.conns
  {
  }

  // ----- What a request says about itself -----

  lemma StatusExact(s: State, id: Id)
    requires Reachable(s)
    ensures id in s.status && s.status[id] == Established <==> id in s.conns || id in s.dropped
  {
    hide Reachable, FreshIds, Held, FreshConns, Slots, Apart;
    ReachableInvariant(s);
  }

  /**
   A disconnected request goes on calling itself established exactly when it is not permanent and
   enough other connections remain, so that no further attempt is made for it.
   */
  lemma StaleStatus(s: State, id: Id, reconnect: bool)
    requires Invariant(s) && s.started && !s.exited && id in s.conns
    ensures var t := HandleGone(s, id, true, reconnect);
      id !in t.conns && (t.status.Keys >= {id} && t.status[id] == Established <==> |s.conns| > s.target && id !in s.permanent)
  {
    hide FreshIds, Held, FreshConns, Slots, Apart, AfterFailure;
    CloseCount(s, id);
  }

  predicate SameConfig(s: State, t: State) {
    s.target == t.target && s.hasSource == t.hasSource
  }

  lemma ReachableStep(s: State, a: Action, t: State)
    requires Reachable(s) && Step(s, a) == Some(t) && SameConfig(s, t)
    ensures Reachable(t)
  {
    hide Step;
    var acts :| Run(Init(s.target, s.hasSource), acts) == Some(s);
    RunSnoc(Init(s.target, s.hasSource), acts, a);
    assert Run(Init(t.target, t.hasSource), acts + [a]) == Some(t);
  }

  lemma CallerReaches(s: State, a: Action, t: State)
    requires Reachable(s) && CallerStep(s, a) == Some(t) && SameConfig(s, t)
    ensures Reachable(t)
  {
    hide CallerStep, FlightStep, HandlerStep, Reachable;
    ReachableStep(s, a, t);
  }

  lemma FlightReaches(s: State, a: Action, t: State)
    requires Reachable(s) && a.DialDone? && FlightStep(s, a) == Some(t) && SameConfig(s, t)
    ensures Reachable(t)
  {
    hide FlightStep, HandlerStep, Reachable;
    ReachableStep(s, a, t);
  }

  lemma HandlerReaches(s: State, a: Action, t: State)
    requires Reachable(s) && (a.HandleRegister? || a.HandleConnected? || a.HandleFailed? || a.HandleDisconnect?)
    requires HandlerStep(s, a) == Some(t) && SameConfig(s, t)
    ensures Reachable(t)
  {
    hide HandlerStep, Reachable;
    ReachableStep(s, a, t);
  }

  lemma {:induction false} RunSnoc(s: State, acts: seq<Action>, a: Action)
    requires Run(s, acts).Some?
    ensures Run(s, acts + [a]) == Step(Run(s, acts).value, a)
    decreases |acts|
  {
    hide Step;
    if acts == [] {
      assert acts + [a] == [a];
      assert Run(s, [a]) == if Step(s, a).None? then None else Run(Step(s, a).value, []);
    } else {
      assert (acts + [a])[1..] == acts[1..] + [a];
      RunSnoc(Step(s, acts[0]).value, acts[1..], a);
    }
  }

  /** Two callers' requests over a target of one, before anything was dialed. */
  function TwoCallers(fs: multiset<Flight>, pending: set<Id>, status: map<Id, Status>): State {
    Init(1, false).(started := true, count := 2, called := 2, created := 2, flights := fs, pending := pending, status := status)
  }

  lemma TwoRequested()
    ensures Reachable(TwoCallers(multiset{RegisterCaller(1), RegisterCaller(2)}, {}, map[]))
  {
    var s0 := Init(1, false);
    assert Run(Init(s0.target, s0.hasSource), []) == Some(s0);
    var s1 := s0.(count := 1, called := 1, created := 1, flights := s0.flights + multiset{RegisterCaller(1)});
    CallerReaches(s0, ConnectNew(false), s1);
    var s2 := s1.(count := 2, called := 2, created := 2, flights := s1.flights + multiset{RegisterCaller(2)});
    CallerReaches(s1, ConnectNew(false), s2);
    var s3 := s2.(started := true, flights := s2.flights + Copies(0));
    CallerReaches(s2, Start, s3);
    assert s3.flights == multiset{RegisterCaller(1), RegisterCaller(2)};
  }

  lemma OneDialing()
    ensures Reachable(TwoCallers(multiset{Dial(1), RegisterCaller(2)}, {1}, map[1 := Pending]))
  {
    hide Reachable, HandleGone;
    TwoRequested();
    var s2 := TwoCallers(multiset{RegisterCaller(1), RegisterCaller(2)}, {}, map[]);
    var s3 := TwoCallers(s2.flights - multiset{RegisterCaller(1)} + multiset{Dial(1)}, {} + {1}, map[1 := Pending]);
    assert RegisterCaller(1) in s2.flights && HandlerStep(s2, HandleRegister(1, true)) == Some(s3);
    HandlerReaches(s2, HandleRegister(1, true), s3);
    assert s3.flights == multiset{Dial(1), RegisterCaller(2)} && s3.pending == {1};
  }

  lemma TwoDialing()
    ensures Reachable(TwoCallers(multiset{Dial(1), Dial(2)}, {1, 2}, map[1 := Pending, 2 := Pending]))
  {
    hide Reachable, HandleGone;
    OneDialing();
    var s3 := TwoCallers(multiset{Dial(1), RegisterCaller(2)}, {1}, map[1 := Pending]);
    var s4 := TwoCallers(s3.flights - multiset{RegisterCaller(2)} + multiset{Dial(2)}, s3.pending + {2},
                         map[1 := Pending][2 := Pending]);
    assert RegisterCaller(2) in s3.flights && HandlerStep(s3, HandleRegister(2, true)) == Some(s4);
    HandlerReaches(s3, HandleRegister(2, true), s4);
    assert s4.flights == multiset{Dial(1), Dial(2)} && s4.pending == {1, 2};
    assert s4.status == map[1 := Pending, 2 := Pending];
  }

  lemma TwoDelivering()
    ensures Reachable(TwoCallers(multiset{SendConnected(1, 1), SendConnected(2, 2)}, {1, 2},
                                 map[1 := Pending, 2 := Pending]).(dialed := 2))
  {
    hide Reachable;
    TwoDialing();
    var status := map[1 := Pending, 2 := Pending];
    var s4 := TwoCallers(multiset{Dial(1), Dial(2)}, {1, 2}, status);
    var s5 := TwoCallers(s4.flights - multiset{Dial(1)} + multiset{SendConnected(1, 1)}, {1, 2}, status).(dialed := 1);
    assert Dial(1) in s4.flights && FlightStep(s4, DialDone(1, true)) == Some(s5);
    FlightReaches(s4, DialDone(1, true), s5);
    assert s5.flights == multiset{SendConnected(1, 1), Dial(2)};
    var s6 := TwoCallers(s5.flights - multiset{Dial(2)} + multiset{SendConnected(2, 2)}, {1, 2}, status).(dialed := 2);
    assert Dial(2) in s5.flights && FlightStep(s5, DialDone(2, true)) == Some(s6);
    FlightReaches(s5, DialDone(2, true), s6);
    assert s6.flights == multiset{SendConnected(1, 1), SendConnected(2, 2)};
  }

  lemma TwoEstablished() returns (s: State)
    ensures Reachable(s) && s.started && !s.exited && s.target == 1
    ensures s.conns == map[1 := 1, 2 := 2] && s.permanent == {}
  {
    hide Reachable, HandleGone;
    TwoDelivering();
    var s6 := TwoCallers(multiset{SendConnected(1, 1), SendConnected(2, 2)}, {1, 2},
                         map[1 := Pending, 2 := Pending]).(dialed := 2);
    var s7 := Accepted(s6, 1, 1);
    HandlerReaches(s6, HandleConnected(1, 1), s7);
    assert s7.flights == multiset{SendConnected(2, 2)} && s7.pending == {2};
    s := Accepted(s7, 2, 2);
    HandlerReaches(s7, HandleConnected(2, 2), s);
  }

  /** Such a request can be reached: two callers connect over a target of one, and one disconnects. */
  lemma StaleStatusReachable()
    ensures exists s :: Reachable(s) && 1 !in s.conns && 1 in s.status && s.status[1] == Established
  {
    hide Reachable, HandleGone, FreshIds, Held, FreshConns, Slots, Apart, StatusOk;
    var s := TwoEstablished();
    ReachableInvariant(s);
    var t := HandleGone(s, 1, true, false);
    StaleStatus(s, 1, false);
    GoneConfig(s, 1, true, false);
    assert |s.conns| == 2;
    HandlerReaches(s, HandleDisconnect(1, true, false), t.(removed := s.removed + 0));
    assert Reachable(t.(removed := s.removed + 0));
  }

  lemma GoneConfig(s: State, id: Id, retry: bool, reconnect: bool)
    ensures SameConfig(s, HandleGone(s, id, retry, reconnect))
  {
    hide AfterFailure;
  }
}
