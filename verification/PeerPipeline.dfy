/**
 The send pipeline of a peer: the queue handler and the output handler, two goroutines joined
 by channels of capacity one, with a pending list, a `waiting` flag, inventory trickling and a
 shutdown drain. `Step` is one atomic action of either handler or of the outside world; a run
 is any sequence of enabled actions from the initial state.
 */
module PeerPipeline {
  import opened Wrappers

  const OUTPUT_BUFFER: nat := 50
  const MAX_INV_TRICKLE: nat := 1000

  datatype Payload = User(content: int) | Inv(items: seq<Inventory>)

  /** A message and the channel to signal when it is done with, if the sender asked for that. */
  datatype Msg = Msg(payload: Payload, done: Option<nat>)

  datatype Inventory = Inventory(id: int, block: bool)

  /** Where the queue handler goes on after handing a message over. */
  datatype Resume = ToSelect | ToTrickle(batch: seq<Inventory>)

  datatype QueuePc =
    | QSelect
    | QTrickle(batch: seq<Inventory>)
    | QSending(msg: Msg, resume: Resume)
    | QDrainPending
    | QDrainOutput
    | QDone

  datatype OutPc =
    | OSelect
    | OStall(msg: Msg)
    | OWrite(msg: Msg)
    | OEncrypt(msg: Msg)
    | OFailed(msg: Msg)
    | OSignalErr(msg: Msg)
    | OSignalOk(msg: Msg)
    | OToken
    | OAwaitQueue
    | ODrain
    | ODrainSignal(msg: Msg)
    | ODone

  /**
   The channels, the handlers' local state and positions, the flags, and a record of what has
   happened: `enqueued` into the output queue, `taken` from it, `accepted` by `queuePacket`,
   `retired` by the output handler, `dropped` from the pending list, written to the `wire`,
   and the completion channels `signalled`. Of inventory: what was enqueued, for each item taken from
   the channel whether it was taken up with the version known, and for each item taken from the
   trickle queue whether the peer was found to know it.
   */
  datatype State = State(
    outputQueue: seq<Msg>,
    outputInv: seq<Inventory>,
    sendQueue: seq<Msg>,
    sendDone: nat,
    pending: seq<Msg>,
    invQueue: seq<Inventory>,
    waiting: bool,
    qpc: QueuePc,
    opc: OutPc,
    disconnect: nat,
    quit: bool,
    enqueued: seq<Msg>,
    taken: seq<Msg>,
    accepted: seq<Msg>,
    retired: seq<Msg>,
    dropped: seq<Msg>,
    wire: seq<Msg>,
    signalled: multiset<nat>,
    invEnqueued: seq<Inventory>,
    versions: seq<bool>,
    answers: seq<bool>)

  function Init(): State {
    State([], [], [], 0, [], [], false, QSelect, OSelect, 0, false, [], [], [], [], [], [], multiset{}, [], [], [])
  }

  datatype Action =
    // the outside world
    | Enqueue(msg: Msg)
    | EnqueueInv(inv: Inventory)
    | FlagDisconnect
    | CloseQuit
    | Tick
    // the queue handler
    | QTakeMsg
    | QTakeToken
    | QTakeInv(versionKnown: bool)
    | QTrickleOne(known: bool)
    | QSend
    | QQuit
    | QDropPending
    | QDropMsg
    | QDropInv
    | QFinish
    // the output handler
    | OTake
    | OStallSent
    | OCheckFlag
    | OWritten
    | OWriteError
    | ODisconnect
    | OSignal
    | OSendToken
    | OQuit
    | OQueueQuit
    | ODrainTake
    | OFinish

  predicate External(a: Action) {
    a.Enqueue? || a.EnqueueInv? || a.FlagDisconnect? || a.CloseQuit? || a.Tick?
  }

  function DoneOf(m: Msg): multiset<nat> {
    if m.done.Some? then multiset{m.done.value} else multiset{}
  }

  function After(r: Resume): QueuePc {
    match r
    case ToSelect => QSelect
    case ToTrickle(batch) => QTrickle(batch)
  }

  /** `queuePacket`: straight to the output handler when nothing is under way, else pending. */
  function QueuePacket(s: State, m: Msg, resume: Resume): State {
    var t := s.(accepted := s.accepted + [m], waiting := true);
    if s.waiting then t.(pending := s.pending + [m], qpc := After(resume))
    else t.(qpc := QSending(m, resume))
  }

  /** The next inventory item is off the channel. */
  function TookInv(s: State, versionKnown: bool): State
    requires s.outputInv != []
  {
    s.(outputInv := s.outputInv[1..], versions := s.versions + [versionKnown])
  }

  /** The next item is off the trickle queue. */
  function Dequeued(s: State, known: bool): State
    requires s.invQueue != []
  {
    s.(invQueue := s.invQueue[1..], answers := s.answers + [known])
  }

  /** One round of the trickle loop; `known` says whether the peer already has the item. */
  function TrickleOne(s: State, batch: seq<Inventory>, known: bool): State {
    if s.invQueue == [] then
      if batch == [] then s.(qpc := QSelect)
      else QueuePacket(s, Msg(Inv(batch), None), ToSelect)
    else
      var t := Dequeued(s, known);
      var grown := batch + [s.invQueue[0]];
      if known then t.(qpc := QTrickle(batch))
      else if |grown| >= MAX_INV_TRICKLE then QueuePacket(t, Msg(Inv(grown), None), ToTrickle([]))
      else t.(qpc := QTrickle(grown))
  }

  function OutsideStep(s: State, a: Action): Option<State> {
    match a
    case Enqueue(m) =>
      if |s.outputQueue| < OUTPUT_BUFFER && m.payload.User? then
        Some(s.(outputQueue := s.outputQueue + [m], enqueued := s.enqueued + [m]))
      else None
    case EnqueueInv(iv) =>
      if |s.outputInv| < OUTPUT_BUFFER then Some(s.(outputInv := s.outputInv + [iv], invEnqueued := s.invEnqueued + [iv])) else None
    case FlagDisconnect => Some(s.(disconnect := s.disconnect + 1))
    case CloseQuit => if s.disconnect > 0 then Some(s.(quit := true)) else None
    case Tick =>
      if !s.qpc.QSelect? then None
      else if s.disconnect > 0 || s.invQueue == [] then Some(s)
      else Some(s.(qpc := QTrickle([])))
    case _ => None
  }

  function QueueStep(s: State, a: Action): Option<State> {
    match a
    case QTakeMsg =>
      if s.qpc.QSelect? && s.outputQueue != [] then
        var m := s.outputQueue[0];
        Some(QueuePacket(s.(outputQueue := s.outputQueue[1..], taken := s.taken + [m]), m, ToSelect))
      else None
    case QTakeToken =>
      if s.qpc.QSelect? && s.sendDone > 0 then
        var t := s.(sendDone := s.sendDone - 1);
        if s.pending == [] then Some(t.(waiting := false))
        else Some(t.(pending := s.pending[1..], qpc := QSending(s.pending[0], ToSelect)))
      else None
    case QTakeInv(versionKnown) =>
      if s.qpc.QSelect? && s.outputInv != [] then
        var iv := s.outputInv[0];
        var t := TookInv(s, versionKnown);
        if !versionKnown then Some(t)
        else if iv.block then Some(QueuePacket(t, Msg(Inv([iv]), None), ToSelect))
        else Some(t.(invQueue := s.invQueue + [iv]))
      else None
    case QTrickleOne(known) =>
      if s.qpc.QTrickle? then Some(TrickleOne(s, s.qpc.batch, known)) else None
    case QSend =>
      if s.qpc.QSending? && |s.sendQueue| < 1 then
        Some(s.(sendQueue := s.sendQueue + [s.qpc.msg], qpc := After(s.qpc.resume)))
      else None
    case QQuit => if s.qpc.QSelect? && s.quit then Some(s.(qpc := QDrainPending)) else None
    case QDropPending =>
      if !s.qpc.QDrainPending? then None
      else if s.pending == [] then Some(s.(qpc := QDrainOutput))
      else
        var m := s.pending[0];
        Some(s.(pending := s.pending[1..], dropped := s.dropped + [m], signalled := s.signalled + DoneOf(m)))
    case QDropMsg =>
      if s.qpc.QDrainOutput? && s.outputQueue != [] then
        var m := s.outputQueue[0];
        Some(s.(outputQueue := s.outputQueue[1..], taken := s.taken + [m], signalled := s.signalled + DoneOf(m)))
      else None
    case QDropInv =>
      if s.qpc.QDrainOutput? && s.outputInv != [] then Some(TookInv(s, false)) else None
    case QFinish =>
      if s.qpc.QDrainOutput? && s.outputQueue == [] && s.outputInv == [] then Some(s.(qpc := QDone)) else None
    case _ => None
  }

  function OutStep(s: State, a: Action): Option<State> {
    match a
    case OTake =>
      if s.opc.OSelect? && s.sendQueue != [] then
        Some(s.(sendQueue := s.sendQueue[1..], opc := OStall(s.sendQueue[0])))
      else None
    case OStallSent => if s.opc.OStall? then Some(s.(opc := OWrite(s.opc.msg))) else None
    case OCheckFlag =>
      if !s.opc.OWrite? then None
      else if s.disconnect > 0 then Some(s.(opc := OSignalOk(s.opc.msg)))
      else Some(s.(opc := OEncrypt(s.opc.msg)))
    case OWritten =>
      if s.opc.OEncrypt? then Some(s.(wire := s.wire + [s.opc.msg], opc := OSignalOk(s.opc.msg))) else None
    case OWriteError => if s.opc.OEncrypt? then Some(s.(opc := OFailed(s.opc.msg))) else None
    case ODisconnect =>
      if s.opc.OFailed? then Some(s.(disconnect := s.disconnect + 1, opc := OSignalErr(s.opc.msg))) else None
    case OSignal =>
      if s.opc.OSignalOk? || s.opc.OSignalErr? || s.opc.ODrainSignal? then
        Some(s.(retired := s.retired + [s.opc.msg],
                signalled := s.signalled + DoneOf(s.opc.msg),
                opc := if s.opc.OSignalOk? then OToken else if s.opc.OSignalErr? then OSelect else ODrain))
      else None
    case OSendToken =>
      if s.opc.OToken? && s.sendDone < 1 then Some(s.(sendDone := s.sendDone + 1, opc := OSelect)) else None
    case OQuit => if s.opc.OSelect? && s.quit then Some(s.(opc := OAwaitQueue)) else None
    case OQueueQuit => if s.opc.OAwaitQueue? && s.qpc.QDone? then Some(s.(opc := ODrain)) else None
    case ODrainTake =>
      if s.opc.ODrain? && s.sendQueue != [] then
        Some(s.(sendQueue := s.sendQueue[1..], opc := ODrainSignal(s.sendQueue[0])))
      else None
    case OFinish => if s.opc.ODrain? && s.sendQueue == [] then Some(s.(opc := ODone)) else None
    case _ => None
  }

  function Step(s: State, a: Action): Option<State> {
    if External(a) then OutsideStep(s, a)
    else
      var q := QueueStep(s, a);
      if q.Some? then q else OutStep(s, a)
  }

  /** The state after a sequence of actions, if each was enabled in turn. */
  function Run(s: State, acts: seq<Action>): Option<State>
    decreases |acts|
  {
    if acts == [] then Some(s)
    else
      var t := Step(s, acts[0]);
      if t.None? then None else Run(t.value, acts[1..])
  }

  ghost predicate Reachable(s: State) {
    exists acts :: Run(Init(), acts) == Some(s)
  }

  // ----- The invariant -----

  /** The message the output handler holds and has not yet retired. */
  function OutHeld(o: OutPc): seq<Msg> {
    if o.OStall? || o.OWrite? || o.OEncrypt? || o.OFailed? || o.OSignalErr? || o.OSignalOk? || o.ODrainSignal?
    then [o.msg] else []
  }

  /** The message the queue handler is handing over. */
  function QueueHeld(q: QueuePc): seq<Msg> {
    if q.QSending? then [q.msg] else []
  }

  /** Messages and completion tokens between the two handlers. */
  function InFlight(s: State): nat {
    |QueueHeld(s.qpc)| + |s.sendQueue| + |OutHeld(s.opc)| + (if s.opc.OToken? then 1 else 0) + s.sendDone
  }

  /** At most one thing is in flight, and nothing at all when the queue handler is not waiting. */
  predicate OneInFlight(s: State) {
    && InFlight(s) <= 1
    && (!s.waiting ==> InFlight(s) == 0 && s.pending == [])
  }

  /** Nothing accepted is lost, duplicated or reordered. */
  predicate InOrder(s: State) {
    && s.accepted == s.retired + OutHeld(s.opc) + s.sendQueue + QueueHeld(s.qpc) + s.dropped + s.pending
    && (s.qpc.QSelect? || s.qpc.QTrickle? || s.qpc.QSending? ==> s.dropped == [])
    && (s.qpc.QDone? || s.qpc.QDrainOutput? ==> s.pending == [])
  }

  /** The wire has seen a prefix of what was accepted; while connected, all of what was retired. */
  predicate WireOk(s: State) {
    && s.wire <= s.retired + OutHeld(s.opc)
    && (s.opc.OEncrypt? ==> s.wire == s.retired)
    && (s.disconnect == 0 && (s.opc.OSelect? || s.opc.OStall? || s.opc.OWrite? || s.opc.OToken?) ==>
          s.wire == s.retired)
    && (s.disconnect == 0 && s.opc.OSignalOk? ==> s.wire == s.retired + [s.opc.msg])
    && (s.opc.OSignalErr? || s.opc.OAwaitQueue? || s.opc.ODrain? || s.opc.ODrainSignal? || s.opc.ODone?
        ==> s.disconnect > 0)
    && (s.quit ==> s.disconnect > 0)
  }

  function Dones(ms: seq<Msg>): multiset<nat> {
    if ms == [] then multiset{} else DoneOf(ms[0]) + Dones(ms[1..])
  }

  /** The completions still owed. */
  function Owed(s: State): multiset<nat> {
    Dones(OutHeld(s.opc)) + Dones(s.sendQueue) + Dones(QueueHeld(s.qpc)) + Dones(s.pending)
  }

  /** Every taken message has either been signalled or is still on its way, never both. */
  predicate DonesOk(s: State) {
    Dones(s.taken) == s.signalled + Owed(s)
  }

  function Users(ms: seq<Msg>): seq<Msg> {
    if ms == [] then []
    else (if ms[0].payload.User? then [ms[0]] else []) + Users(ms[1..])
  }

  /** What callers enqueued is accepted in the order it was enqueued. */
  predicate UserOrder(s: State) {
    && s.enqueued == s.taken + s.outputQueue
    && Users(s.accepted) <= s.taken
    && (s.qpc.QSelect? || s.qpc.QTrickle? || s.qpc.QSending? ==> Users(s.accepted) == s.taken)
    && (forall i :: 0 <= i < |s.outputQueue| ==> s.outputQueue[i].payload.User?)
  }

  /** Inventory messages carry between one and a thousand items and no completion channel. */
  predicate InvOk(s: State) {
    && (forall i :: 0 <= i < |s.accepted| && s.accepted[i].payload.Inv? ==>
          1 <= |s.accepted[i].payload.items| <= MAX_INV_TRICKLE && s.accepted[i].done == None)
    && (s.qpc.QTrickle? ==> |s.qpc.batch| < MAX_INV_TRICKLE)
    && (s.qpc.QSending? && s.qpc.resume.ToTrickle? ==> s.qpc.resume.batch == [])
  }

  /** The output handler drains only after the queue handler is gone, and leaves nothing. */
  predicate ShutdownOk(s: State) {
    && (s.opc.ODrain? || s.opc.ODrainSignal? || s.opc.ODone? ==> s.qpc.QDone?)
    && (s.opc.ODone? ==> s.sendQueue == [])
  }

  predicate Invariant(s: State) {
    OneInFlight(s) && InOrder(s) && WireOk(s) && DonesOk(s) && UserOrder(s) && InvOk(s) && ShutdownOk(s)
  }

  lemma {:induction false} DonesConcat(a: seq<Msg>, b: seq<Msg>)
    ensures Dones(a + b) == Dones(a) + Dones(b)
  {
    if a == [] {
      assert a + b == b;
    } else {
      assert (a + b)[1..] == a[1..] + b;
      DonesConcat(a[1..], b);
    }
  }

  lemma DonesOne(m: Msg)
    ensures Dones([m]) == DoneOf(m) && Dones([]) == multiset{}
  {
    assert [m][1..] == [];
  }

  lemma DonesSplit(ms: seq<Msg>)
    requires ms != []
    ensures Dones(ms) == DoneOf(ms[0]) + Dones(ms[1..])
  {
  }

  lemma {:induction false} UsersConcat(a: seq<Msg>, b: seq<Msg>)
    ensures Users(a + b) == Users(a) + Users(b)
  {
    if a == [] {
      assert a + b == b;
    } else {
      assert (a + b)[1..] == a[1..] + b;
      UsersConcat(a[1..], b);
    }
  }

  lemma UsersOne(m: Msg)
    ensures Users([m]) == if m.payload.User? then [m] else []
  {
    assert [m][1..] == [];
  }

  // ----- Every step keeps the invariant -----

  lemma OneInFlightKept(s: State, a: Action)
    requires OneInFlight(s) && Step(s, a).Some?
    ensures OneInFlight(Step(s, a).value)
  {
    hide QueueStep, OutStep, OneInFlight;
    if External(a) {
      OutsideInFlight(s, a);
    } else if QueueStep(s, a).Some? {
      QueueInFlight(s, a);
    } else {
      OutInFlight(s, a);
    }
  }

  lemma OutsideInFlight(s: State, a: Action)
    requires OneInFlight(s) && OutsideStep(s, a).Some?
    ensures OneInFlight(OutsideStep(s, a).value)
  {
  }

  lemma QueueInFlight(s: State, a: Action)
    requires OneInFlight(s) && QueueStep(s, a).Some?
    ensures OneInFlight(QueueStep(s, a).value)
  {
    hide TrickleOne, QueuePacket;
    if a.QTakeMsg? {
      var m := s.outputQueue[0];
      PacketInFlight(s.(outputQueue := s.outputQueue[1..], taken := s.taken + [m]), m, ToSelect);
    } else if a.QTakeInv? {
      PacketInFlight(TookInv(s, a.versionKnown), Msg(Inv([s.outputInv[0]]), None), ToSelect);
    } else if a.QTrickleOne? {
      TrickleInFlight(s, a.known);
    }
  }

  lemma PacketInFlight(s: State, m: Msg, resume: Resume)
    requires OneInFlight(s) && (s.qpc.QSelect? || s.qpc.QTrickle?)
    ensures OneInFlight(QueuePacket(s, m, resume))
  {
  }

  lemma TrickleInFlight(s: State, known: bool)
    requires OneInFlight(s) && s.qpc.QTrickle?
    ensures OneInFlight(TrickleOne(s, s.qpc.batch, known))
  {
  }

  lemma OutInFlight(s: State, a: Action)
    requires OneInFlight(s) && OutStep(s, a).Some?
    ensures OneInFlight(OutStep(s, a).value)
  {
  }

  lemma PacketInOrder(s: State, m: Msg, resume: Resume)
    requires OneInFlight(s) && InOrder(s) && (s.qpc.QSelect? || s.qpc.QTrickle?)
    ensures InOrder(QueuePacket(s, m, resume))
  {
  }

  lemma QueueInOrder(s: State, a: Action)
    requires OneInFlight(s) && InOrder(s) && QueueStep(s, a).Some?
    ensures InOrder(QueueStep(s, a).value)
  {
    hide QueuePacket, InFlight;
    if a.QTakeMsg? {
      TakeMsgInOrder(s);
    } else if a.QTakeInv? {
      TakeInvInOrder(s, a.versionKnown);
    } else if a.QTrickleOne? {
      TrickleInOrder(s, a.known);
    } else if a.QTakeToken? {
      TakeTokenInOrder(s);
    } else if a.QDropPending? {
      DropPendingInOrder(s);
    }
  }

  lemma TakeMsgInOrder(s: State)
    requires OneInFlight(s) && InOrder(s) && QueueStep(s, QTakeMsg).Some?
    ensures InOrder(QueueStep(s, QTakeMsg).value)
  {
    hide QueuePacket;
    PacketInOrder(s.(outputQueue := s.outputQueue[1..], taken := s.taken + [s.outputQueue[0]]), s.outputQueue[0],
                  ToSelect);
  }

  lemma TakeInvInOrder(s: State, versionKnown: bool)
    requires OneInFlight(s) && InOrder(s) && QueueStep(s, QTakeInv(versionKnown)).Some?
    ensures InOrder(QueueStep(s, QTakeInv(versionKnown)).value)
  {
    hide QueuePacket;
    PacketInOrder(TookInv(s, versionKnown), Msg(Inv([s.outputInv[0]]), None), ToSelect);
  }

  lemma TakeTokenInOrder(s: State)
    requires OneInFlight(s) && InOrder(s) && QueueStep(s, QTakeToken).Some?
    ensures InOrder(QueueStep(s, QTakeToken).value)
  {
    if s.pending != [] { assert s.pending == [s.pending[0]] + s.pending[1..]; }
  }

  lemma DropPendingInOrder(s: State)
    requires InOrder(s) && QueueStep(s, QDropPending).Some?
    ensures InOrder(QueueStep(s, QDropPending).value)
  {
    if s.pending != [] {
      assert s.dropped + s.pending == s.dropped + [s.pending[0]] + s.pending[1..];
    }
  }

  lemma TrickleInOrder(s: State, known: bool)
    requires OneInFlight(s) && InOrder(s) && s.qpc.QTrickle?
    ensures InOrder(TrickleOne(s, s.qpc.batch, known))
  {
    hide QueuePacket;
    var batch := s.qpc.batch;
    if s.invQueue == [] {
      PacketInOrder(s, Msg(Inv(batch), None), ToSelect);
    } else {
      PacketInOrder(Dequeued(s, known), Msg(Inv(batch + [s.invQueue[0]]), None), ToTrickle([]));
    }
  }

  lemma OutInOrder(s: State, a: Action)
    requires OneInFlight(s) && InOrder(s) && OutStep(s, a).Some?
    ensures InOrder(OutStep(s, a).value)
  {
    OutFrame(s, a);
    OutOrder(s, a);
  }

  /** What the output handler leaves alone. */
  lemma OutFrame(s: State, a: Action)
    requires OutStep(s, a).Some?
    ensures var t := OutStep(s, a).value;
            && t.outputQueue == s.outputQueue && t.outputInv == s.outputInv && t.pending == s.pending
            && t.invQueue == s.invQueue && t.waiting == s.waiting && t.qpc == s.qpc && t.quit == s.quit
            && t.enqueued == s.enqueued && t.taken == s.taken && t.accepted == s.accepted
            && t.dropped == s.dropped
            && t.invEnqueued == s.invEnqueued && t.versions == s.versions && t.answers == s.answers
  {
  }

  /** The output handler moves messages along without reordering them. */
  lemma OutOrder(s: State, a: Action)
    requires OutStep(s, a).Some?
    ensures var t := OutStep(s, a).value;
            t.retired + OutHeld(t.opc) + t.sendQueue == s.retired + OutHeld(s.opc) + s.sendQueue
  {
    if a.OTake? || a.ODrainTake? {
      TakeOrder(s, a);
    } else if a.OSignal? {
      assert s.retired + [s.opc.msg] + [] == s.retired + [s.opc.msg];
    } else {
      OutHeldSame(s, a);
    }
  }

  lemma TakeOrder(s: State, a: Action)
    requires (a.OTake? || a.ODrainTake?) && OutStep(s, a).Some?
    ensures var t := OutStep(s, a).value;
            t.retired + OutHeld(t.opc) + t.sendQueue == s.retired + OutHeld(s.opc) + s.sendQueue
  {
    assert s.sendQueue == [s.sendQueue[0]] + s.sendQueue[1..];
    assert s.retired + [] + s.sendQueue == s.retired + [s.sendQueue[0]] + s.sendQueue[1..];
  }

  /** Only taking and signalling change what is held, queued or retired. */
  lemma OutHeldSame(s: State, a: Action)
    requires OutStep(s, a).Some? && !a.OTake? && !a.ODrainTake? && !a.OSignal?
    ensures var t := OutStep(s, a).value;
            && OutHeld(t.opc) == OutHeld(s.opc) && t.sendQueue == s.sendQueue && t.retired == s.retired
            && t.signalled == s.signalled
  {
  }

  /** What the queue handler leaves alone. */
  predicate QueueLeaves(s: State, t: State) {
    && t.opc == s.opc && t.disconnect == s.disconnect && t.quit == s.quit
    && t.enqueued == s.enqueued && t.retired == s.retired && t.wire == s.wire
  }

  lemma QueueFrame(s: State, a: Action)
    requires QueueStep(s, a).Some?
    ensures QueueLeaves(s, QueueStep(s, a).value)
  {
    hide QueuePacket, TrickleOne;
    if a.QTakeMsg? {
      var m := s.outputQueue[0];
      PacketFrame(s.(outputQueue := s.outputQueue[1..], taken := s.taken + [m]), m, ToSelect);
    } else if a.QTakeInv? {
      PacketFrame(TookInv(s, a.versionKnown), Msg(Inv([s.outputInv[0]]), None), ToSelect);
    } else if a.QTrickleOne? {
      TrickleFrame(s, a.known);
    }
  }

  lemma PacketFrame(s: State, m: Msg, resume: Resume)
    ensures QueueLeaves(s, QueuePacket(s, m, resume))
  {
  }

  lemma TrickleFrame(s: State, known: bool)
    requires s.qpc.QTrickle?
    ensures QueueLeaves(s, TrickleOne(s, s.qpc.batch, known))
  {
  }

  lemma InOrderKept(s: State, a: Action)
    requires OneInFlight(s) && InOrder(s) && Step(s, a).Some?
    ensures InOrder(Step(s, a).value)
  {
    hide QueueStep, OutStep, InFlight, InOrder;
    if External(a) {
      OutsideInOrder(s, a);
    } else if QueueStep(s, a).Some? {
      QueueInOrder(s, a);
    } else {
      OutInOrder(s, a);
    }
  }

  lemma OutsideInOrder(s: State, a: Action)
    requires InOrder(s) && OutsideStep(s, a).Some?
    ensures InOrder(OutsideStep(s, a).value)
  {
  }

  lemma WireKept(s: State, a: Action)
    requires WireOk(s) && Step(s, a).Some?
    ensures WireOk(Step(s, a).value)
  {
    hide QueueStep, OutStep;
    if External(a) {
      hide WireOk;
      OutsideWire(s, a);
    } else if QueueStep(s, a).Some? {
      QueueFrame(s, a);
    } else {
      OutWire(s, a);
    }
  }

  lemma OutsideWire(s: State, a: Action)
    requires WireOk(s) && OutsideStep(s, a).Some?
    ensures WireOk(OutsideStep(s, a).value)
  {
  }

  lemma OutWire(s: State, a: Action)
    requires WireOk(s) && OutStep(s, a).Some?
    ensures WireOk(OutStep(s, a).value)
  {
  }

  // ----- Completion signals -----

  lemma PacketOwed(s: State, m: Msg, resume: Resume)
    requires s.qpc.QSelect? || s.qpc.QTrickle?
    ensures Owed(QueuePacket(s, m, resume)) == Owed(s) + DoneOf(m)
    ensures QueuePacket(s, m, resume).signalled == s.signalled && QueuePacket(s, m, resume).taken == s.taken
  {
    hide Dones;
    DonesOne(m);
    DonesConcat(s.pending, [m]);
  }

  lemma TrickleOwed(s: State, known: bool)
    requires s.qpc.QTrickle?
    ensures var t := TrickleOne(s, s.qpc.batch, known);
            Owed(t) == Owed(s) && t.signalled == s.signalled && t.taken == s.taken
  {
    hide QueuePacket, Dones;
    var batch := s.qpc.batch;
    if s.invQueue == [] {
      PacketOwed(s, Msg(Inv(batch), None), ToSelect);
    } else {
      PacketOwed(Dequeued(s, known), Msg(Inv(batch + [s.invQueue[0]]), None), ToTrickle([]));
    }
  }

  lemma TakeOwed(s: State, a: Action)
    requires (a.QTakeMsg? || a.QTakeInv?) && QueueStep(s, a).Some? && DonesOk(s)
    ensures DonesOk(QueueStep(s, a).value)
  {
    hide QueuePacket, Dones;
    if a.QTakeMsg? {
      var m := s.outputQueue[0];
      PacketOwed(s.(outputQueue := s.outputQueue[1..], taken := s.taken + [m]), m, ToSelect);
      DonesConcat(s.taken, [m]);
      DonesOne(m);
    } else {
      PacketOwed(TookInv(s, a.versionKnown), Msg(Inv([s.outputInv[0]]), None), ToSelect);
    }
  }

  lemma SendOwed(s: State, a: Action)
    requires (a.QTakeToken? || a.QSend?) && QueueStep(s, a).Some? && DonesOk(s)
    ensures DonesOk(QueueStep(s, a).value)
  {
    hide Dones;
    if a.QTakeToken? && s.pending != [] {
      DonesSplit(s.pending);
      DonesOne(s.pending[0]);
    } else if a.QSend? {
      DonesConcat(s.sendQueue, [s.qpc.msg]);
      DonesOne(s.qpc.msg);
    }
  }

  lemma DropPendingOwed(s: State)
    requires QueueStep(s, QDropPending).Some? && DonesOk(s)
    ensures DonesOk(QueueStep(s, QDropPending).value)
  {
    hide Dones;
    if s.pending != [] {
      DonesSplit(s.pending);
    }
  }

  lemma DropMsgOwed(s: State)
    requires QueueStep(s, QDropMsg).Some? && DonesOk(s)
    ensures DonesOk(QueueStep(s, QDropMsg).value)
  {
    hide Dones;
    DonesConcat(s.taken, [s.outputQueue[0]]);
    DonesOne(s.outputQueue[0]);
  }

  lemma DropOwed(s: State, a: Action)
    requires a.QQuit? || a.QDropPending? || a.QDropMsg? || a.QDropInv? || a.QFinish?
    requires QueueStep(s, a).Some? && DonesOk(s)
    ensures DonesOk(QueueStep(s, a).value)
  {
    hide Dones;
    if a.QDropPending? {
      DropPendingOwed(s);
    } else if a.QDropMsg? {
      DropMsgOwed(s);
    }
  }

  lemma OutOwed(s: State, a: Action)
    requires OutStep(s, a).Some? && DonesOk(s)
    ensures DonesOk(OutStep(s, a).value)
  {
    if a.OTake? || a.ODrainTake? {
      hide OutStep, DonesOk;
      OutTakeOwed(s, a);
    } else if a.OSignal? {
      hide OutStep, DonesOk;
      OutSignalOwed(s);
    } else {
      OutFrame(s, a);
      OutHeldSame(s, a);
      hide OutStep, Dones;
    }
  }

  lemma OutTakeOwed(s: State, a: Action)
    requires OutStep(s, a).Some? && DonesOk(s) && (a.OTake? || a.ODrainTake?)
    ensures DonesOk(OutStep(s, a).value)
  {
    hide Dones, DoneOf;
    var m := s.sendQueue[0];
    DonesSplit(s.sendQueue);
    DonesOne(m);
    Regroup(DoneOf(m), Dones(s.sendQueue[1..]), Dones(QueueHeld(s.qpc)), Dones(s.pending));
  }

  lemma Regroup(x: multiset<nat>, y: multiset<nat>, c: multiset<nat>, d: multiset<nat>)
    ensures multiset{} + (x + y) + c + d == x + y + c + d
  {
  }

  lemma OutSignalOwed(s: State)
    requires OutStep(s, OSignal).Some? && DonesOk(s)
    ensures DonesOk(OutStep(s, OSignal).value)
  {
    hide Dones;
    DonesOne(s.opc.msg);
  }

  lemma DonesKept(s: State, a: Action)
    requires DonesOk(s) && Step(s, a).Some?
    ensures DonesOk(Step(s, a).value)
  {
    hide QueueStep, OutStep, DonesOk;
    if External(a) {
      OutsideOwed(s, a);
    } else if QueueStep(s, a).Some? {
      QueueOwed(s, a);
    } else {
      OutOwed(s, a);
    }
  }

  lemma OutsideOwed(s: State, a: Action)
    requires DonesOk(s) && OutsideStep(s, a).Some?
    ensures DonesOk(OutsideStep(s, a).value)
  {
    hide Dones;
    if a.Tick? { DonesOne(Msg(User(0), None)); }
  }

  lemma QueueOwed(s: State, a: Action)
    requires QueueStep(s, a).Some? && DonesOk(s)
    ensures DonesOk(QueueStep(s, a).value)
  {
    hide DonesOk, QueuePacket;
    if a.QTakeMsg? || a.QTakeInv? {
      TakeOwed(s, a);
    } else if a.QTakeToken? || a.QSend? {
      SendOwed(s, a);
    } else if a.QTrickleOne? {
      TrickleDones(s, a.known);
    } else {
      DropOwed(s, a);
    }
  }

  lemma TrickleDones(s: State, known: bool)
    requires s.qpc.QTrickle? && DonesOk(s)
    ensures DonesOk(TrickleOne(s, s.qpc.batch, known))
  {
    hide TrickleOne, Dones;
    TrickleOwed(s, known);
  }

  // ----- The order callers see, and the shape of inventory messages -----

  lemma PacketUsers(s: State, m: Msg, resume: Resume)
    ensures var t := QueuePacket(s, m, resume);
            && Users(t.accepted) == Users(s.accepted) + (if m.payload.User? then [m] else [])
            && t.taken == s.taken && t.enqueued == s.enqueued && t.outputQueue == s.outputQueue
            && (t.qpc == After(resume) || t.qpc.QSending?)
  {
    UsersConcat(s.accepted, [m]);
    UsersOne(m);
  }

  lemma TakeMsgUsers(s: State)
    requires UserOrder(s) && QueueStep(s, QTakeMsg).Some?
    ensures UserOrder(QueueStep(s, QTakeMsg).value)
  {
    hide QueuePacket, Users;
    var m := s.outputQueue[0];
    PacketUsers(s.(outputQueue := s.outputQueue[1..], taken := s.taken + [m]), m, ToSelect);
    assert s.taken + s.outputQueue == s.taken + [m] + s.outputQueue[1..];
  }

  lemma TakeInvUsers(s: State, versionKnown: bool)
    requires UserOrder(s) && QueueStep(s, QTakeInv(versionKnown)).Some?
    ensures UserOrder(QueueStep(s, QTakeInv(versionKnown)).value)
  {
    hide QueuePacket, Users;
    PacketUsers(TookInv(s, versionKnown), Msg(Inv([s.outputInv[0]]), None), ToSelect);
  }

  lemma TrickleUsers(s: State, known: bool)
    requires UserOrder(s) && s.qpc.QTrickle?
    ensures UserOrder(TrickleOne(s, s.qpc.batch, known))
  {
    hide QueuePacket, Users;
    var batch := s.qpc.batch;
    if s.invQueue == [] {
      PacketUsers(s, Msg(Inv(batch), None), ToSelect);
    } else {
      PacketUsers(Dequeued(s, known), Msg(Inv(batch + [s.invQueue[0]]), None), ToTrickle([]));
    }
  }

  lemma DropMsgUsers(s: State)
    requires UserOrder(s) && QueueStep(s, QDropMsg).Some?
    ensures UserOrder(QueueStep(s, QDropMsg).value)
  {
    hide Users;
    assert s.taken + s.outputQueue == s.taken + [s.outputQueue[0]] + s.outputQueue[1..];
  }

  lemma QueueUsers(s: State, a: Action)
    requires UserOrder(s) && QueueStep(s, a).Some?
    ensures UserOrder(QueueStep(s, a).value)
  {
    hide QueuePacket, TrickleOne, Users;
    if a.QTakeMsg? {
      hide UserOrder;
      TakeMsgUsers(s);
    } else if a.QTakeInv? {
      hide UserOrder;
      TakeInvUsers(s, a.versionKnown);
    } else if a.QTrickleOne? {
      hide UserOrder;
      TrickleUsers(s, a.known);
    } else if a.QDropMsg? {
      hide UserOrder;
      DropMsgUsers(s);
    }
  }

  lemma OutsideUsers(s: State, a: Action)
    requires UserOrder(s) && OutsideStep(s, a).Some?
    ensures UserOrder(OutsideStep(s, a).value)
  {
    hide Users;
    if a.Enqueue? {
      assert s.taken + (s.outputQueue + [a.msg]) == s.taken + s.outputQueue + [a.msg];
    }
  }

  lemma UsersKept(s: State, a: Action)
    requires UserOrder(s) && Step(s, a).Some?
    ensures UserOrder(Step(s, a).value)
  {
    hide QueueStep, OutStep, Users;
    if External(a) {
      OutsideUsers(s, a);
    } else if QueueStep(s, a).Some? {
      QueueUsers(s, a);
    } else {
      OutFrame(s, a);
    }
  }

  lemma PacketInv(s: State, m: Msg, resume: Resume)
    requires InvOk(s) && (resume.ToTrickle? ==> resume.batch == [])
    requires m.payload.Inv? ==> 1 <= |m.payload.items| <= MAX_INV_TRICKLE && m.done == None
    ensures InvOk(QueuePacket(s, m, resume))
  {
  }

  lemma TrickleInv(s: State, known: bool)
    requires InvOk(s) && s.qpc.QTrickle?
    ensures InvOk(TrickleOne(s, s.qpc.batch, known))
  {
    hide QueuePacket;
    var batch := s.qpc.batch;
    if s.invQueue == [] {
      if batch != [] { PacketInv(s, Msg(Inv(batch), None), ToSelect); }
    } else {
      PacketInv(Dequeued(s, known), Msg(Inv(batch + [s.invQueue[0]]), None), ToTrickle([]));
    }
  }

  lemma QueueInv(s: State, a: Action)
    requires InvOk(s) && UserOrder(s) && QueueStep(s, a).Some?
    ensures InvOk(QueueStep(s, a).value)
  {
    hide QueuePacket, TrickleOne, Users;
    if a.QTakeMsg? {
      var m := s.outputQueue[0];
      PacketInv(s.(outputQueue := s.outputQueue[1..], taken := s.taken + [m]), m, ToSelect);
    } else if a.QTakeInv? {
      PacketInv(TookInv(s, a.versionKnown), Msg(Inv([s.outputInv[0]]), None), ToSelect);
    } else if a.QTrickleOne? {
      TrickleInv(s, a.known);
    }
  }

  lemma InvKept(s: State, a: Action)
    requires InvOk(s) && UserOrder(s) && Step(s, a).Some?
    ensures InvOk(Step(s, a).value)
  {
    hide QueueStep, OutStep, Users;
    if External(a) {
    } else if QueueStep(s, a).Some? {
      QueueInv(s, a);
    } else {
      OutFrame(s, a);
    }
  }

  lemma OutsideShutdown(s: State, a: Action)
    requires ShutdownOk(s) && OutsideStep(s, a).Some?
    ensures ShutdownOk(OutsideStep(s, a).value)
  {
  }

  lemma QueueShutdown(s: State, a: Action)
    requires ShutdownOk(s) && QueueStep(s, a).Some?
    ensures ShutdownOk(QueueStep(s, a).value)
  {
    hide QueuePacket, TrickleOne;
    QueueFrame(s, a);
    assert !s.qpc.QDone?;
  }

  lemma OutShutdown(s: State, a: Action)
    requires ShutdownOk(s) && OutStep(s, a).Some?
    ensures ShutdownOk(OutStep(s, a).value)
  {
    OutFrame(s, a);
  }

  lemma ShutdownKept(s: State, a: Action)
    requires ShutdownOk(s) && Step(s, a).Some?
    ensures ShutdownOk(Step(s, a).value)
  {
    hide OutsideStep, QueueStep, OutStep, ShutdownOk;
    if External(a) {
      OutsideShutdown(s, a);
    } else if QueueStep(s, a).Some? {
      QueueShutdown(s, a);
    } else {
      OutShutdown(s, a);
    }
  }

  // ----- Whole runs -----

  lemma StepKeeps(s: State, a: Action)
    requires Invariant(s) && Step(s, a).Some?
    ensures Invariant(Step(s, a).value)
  {
    hide Step, OneInFlight, InOrder, WireOk, DonesOk, UserOrder, InvOk, ShutdownOk;
    OneInFlightKept(s, a);
    InOrderKept(s, a);
    WireKept(s, a);
    DonesKept(s, a);
    UsersKept(s, a);
    InvKept(s, a);
    ShutdownKept(s, a);
  }

  lemma {:induction false} RunKeeps(s: State, acts: seq<Action>)
    requires Invariant(s) && Run(s, acts).Some?
    ensures Invariant(Run(s, acts).value)
    decreases |acts|
  {
    hide Step, Invariant;
    if acts != [] {
      StepKeeps(s, acts[0]);
      RunKeeps(Step(s, acts[0]).value, acts[1..]);
    }
  }

  /** Every reachable state satisfies the invariant. */
  lemma ReachableInvariant(s: State)
    requires Reachable(s)
    ensures Invariant(s)
  {
    var acts :| Run(Init(), acts) == Some(s);
    InitInvariant();
    RunKeeps(Init(), acts);
  }

  lemma InitInvariant()
    ensures Invariant(Init())
  {
  }

  /** A send on either of the two capacity-one channels never finds the channel full. */
  lemma SendsNeverBlock(s: State)
    requires Reachable(s)
    ensures s.qpc.QSending? ==> Step(s, QSend).Some?
    ensures s.opc.OToken? ==> Step(s, OSendToken).Some?
    ensures |s.sendQueue| <= 1 && s.sendDone <= 1
  {
    hide Reachable, InOrder, WireOk, DonesOk, UserOrder, InvOk, ShutdownOk;
    ReachableInvariant(s);
  }

  /** What went out is a prefix of what was accepted, and callers' messages go out in their order. */
  lemma WireIsPrefix(s: State)
    requires Reachable(s)
    ensures s.wire <= s.accepted
    ensures Users(s.wire) <= s.enqueued
  {
    ReachableInvariant(s);
    var rest := s.accepted[|s.wire|..];
    assert s.accepted == s.wire + rest;
    UsersConcat(s.wire, rest);
  }

  /** Once both handlers are done, every message taken has been signalled exactly once. */
  lemma SignalledExactlyOnce(s: State)
    requires Reachable(s) && s.qpc.QDone? && s.opc.ODone?
    ensures s.signalled == Dones(s.taken)
    ensures s.pending == [] && s.enqueued == s.taken + s.outputQueue
  {
    ReachableInvariant(s);
  }

  // ----- The handlers stop working when nobody gives them work, and stop only when done -----

  function QueueWeight(q: QueuePc): nat {
    match q
    case QSelect => 5
    case QTrickle(batch) => 6 + 11 * |batch|
    case QSending(_, ToSelect) => 8 + 5
    case QSending(_, ToTrickle(batch)) => 8 + 6 + 11 * |batch|
    case QDrainPending => 4
    case QDrainOutput => 3
    case QDone => 0
  }

  function OutWeight(o: OutPc): nat {
    match o
    case OSelect => 5
    case OStall(_) => 5 + 6
    case OWrite(_) => 5 + 5
    case OEncrypt(_) => 5 + 4
    case OFailed(_) => 5 + 3
    case OSignalOk(_) => 5 + 3
    case OSignalErr(_) => 5 + 2
    case OToken => 5 + 2
    case OAwaitQueue => 4
    case ODrain => 3
    case ODrainSignal(_) => 3 + 1
    case ODone => 0
  }

  /** How many more actions the handlers can take without new work from outside, at most. */
  function Rank(s: State): nat {
    20 * |s.outputInv| + 12 * |s.invQueue| + 10 * |s.outputQueue| + 9 * |s.pending| + 7 * |s.sendQueue| + s.sendDone
      + QueueWeight(s.qpc) + OutWeight(s.opc)
  }

  lemma PacketRank(s: State, m: Msg, resume: Resume)
    requires resume.ToTrickle? ==> resume.batch == []
    ensures Rank(QueuePacket(s, m, resume))
         <= Rank(s) - QueueWeight(s.qpc) + 9 + (if resume.ToSelect? then 5 else 6)
  {
  }

  lemma TrickleRank(s: State, known: bool)
    requires s.qpc.QTrickle?
    ensures Rank(TrickleOne(s, s.qpc.batch, known)) < Rank(s)
  {
    hide QueuePacket;
    var batch := s.qpc.batch;
    if s.invQueue == [] {
      PacketRank(s, Msg(Inv(batch), None), ToSelect);
    } else {
      PacketRank(Dequeued(s, known), Msg(Inv(batch + [s.invQueue[0]]), None), ToTrickle([]));
    }
  }

  lemma QueueRank(s: State, a: Action)
    requires QueueStep(s, a).Some?
    ensures Rank(QueueStep(s, a).value) < Rank(s)
  {
    hide QueuePacket, TrickleOne;
    if a.QTakeMsg? {
      var m := s.outputQueue[0];
      PacketRank(s.(outputQueue := s.outputQueue[1..], taken := s.taken + [m]), m, ToSelect);
    } else if a.QTakeInv? {
      PacketRank(TookInv(s, a.versionKnown), Msg(Inv([s.outputInv[0]]), None), ToSelect);
    } else if a.QTrickleOne? {
      TrickleRank(s, a.known);
    }
  }

  lemma OutRank(s: State, a: Action)
    requires OutStep(s, a).Some?
    ensures Rank(OutStep(s, a).value) < Rank(s)
  {
    OutFrame(s, a);
  }

  /** However the two handlers are scheduled, they take at most `Rank` actions on their own. */
  lemma {:induction false} HandlersQuiesce(s: State, acts: seq<Action>)
    requires Run(s, acts).Some? && forall i :: 0 <= i < |acts| ==> !External(acts[i])
    ensures |acts| <= Rank(s)
    decreases |acts|
  {
    hide QueueStep, OutStep, OutsideStep, Rank;
    if acts != [] {
      var a := acts[0];
      if QueueStep(s, a).Some? {
        QueueRank(s, a);
      } else {
        OutRank(s, a);
      }
      HandlersQuiesce(Step(s, a).value, acts[1..]);
    }
  }

  /** After the quit channel is closed, the handlers can only come to rest by finishing. */
  lemma ShutdownCompletes(s: State)
    requires Reachable(s) && s.quit
    requires forall a :: !External(a) ==> Step(s, a).None?
    ensures s.qpc.QDone? && s.opc.ODone?
    ensures s.signalled == Dones(s.taken)
  {
    ReachableInvariant(s);
    if !s.qpc.QDone? {
      QueueNotStuck(s);
    } else if !s.opc.ODone? {
      OutNotStuck(s);
    }
    SignalledExactlyOnce(s);
  }

  lemma QueueNotStuck(s: State)
    requires Invariant(s) && s.quit && !s.qpc.QDone?
    ensures exists a :: !External(a) && Step(s, a).Some?
  {
    hide Users, Dones, TrickleOne, OutStep;
    var a := match s.qpc
      case QSelect => QQuit
      case QTrickle(_) => QTrickleOne(false)
      case QSending(_, _) => QSend
      case QDrainPending => QDropPending
      case QDrainOutput => if s.outputQueue != [] then QDropMsg else if s.outputInv != [] then QDropInv else QFinish;
    assert Step(s, a).Some?;
  }

  lemma OutNotStuck(s: State)
    requires Invariant(s) && s.quit && s.qpc.QDone? && !s.opc.ODone?
    ensures exists a :: !External(a) && Step(s, a).Some?
  {
    hide Users, Dones;
    var a := match s.opc
      case OSelect => OQuit
      case OStall(_) => OStallSent
      case OWrite(_) => OCheckFlag
      case OEncrypt(_) => OWritten
      case OFailed(_) => ODisconnect
      case OSignalErr(_) => OSignal
      case OSignalOk(_) => OSignal
      case OToken => OSendToken
      case OAwaitQueue => OQueueQuit
      case ODrain => if s.sendQueue != [] then ODrainTake else OFinish
      case ODrainSignal(_) => OSignal;
    assert Step(s, a).Some?;
  }

  lemma ReachableStep(s: State, a: Action)
    requires Reachable(s) && Step(s, a).Some?
    ensures Reachable(Step(s, a).value)
  {
    hide Step;
    var acts :| Run(Init(), acts) == Some(s);
    RunSnoc(Init(), acts, a);
    assert Run(Init(), acts + [a]) == Some(Step(s, a).value);
  }

  lemma {:induction false} RunSnoc(s: State, acts: seq<Action>, a: Action)
    requires Run(s, acts).Some?
    ensures Run(s, acts + [a]) == Step(Run(s, acts).value, a)
    decreases |acts|
  {
    hide Step;
    if acts == [] {
      assert acts + [a] == [a];
      assert Run(s, [a]) == if Step(s, a).None? then None else Run(Step(s, a).value, []);
    } else {
      assert (acts + [a])[1..] == acts[1..] + [a];
      RunSnoc(Step(s, acts[0]).value, acts[1..], a);
    }
  }

  lemma {:induction false} ReachableRun(s: State, acts: seq<Action>)
    requires Reachable(s) && Run(s, acts).Some?
    ensures Reachable(Run(s, acts).value)
    decreases |acts|
  {
    hide Step, Reachable;
    if acts != [] {
      ReachableStep(s, acts[0]);
      ReachableRun(Step(s, acts[0]).value, acts[1..]);
    }
  }

  /** A disconnected peer with empty channels and its handlers at the given positions. */
  function Idle(q: QueuePc, o: OutPc): State {
    Init().(disconnect := 1, quit := true, qpc := q, opc := o)
  }

  lemma IdleDisconnected()
    ensures Reachable(Idle(QSelect, OSelect))
  {
    assert Run(Init(), []) == Some(Init());
    ReachableStep(Init(), FlagDisconnect);
    ReachableStep(Init().(disconnect := 1), CloseQuit);
  }

  lemma IdleQueueDone()
    ensures Reachable(Idle(QDone, OSelect))
  {
    hide Reachable;
    IdleDisconnected();
    ReachableStep(Idle(QSelect, OSelect), QQuit);
    ReachableStep(Idle(QDrainPending, OSelect), QDropPending);
    ReachableStep(Idle(QDrainOutput, OSelect), QFinish);
  }

  lemma IdleBothDone()
    ensures Reachable(Idle(QDone, ODone))
  {
    hide Reachable;
    IdleQueueDone();
    ReachableStep(Idle(QDone, OSelect), OQuit);
    ReachableStep(Idle(QDone, OAwaitQueue), OQueueQuit);
    ReachableStep(Idle(QDone, ODrain), OFinish);
  }

  // ----- Which queued messages are dealt with -----

  lemma PacketGoesOn(s: State, m: Msg, resume: Resume)
    ensures !QueuePacket(s, m, resume).qpc.QDone?
  {
  }

  lemma TrickleGoesOn(s: State, batch: seq<Inventory>, known: bool)
    ensures !TrickleOne(s, batch, known).qpc.QDone?
  {
  }

  lemma QueueFinishes(s: State, a: Action)
    requires QueueStep(s, a).Some?
    ensures !s.qpc.QDone?
    ensures QueueStep(s, a).value.qpc.QDone? ==> s.outputQueue == [] && QueueStep(s, a).value.taken == s.taken
  {
    hide QueuePacket, TrickleOne;
    if a.QTakeMsg? {
      var m := s.outputQueue[0];
      PacketGoesOn(s.(outputQueue := s.outputQueue[1..], taken := s.taken + [m]), m, ToSelect);
    } else if a.QTakeInv? {
      PacketGoesOn(TookInv(s, a.versionKnown), Msg(Inv([s.outputInv[0]]), None), ToSelect);
    } else if a.QTrickleOne? {
      TrickleGoesOn(s, s.qpc.batch, a.known);
    }
  }

  /** Finishing is final, takes nothing more, and needs an empty output queue. */
  lemma FinishIsFinal(s: State, a: Action)
    requires Step(s, a).Some?
    ensures s.enqueued <= Step(s, a).value.enqueued
    ensures s.qpc.QDone? ==> Step(s, a).value.qpc.QDone? && Step(s, a).value.taken == s.taken
    ensures !s.qpc.QDone? && Step(s, a).value.qpc.QDone? ==>
              s.outputQueue == [] && Step(s, a).value.taken == s.taken && Step(s, a).value.enqueued == s.enqueued
  {
    hide QueueStep, OutStep;
    if External(a) {
    } else if QueueStep(s, a).Some? {
      QueueFinishes(s, a);
      QueueFrame(s, a);
    } else {
      OutFrame(s, a);
    }
  }

  lemma {:induction false} DoneStaysDone(s: State, acts: seq<Action>)
    requires Run(s, acts).Some? && s.qpc.QDone?
    ensures Run(s, acts).value.qpc.QDone? && Run(s, acts).value.taken == s.taken
    decreases |acts|
  {
    hide Step;
    if acts != [] {
      FinishIsFinal(s, acts[0]);
      DoneStaysDone(Step(s, acts[0]).value, acts[1..]);
    }
  }

  /** A queue handler that finishes later takes all that is queued by now, in order. */
  lemma {:induction false} FinishingTakesAll(s: State, acts: seq<Action>)
    requires Invariant(s) && !s.qpc.QDone? && Run(s, acts).Some? && Run(s, acts).value.qpc.QDone?
    ensures s.enqueued <= Run(s, acts).value.taken
    decreases |acts|
  {
    hide Step, OneInFlight, InOrder, WireOk, DonesOk, InvOk, ShutdownOk, Users;
    var t := Step(s, acts[0]).value;
    FinishIsFinal(s, acts[0]);
    StepKeeps(s, acts[0]);
    if t.qpc.QDone? {
      DoneStaysDone(t, acts[1..]);
    } else {
      FinishingTakesAll(t, acts[1..]);
    }
  }

  /**
   A message is dealt with exactly when it is queued before the queue handler finishes: whatever
   happens after the call, once that handler is done the message has been taken, at its own place,
   if and only if the handler was not done at the call. Nothing later changes that.
   */
  lemma TakenIffQueuedInTime(s: State, m: Msg, acts: seq<Action>)
    requires Reachable(s) && Step(s, Enqueue(m)).Some?
    requires Run(Step(s, Enqueue(m)).value, acts).Some? && Run(Step(s, Enqueue(m)).value, acts).value.qpc.QDone?
    ensures var end := Run(Step(s, Enqueue(m)).value, acts).value;
            && (|s.enqueued| < |end.taken| <==> !s.qpc.QDone?)
            && (!s.qpc.QDone? ==> end.taken[|s.enqueued|] == m)
            && (end.opc.ODone? ==> end.signalled == Dones(end.taken))
  {
    hide Reachable, OneInFlight, InOrder, WireOk, DonesOk, InvOk, ShutdownOk, Users, Dones;
    var t := Step(s, Enqueue(m)).value;
    ReachableInvariant(s);
    ReachableStep(s, Enqueue(m));
    ReachableInvariant(t);
    if s.qpc.QDone? {
      DoneStaysDone(t, acts);
    } else {
      FinishingTakesAll(t, acts);
    }
    ReachableRun(t, acts);
    var end := Run(t, acts).value;
    if end.opc.ODone? {
      SignalledExactlyOnce(end);
    }
  }

  /**
   A caller that saw the peer connected but enqueues after the final drain is never
   signalled: the message stays in the output queue.
   */
  lemma LateMessageIsLost(m: Msg)
    requires m.payload.User?
    ensures exists s :: Reachable(s) && s.qpc.QDone? && s.opc.ODone? && s.outputQueue == [m]
                        && s.signalled == multiset{}
  {
    hide Reachable;
    IdleBothDone();
    var late := Idle(QDone, ODone).(outputQueue := [] + [m], enqueued := [] + [m]);
    ReachableStep(Idle(QDone, ODone), Enqueue(m));
    assert Step(Idle(QDone, ODone), Enqueue(m)) == Some(late);
    assert [] + [m] == [m];
    assert Reachable(late);
  }
}
