/**
 What the send pipeline delivers: every inventory item handed to it is accounted for, in order, and
 a connected pipeline comes to rest only when all it accepted has been written.
 */
module PeerDelivery {
  import opened Wrappers
  import opened PeerPipeline

  // ----- Inventory -----

  /** All inventory that messages carry. */
  function Items(ms: seq<Msg>): seq<Inventory>
    decreases |ms|
  {
    if ms == [] then []
    else Items(ms[..|ms| - 1]) + (if ms[|ms| - 1].payload.Inv? then ms[|ms| - 1].payload.items else [])
  }

  /** The block items, or the others. */
  function OfKind(ivs: seq<Inventory>, block: bool): seq<Inventory>
    decreases |ivs|
  {
    if ivs == [] then []
    else OfKind(ivs[..|ivs| - 1], block) + (if ivs[|ivs| - 1].block == block then [ivs[|ivs| - 1]] else [])
  }

  /** Of the items that have been answered for, those answered as wanted. */
  function Picked(ivs: seq<Inventory>, answers: seq<bool>, wanted: bool): seq<Inventory>
    requires |answers| <= |ivs|
    decreases |answers|
  {
    if answers == [] then []
    else
      var n := |answers| - 1;
      Picked(ivs, answers[..n], wanted) + (if answers[n] == wanted then [ivs[n]] else [])
  }

  lemma ItemsSnoc(ms: seq<Msg>, m: Msg)
    ensures Items(ms + [m]) == Items(ms) + (if m.payload.Inv? then m.payload.items else [])
  {
    assert (ms + [m])[..|ms|] == ms;
  }

  lemma OfKindSnoc(ivs: seq<Inventory>, iv: Inventory, block: bool)
    ensures OfKind(ivs + [iv], block) == OfKind(ivs, block) + (if iv.block == block then [iv] else [])
  {
    assert (ivs + [iv])[..|ivs|] == ivs;
  }

  lemma {:induction false} OfKindConcat(a: seq<Inventory>, b: seq<Inventory>, block: bool)
    ensures OfKind(a + b, block) == OfKind(a, block) + OfKind(b, block)
    decreases |b|
  {
    if b == [] {
      assert a + b == a;
    } else {
      var init, last := b[..|b| - 1], b[|b| - 1];
      assert a + b == (a + init) + [last] && b == init + [last];
      OfKindSnoc(a + init, last, block);
      OfKindSnoc(init, last, block);
      OfKindConcat(a, init, block);
    }
  }

  lemma PickedSnoc(ivs: seq<Inventory>, answers: seq<bool>, answer: bool, wanted: bool)
    requires |answers| < |ivs|
    ensures Picked(ivs, answers + [answer], wanted) ==
            Picked(ivs, answers, wanted) + (if answer == wanted then [ivs[|answers|]] else [])
  {
    assert (answers + [answer])[..|answers|] == answers;
  }

  /** Items not answered for yet make no difference. */
  lemma {:induction false} PickedLonger(ivs: seq<Inventory>, iv: Inventory, answers: seq<bool>, wanted: bool)
    requires |answers| <= |ivs|
    ensures Picked(ivs + [iv], answers, wanted) == Picked(ivs, answers, wanted)
    decreases |answers|
  {
    if answers != [] {
      PickedLonger(ivs, iv, answers[..|answers| - 1], wanted);
    }
  }

  /** The batch that the trickle loop is filling. */
  function Batch(q: QueuePc): seq<Inventory> {
    match q
    case QTrickle(batch) => batch
    case QSending(_, ToTrickle(batch)) => batch
    case _ => []
  }

  function Resumed(r: Resume): seq<Inventory> {
    if r.ToTrickle? then r.batch else []
  }

  /** The inventory taken up with the version known. */
  function TakenUp(s: State): seq<Inventory>
    requires |s.versions| <= |s.invEnqueued|
  {
    Picked(s.invEnqueued, s.versions, true)
  }

  /** Of that, what is to trickle. */
  function ToTrickleOut(s: State): seq<Inventory>
    requires |s.versions| <= |s.invEnqueued|
  {
    OfKind(TakenUp(s), false)
  }

  predicate AllPlain(ivs: seq<Inventory>) {
    forall i :: 0 <= i < |ivs| ==> !ivs[i].block
  }

  /** An inventory message carries one block, or up to a thousand other items. */
  predicate Shape(m: Msg) {
    m.payload.Inv? ==>
      || (|m.payload.items| == 1 && m.payload.items[0].block)
      || (1 <= |m.payload.items| <= 1000 && AllPlain(m.payload.items))
  }

  /**
   The channel holds what is left of the enqueued inventory. Of what was taken up, every block has
   been accepted in a message of its own; of the rest, the items accepted, then the batch being
   filled, are in order exactly those that the peer did not know, and the trickle queue holds what
   has not been looked at yet.
   */
  ghost predicate InventoryKept(s: State) {
    && |s.versions| <= |s.invEnqueued| && s.outputInv == s.invEnqueued[|s.versions|..]
    && OfKind(Items(s.accepted), true) == OfKind(TakenUp(s), true)
    && |s.answers| <= |ToTrickleOut(s)| && s.invQueue == ToTrickleOut(s)[|s.answers|..]
    && OfKind(Items(s.accepted), false) + Batch(s.qpc) == Picked(ToTrickleOut(s), s.answers, false)
    && AllPlain(Batch(s.qpc)) && AllPlain(s.invQueue)
    && (forall i :: 0 <= i < |s.accepted| ==> Shape(s.accepted[i]))
  }

  lemma {:induction false} PlainKind(ivs: seq<Inventory>)
    requires AllPlain(ivs)
    ensures OfKind(ivs, false) == ivs && OfKind(ivs, true) == []
    decreases |ivs|
  {
    if ivs != [] {
      PlainKind(ivs[..|ivs| - 1]);
      assert ivs == ivs[..|ivs| - 1] + [ivs[|ivs| - 1]];
    }
  }

  /** What handing a message over does to the inventory record. */
  lemma PacketInventory(s: State, m: Msg, resume: Resume)
    ensures var t := QueuePacket(s, m, resume);
      && t.accepted == s.accepted + [m] && Batch(t.qpc) == Resumed(resume) && SameRecord(s, t)
  {
  }

  predicate SameRecord(s: State, t: State) {
    && t.invEnqueued == s.invEnqueued && t.versions == s.versions && t.answers == s.answers
    && t.invQueue == s.invQueue && t.outputInv == s.outputInv
  }

  /** Nothing about inventory changes. */
  lemma SameKept(s: State, t: State)
    requires InventoryKept(s) && SameRecord(s, t) && t.accepted == s.accepted && Batch(t.qpc) == Batch(s.qpc)
    ensures InventoryKept(t)
  {
  }

  lemma UserKept(s: State, t: State, m: Msg)
    requires InventoryKept(s) && SameRecord(s, t) && m.payload.User? && t.accepted == s.accepted + [m]
    requires Batch(t.qpc) == Batch(s.qpc)
    ensures InventoryKept(t)
  {
    hide OfKind, Items, Picked;
    ItemsSnoc(s.accepted, m);
    assert Items(s.accepted) + [] == Items(s.accepted);
  }

  lemma EnqueueKept(s: State, t: State, iv: Inventory)
    requires InventoryKept(s) && t == s.(outputInv := s.outputInv + [iv], invEnqueued := s.invEnqueued + [iv])
    ensures InventoryKept(t)
  {
    hide OfKind, Items, Picked;
    PickedLonger(s.invEnqueued, iv, s.versions, true);
  }

  /** An item is off the channel; `taken` says whether it was taken up. */
  lemma TookRecord(s: State, taken: bool)
    requires InventoryKept(s) && s.outputInv != []
    ensures var t := TookInv(s, taken);
      && |t.versions| <= |t.invEnqueued| && t.outputInv == t.invEnqueued[|t.versions|..]
      && TakenUp(t) == TakenUp(s) + (if taken then [s.outputInv[0]] else [])
  {
    hide OfKind, Items, Picked;
    PickedSnoc(s.invEnqueued, s.versions, taken, true);
  }

  lemma DropKept(s: State)
    requires InventoryKept(s) && s.outputInv != []
    ensures InventoryKept(TookInv(s, false))
  {
    hide OfKind, Items, Picked;
    TookRecord(s, false);
    assert TakenUp(s) + [] == TakenUp(s);
  }

  lemma BlockTaken(s: State)
    requires InventoryKept(s) && s.outputInv != [] && s.outputInv[0].block && Batch(s.qpc) == []
    ensures InventoryKept(QueuePacket(TookInv(s, true), Msg(Inv([s.outputInv[0]]), None), ToSelect))
  {
    hide OfKind, Items, Picked, QueuePacket;
    var iv := s.outputInv[0];
    var m := Msg(Inv([iv]), None);
    TookRecord(s, true);
    PacketInventory(TookInv(s, true), m, ToSelect);
    BlockAdds(s, QueuePacket(TookInv(s, true), m, ToSelect), iv, m);
  }

  lemma BlockAdds(s: State, t: State, iv: Inventory, m: Msg)
    requires InventoryKept(s) && iv.block && m == Msg(Inv([iv]), None) && Batch(s.qpc) == [] == Batch(t.qpc)
    requires |t.versions| <= |t.invEnqueued| && t.outputInv == t.invEnqueued[|t.versions|..]
    requires TakenUp(t) == TakenUp(s) + [iv] && t.accepted == s.accepted + [m]
    requires t.answers == s.answers && t.invQueue == s.invQueue
    ensures InventoryKept(t)
  {
    hide OfKind, Items, Picked, TakenUp;
    ItemsSnoc(s.accepted, m);
    OfKindSnoc(TakenUp(s), iv, true);
    OfKindSnoc(TakenUp(s), iv, false);
    OfKindSnoc(Items(s.accepted), iv, true);
    OfKindSnoc(Items(s.accepted), iv, false);
    assert OfKind(TakenUp(s), false) + [] == OfKind(TakenUp(s), false);
    assert OfKind(Items(s.accepted), false) + [] == OfKind(Items(s.accepted), false);
  }

  lemma PlainTaken(s: State)
    requires InventoryKept(s) && s.outputInv != [] && !s.outputInv[0].block
    ensures InventoryKept(TookInv(s, true).(invQueue := s.invQueue + [s.outputInv[0]]))
  {
    hide OfKind, Items, Picked;
    var iv := s.outputInv[0];
    TookRecord(s, true);
    OfKindSnoc(TakenUp(s), iv, true);
    OfKindSnoc(TakenUp(s), iv, false);
    assert OfKind(TakenUp(s), true) + [] == OfKind(TakenUp(s), true);
    PickedLonger(ToTrickleOut(s), iv, s.answers, false);
    var t := TookInv(s, true).(invQueue := s.invQueue + [iv]);
    assert TakenUp(t) == TakenUp(TookInv(s, true));
  }

  /** A batch is accepted as a message. */
  lemma BatchAccepted(s: State, t: State, batch: seq<Inventory>, m: Msg)
    requires |s.versions| <= |s.invEnqueued| && |s.answers| <= |ToTrickleOut(s)| && SameRecord(s, t)
    requires s.outputInv == s.invEnqueued[|s.versions|..] && s.invQueue == ToTrickleOut(s)[|s.answers|..]
    requires OfKind(Items(s.accepted), true) == OfKind(TakenUp(s), true) && AllPlain(s.invQueue)
    requires OfKind(Items(s.accepted), false) + batch == Picked(ToTrickleOut(s), s.answers, false)
    requires forall i :: 0 <= i < |s.accepted| ==> Shape(s.accepted[i])
    requires AllPlain(batch) && 1 <= |batch| <= 1000 && m == Msg(Inv(batch), None)
    requires t.accepted == s.accepted + [m] && Batch(t.qpc) == []
    ensures InventoryKept(t)
  {
    hide OfKind, Items, Picked, AllPlain;
    ItemsSnoc(s.accepted, m);
    OfKindConcat(Items(s.accepted), batch, true);
    OfKindConcat(Items(s.accepted), batch, false);
    PlainKind(batch);
    NoPlain();
    assert TakenUp(t) == TakenUp(s);
    assert OfKind(Items(s.accepted), true) + [] == OfKind(Items(s.accepted), true);
  }

  lemma NoPlain()
    ensures AllPlain([])
  {
  }

  /** One more item has been looked at; `grown` is the batch with it, if it was not known. */
  lemma LookedAt(s: State, known: bool)
    requires InventoryKept(s) && s.invQueue != []
    ensures var t := Dequeued(s, known);
      var grown := if known then Batch(s.qpc) else Batch(s.qpc) + [s.invQueue[0]];
      && |t.answers| <= |ToTrickleOut(t)| && t.invQueue == ToTrickleOut(t)[|t.answers|..] && AllPlain(t.invQueue)
      && OfKind(Items(t.accepted), false) + grown == Picked(ToTrickleOut(t), t.answers, false)
      && AllPlain(grown)
  {
    hide OfKind, Items, Picked;
    var t := Dequeued(s, known);
    assert ToTrickleOut(t) == ToTrickleOut(s);
    PickedSnoc(ToTrickleOut(s), s.answers, known, false);
    assert s.invQueue[0] == ToTrickleOut(s)[|s.answers|];
  }

  lemma TrickleKept(s: State, known: bool)
    requires InventoryKept(s) && s.qpc.QTrickle? && |s.qpc.batch| < 1000
    ensures InventoryKept(TrickleOne(s, s.qpc.batch, known))
  {
    hide OfKind, Items, Picked, QueuePacket, AllPlain, Shape;
    var batch := s.qpc.batch;
    if s.invQueue == [] {
      if batch != [] {
        var m := Msg(Inv(batch), None);
        PacketInventory(s, m, ToSelect);
        BatchAccepted(s, QueuePacket(s, m, ToSelect), batch, m);
      } else {
        NoPlain();
      }
    } else {
      LookedAt(s, known);
      var t, grown := Dequeued(s, known), batch + [s.invQueue[0]];
      assert TakenUp(t) == TakenUp(s);
      if !known && |grown| >= MAX_INV_TRICKLE {
        var m := Msg(Inv(grown), None);
        PacketInventory(t, m, ToTrickle([]));
        BatchAccepted(t, QueuePacket(t, m, ToTrickle([])), grown, m);
      }
    }
  }

  lemma QueueKept(s: State, a: Action)
    requires InventoryKept(s) && InvOk(s) && UserOrder(s) && QueueStep(s, a).Some?
    ensures InventoryKept(QueueStep(s, a).value)
  {
    hide OfKind, Items, Picked, QueuePacket, TrickleOne, InventoryKept, Users;
    if a.QTakeMsg? {
      var m := s.outputQueue[0];
      var t := s.(outputQueue := s.outputQueue[1..], taken := s.taken + [m]);
      PacketInventory(t, m, ToSelect);
      UserKept(s, QueuePacket(t, m, ToSelect), m);
    } else if a.QTakeInv? {
      if !a.versionKnown {
        DropKept(s);
      } else if s.outputInv[0].block {
        BlockTaken(s);
      } else {
        PlainTaken(s);
      }
    } else if a.QTrickleOne? {
      TrickleKept(s, a.known);
    } else if a.QDropInv? {
      DropKept(s);
    } else {
      SameKept(s, QueueStep(s, a).value);
    }
  }

  lemma InventoryStep(s: State, a: Action)
    requires Invariant(s) && InventoryKept(s) && Step(s, a).Some?
    ensures InventoryKept(Step(s, a).value)
  {
    hide QueueStep, OutStep, InventoryKept, OneInFlight, InOrder, WireOk, DonesOk, ShutdownOk, Users, UserOrder, InvOk;
    if External(a) {
      if a.EnqueueInv? {
        EnqueueKept(s, Step(s, a).value, a.inv);
      } else {
        SameKept(s, Step(s, a).value);
      }
    } else if QueueStep(s, a).Some? {
      QueueKept(s, a);
    } else {
      OutFrame(s, a);
      SameKept(s, Step(s, a).value);
    }
  }

  /**
   A trickle message that is not full is only made when the trickle queue is empty, and the loop
   ends with it.
   */
  lemma TrickleFills(s: State, known: bool)
    requires InvOk(s) && s.qpc.QTrickle?
    ensures var t := TrickleOne(s, s.qpc.batch, known);
      && (s.invQueue != [] ==> t.invQueue == s.invQueue[1..])
      && (t.accepted != s.accepted ==>
            && |t.accepted| == |s.accepted| + 1
            && var m := t.accepted[|s.accepted|];
               && m.payload.Inv?
               && (|m.payload.items| == 1000 || (s.invQueue == [] && (t.qpc == QSelect || t.qpc == QSending(m, ToSelect)))))
  {
  }

  // ----- Nothing is left lying -----

  /** While connected, the queue handler serves, and waits only for something that is under way; the channels hold fifty. */
  predicate Lively(s: State) {
    && |s.outputQueue| <= 50 && |s.outputInv| <= 50
    && (s.qpc.QDrainPending? || s.qpc.QDrainOutput? || s.qpc.QDone? ==> s.disconnect > 0)
    && (s.waiting && s.disconnect == 0 ==> InFlight(s) == 1)
  }

  lemma PacketLively(s: State, m: Msg, resume: Resume)
    requires Lively(s) && OneInFlight(s) && (s.qpc.QSelect? || s.qpc.QTrickle?)
    ensures Lively(QueuePacket(s, m, resume))
  {
  }

  lemma TrickleLively(s: State, known: bool)
    requires Lively(s) && OneInFlight(s) && s.qpc.QTrickle?
    ensures Lively(TrickleOne(s, s.qpc.batch, known))
  {
    hide QueuePacket;
    var batch := s.qpc.batch;
    if s.invQueue == [] {
      PacketLively(s, Msg(Inv(batch), None), ToSelect);
    } else {
      PacketLively(Dequeued(s, known), Msg(Inv(batch + [s.invQueue[0]]), None), ToTrickle([]));
    }
  }

  lemma QueueLively(s: State, a: Action)
    requires Lively(s) && OneInFlight(s) && WireOk(s) && QueueStep(s, a).Some?
    ensures Lively(QueueStep(s, a).value)
  {
    hide QueuePacket, TrickleOne;
    if a.QTakeMsg? {
      var m := s.outputQueue[0];
      PacketLively(s.(outputQueue := s.outputQueue[1..], taken := s.taken + [m]), m, ToSelect);
    } else if a.QTakeInv? {
      PacketLively(TookInv(s, a.versionKnown), Msg(Inv([s.outputInv[0]]), None), ToSelect);
    } else if a.QTrickleOne? {
      TrickleLively(s, a.known);
    }
  }

  lemma OutLively(s: State, a: Action)
    requires Lively(s) && OneInFlight(s) && WireOk(s) && OutStep(s, a).Some?
    ensures Lively(OutStep(s, a).value)
  {
    OutFrame(s, a);
  }

  lemma LivelyStep(s: State, a: Action)
    requires Invariant(s) && Lively(s) && Step(s, a).Some?
    ensures Lively(Step(s, a).value)
  {
    hide QueueStep, OutStep, OneInFlight, InOrder, WireOk, DonesOk, ShutdownOk, Users, UserOrder, InvOk;
    if External(a) {
    } else if QueueStep(s, a).Some? {
      QueueLively(s, a);
    } else {
      OutLively(s, a);
    }
  }

  // ----- Whole runs -----

  lemma {:induction false} RunDelivers(s: State, acts: seq<Action>)
    requires Invariant(s) && InventoryKept(s) && Lively(s) && Run(s, acts).Some?
    ensures InventoryKept(Run(s, acts).value) && Lively(Run(s, acts).value)
    decreases |acts|
  {
    hide Step, Invariant, InventoryKept, Lively;
    if acts != [] {
      StepKeeps(s, acts[0]);
      InventoryStep(s, acts[0]);
      LivelyStep(s, acts[0]);
      RunDelivers(Step(s, acts[0]).value, acts[1..]);
    }
  }

  lemma ReachableDelivery(s: State)
    requires Reachable(s)
    ensures InventoryKept(s) && Lively(s)
  {
    hide Run, Invariant, InventoryKept, Lively;
    var acts :| Run(Init(), acts) == Some(s);
    InitInvariant();
    InitDelivery();
    RunDelivers(Init(), acts);
  }

  lemma InitDelivery()
    ensures InventoryKept(Init()) && Lively(Init())
  {
    hide Items, OfKind, Picked;
    NothingYet();
  }

  lemma NothingYet()
    ensures Items([]) == [] && OfKind([], true) == [] && OfKind([], false) == []
    ensures Picked([], [], true) == [] && Picked([], [], false) == []
  {
  }

  /** In every reachable state the inventory is accounted for, item by item and in order. */
  lemma InventoryConserved(s: State)
    requires Reachable(s)
    ensures InventoryKept(s)
  {
    hide Reachable, InventoryKept, Lively;
    ReachableDelivery(s);
  }

  /**
   A connected pipeline in which no handler can move has written everything it accepted: all
   messages of its callers, every block it took up, and of the other inventory all that the peer
   did not know, up to what waits for the next tick.
   */
  lemma RestMeansWritten(s: State)
    requires Reachable(s) && s.disconnect == 0
    requires forall a :: !External(a) ==> Step(s, a).None?
    ensures s.wire == s.accepted && s.pending == [] && s.outputQueue == [] && s.outputInv == []
    ensures Users(s.wire) == s.enqueued
    ensures |s.versions| == |s.invEnqueued| && |s.answers| <= |ToTrickleOut(s)|
    ensures OfKind(Items(s.wire), true) == OfKind(TakenUp(s), true)
    ensures OfKind(Items(s.wire), false) == Picked(ToTrickleOut(s), s.answers, false)
    ensures s.invQueue == ToTrickleOut(s)[|s.answers|..]
  {
    hide Reachable, Users, Dones, OfKind, Items, Picked;
    ReachableInvariant(s);
    ReachableDelivery(s);
    QueueAtRest(s);
    OutAtRest(s);
  }

  lemma QueueAtRest(s: State)
    requires Invariant(s) && Lively(s) && s.disconnect == 0
    requires forall a :: !External(a) ==> Step(s, a).None?
    ensures s.qpc == QSelect && s.outputQueue == [] && s.outputInv == [] && s.sendDone == 0
  {
    hide Users, Dones, TrickleOne, OutStep, QueuePacket;
    assert Step(s, QTakeMsg).None? && Step(s, QTakeInv(false)).None? && Step(s, QTakeToken).None?;
    assert Step(s, QTrickleOne(false)).None? && Step(s, QSend).None?;
  }

  lemma OutAtRest(s: State)
    requires Invariant(s) && s.disconnect == 0
    requires forall a :: !External(a) ==> Step(s, a).None?
    ensures s.sendDone == 0 ==> s.opc == OSelect && s.sendQueue == []
  {
    hide Users, Dones, QueueStep;
    var a := match s.opc
      case OStall(_) => OStallSent
      case OWrite(_) => OCheckFlag
      case OEncrypt(_) => OWritten
      case OFailed(_) => ODisconnect
      case OSignalErr(_) => OSignal
      case OSignalOk(_) => OSignal
      case OToken => OSendToken
      case _ => OTake;
    assert Step(s, a).None? && OutStep(s, a).None?;
  }

  /** The channels from outside hold fifty, and take a message or an item exactly when there is room. */
  lemma ChannelsBounded(s: State, m: Msg, iv: Inventory)
    requires Reachable(s) && m.payload.User?
    ensures |s.outputQueue| <= 50 && |s.outputInv| <= 50
    ensures Step(s, Enqueue(m)).Some? <==> |s.outputQueue| != 50
    ensures Step(s, EnqueueInv(iv)).Some? <==> |s.outputInv| != 50
  {
    hide Reachable, InventoryKept;
    ReachableDelivery(s);
  }

  // ----- A tick empties the trickle queue -----

  predicate InLoop(q: QueuePc) {
    q.QTrickle? || (q.QSending? && q.resume.ToTrickle?)
  }

  /** The first `n` items to trickle have been looked at, or the loop that will do so is running. */
  predicate Looked(s: State, n: nat)
    requires |s.versions| <= |s.invEnqueued|
  {
    |s.answers| >= n || (InLoop(s.qpc) && n <= |ToTrickleOut(s)|)
  }

  lemma LoopQueueStep(s: State, a: Action, n: nat)
    requires InventoryKept(s) && QueueStep(s, a).Some? && Looked(s, n) && |s.answers| < n
    ensures var t := QueueStep(s, a).value; |t.versions| <= |t.invEnqueued| && Looked(t, n)
  {
    hide OfKind, Items, Picked;
    var t := QueueStep(s, a).value;
    assert a.QTrickleOne? || a.QSend?;
    assert t.invEnqueued == s.invEnqueued && t.versions == s.versions;
    assert TakenUp(t) == TakenUp(s);
  }

  lemma LoopOtherStep(s: State, t: State, n: nat)
    requires InventoryKept(s) && Looked(s, n) && t.qpc == s.qpc && t.answers == s.answers && t.versions == s.versions
    requires t.invEnqueued == s.invEnqueued || exists iv :: t.invEnqueued == s.invEnqueued + [iv]
    ensures |t.versions| <= |t.invEnqueued| && Looked(t, n)
  {
    hide OfKind, Items, Picked;
    if t.invEnqueued != s.invEnqueued {
      var iv :| t.invEnqueued == s.invEnqueued + [iv];
      PickedLonger(s.invEnqueued, iv, s.versions, true);
    }
    assert TakenUp(t) == TakenUp(s);
  }

  /** No answer is taken back. */
  lemma AnswersGrow(s: State, a: Action)
    requires Step(s, a).Some?
    ensures |s.answers| <= |Step(s, a).value.answers|
  {
    hide QueuePacket, OutStep;
    if External(a) {
    } else if QueueStep(s, a).Some? {
      QueueAnswers(s, a);
    } else {
      OutFrame(s, a);
    }
  }

  lemma QueueAnswers(s: State, a: Action)
    requires QueueStep(s, a).Some?
    ensures |s.answers| <= |QueueStep(s, a).value.answers|
  {
    hide QueuePacket;
    if a.QTakeMsg? {
      var m := s.outputQueue[0];
      PacketInventory(s.(outputQueue := s.outputQueue[1..], taken := s.taken + [m]), m, ToSelect);
    } else if a.QTakeInv? {
      PacketInventory(TookInv(s, a.versionKnown), Msg(Inv([s.outputInv[0]]), None), ToSelect);
    } else if a.QTrickleOne? {
      PacketInventory(s, Msg(Inv(s.qpc.batch), None), ToSelect);
      if s.invQueue != [] {
        PacketInventory(Dequeued(s, a.known), Msg(Inv(s.qpc.batch + [s.invQueue[0]]), None), ToTrickle([]));
      }
    }
  }

  lemma LookedStep(s: State, a: Action, n: nat)
    requires InventoryKept(s) && Looked(s, n) && Step(s, a).Some? && InventoryKept(Step(s, a).value)
    ensures Looked(Step(s, a).value, n)
  {
    hide QueueStep, OutStep, InventoryKept, ToTrickleOut;
    RecordFits(s);
    RecordFits(Step(s, a).value);
    AnswersGrow(s, a);
    if |s.answers| < n {
      if External(a) {
        LoopOutside(s, a, n);
      } else if QueueStep(s, a).Some? {
        LoopQueueStep(s, a, n);
      } else {
        OutFrame(s, a);
        LoopOtherStep(s, Step(s, a).value, n);
      }
    }
  }

  lemma RecordFits(s: State)
    requires InventoryKept(s)
    ensures |s.versions| <= |s.invEnqueued|
  {
    hide OfKind, Items, Picked;
  }

  lemma LoopOutside(s: State, a: Action, n: nat)
    requires InventoryKept(s) && Looked(s, n) && |s.answers| < n && External(a) && Step(s, a).Some?
    ensures var t := Step(s, a).value; |t.versions| <= |t.invEnqueued| && Looked(t, n)
  {
    hide InventoryKept, OfKind, Items, Picked;
    LoopOtherStep(s, Step(s, a).value, n);
  }

  lemma {:induction false} RunLooks(s: State, acts: seq<Action>, n: nat)
    requires Invariant(s) && InventoryKept(s) && Looked(s, n) && Run(s, acts).Some?
    ensures InventoryKept(Run(s, acts).value) && Looked(Run(s, acts).value, n)
    decreases |acts|
  {
    hide Step, Invariant, InventoryKept, Looked;
    if acts != [] {
      StepKeeps(s, acts[0]);
      InventoryStep(s, acts[0]);
      LookedStep(s, acts[0], n);
      RunLooks(Step(s, acts[0]).value, acts[1..], n);
    }
  }

  /**
   After a tick, whatever else happens, a connected pipeline that has come to rest has looked at all
   that was waiting to trickle; what of it the peer did not know has then been written.
   */
  lemma TickEmpties(s: State, acts: seq<Action>)
    requires Reachable(s) && s.qpc == QSelect && s.disconnect == 0
    requires Step(s, Tick).Some? && Run(Step(s, Tick).value, acts).Some?
    requires var t := Run(Step(s, Tick).value, acts).value;
      t.disconnect == 0 && forall a :: !External(a) ==> Step(t, a).None?
    ensures |s.versions| <= |s.invEnqueued| && |ToTrickleOut(s)| <= |Run(Step(s, Tick).value, acts).value.answers|
  {
    hide Reachable, ToTrickleOut, Run, Users, Dones;
    ReachableInvariant(s);
    ReachableDelivery(s);
    var m, n := Step(s, Tick).value, |ToTrickleOut(s)|;
    StepKeeps(s, Tick);
    InventoryStep(s, Tick);
    LivelyStep(s, Tick);
    TickLooks(s, n);
    RunLooks(m, acts, n);
    RunKeeps(m, acts);
    RunDelivers(m, acts);
    QueueAtRest(Run(m, acts).value);
  }

  /** While disconnecting, a tick sends nothing. */
  lemma QuietTick(s: State)
    requires s.qpc == QSelect && s.disconnect > 0
    ensures Step(s, Tick) == Some(s)
  {
  }

  lemma TickLooks(s: State, n: nat)
    requires InventoryKept(s) && s.qpc == QSelect && s.disconnect == 0 && n == |ToTrickleOut(s)|
    ensures Step(s, Tick).Some? && |Step(s, Tick).value.versions| <= |Step(s, Tick).value.invEnqueued|
    ensures Looked(Step(s, Tick).value, n)
  {
    hide OfKind, Items, Picked;
    assert TakenUp(Step(s, Tick).value) == TakenUp(s);
  }

  // ----- A message goes out -----

  lemma TakesOne(m: Msg)
    requires m.payload.User?
    ensures Reachable(Carrying(m, OStall(m)))
  {
    hide Reachable;
    var s0 := Init();
    InitReachable();
    var s1 := s0.(outputQueue := [] + [m], enqueued := [] + [m]);
    ReachableStep(s0, Enqueue(m));
    var s2 := s1.(outputQueue := s1.outputQueue[1..], taken := [] + [m], accepted := [] + [m], waiting := true,
                  qpc := QSending(m, ToSelect));
    ReachableStep(s1, QTakeMsg);
    assert Step(s1, QTakeMsg) == Some(s2);
    var s3 := s2.(sendQueue := [] + [m], qpc := QSelect);
    ReachableStep(s2, QSend);
    var s4 := s3.(sendQueue := s3.sendQueue[1..], opc := OStall(m));
    ReachableStep(s3, OTake);
    assert s4 == Carrying(m, OStall(m));
  }

  lemma InitReachable()
    ensures Reachable(Init())
  {
    assert Run(Init(), []) == Some(Init());
  }

  /** One message has been taken and is with the output handler. */
  function Carrying(m: Msg, o: OutPc): State {
    Init().(enqueued := [m], taken := [m], accepted := [m], waiting := true, opc := o)
  }

  /** A queued message can be written and signalled, with the peer connected and the handlers at rest again. */
  lemma SendsOne(m: Msg)
    requires m.payload.User?
    ensures exists s :: Reachable(s) && s.disconnect == 0 && s.wire == [m] && s.signalled == DoneOf(m) && !s.waiting
  {
    hide Reachable;
    TakesOne(m);
    ReachableStep(Carrying(m, OStall(m)), OStallSent);
    ReachableStep(Carrying(m, OWrite(m)), OCheckFlag);
    ReachableStep(Carrying(m, OEncrypt(m)), OWritten);
    var s7 := Carrying(m, OSignalOk(m)).(wire := [] + [m]);
    ReachableStep(s7, OSignal);
    var s8 := s7.(retired := [] + [m], signalled := multiset{} + DoneOf(m), opc := OToken);
    ReachableStep(s8, OSendToken);
    var s9 := s8.(sendDone := 1, opc := OSelect);
    ReachableStep(s9, QTakeToken);
    var s10 := s9.(sendDone := 0, waiting := false);
    assert Reachable(s10) && s10.wire == [m] && s10.signalled == DoneOf(m);
  }
}
