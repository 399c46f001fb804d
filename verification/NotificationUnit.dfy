/**
 The notification unit: producers append to a bounded pending queue, a worker thread moves the
 pending notifications to its own queue and delivers them one by one.

 `Next` is the transition system of the unit, with one transition per section that a lock protects and
 one per delivery. The class below performs the same transitions on its fields.
 */
module NotificationUnit {

  /** Where the worker thread is. `exiting` marks the drain after the loop has seen the stop flag. */
  datatype Pc =
    | AtLoopHead(hasPending: bool)
    | AtNotify(exiting: bool)
    | AtPop(exiting: bool)
    | AtCopy
    | AtExit
    | Finished

  datatype Unit<N> = Unit(
    maxNotifications: nat,
    drainAtExit: bool,
    stopWork: bool,
    pending: seq<N>,
    notifications: seq<N>,
    pc: Pc,
    accepted: seq<N>,   // history: what add_notification let in
    delivered: seq<N>)  // history: what the receiver was given

  function Start<N>(maxNotifications: nat, drainAtExit: bool): Unit<N> {
    Unit(maxNotifications, drainAtExit, false, [], [], AtLoopHead(false), [], [])
  }

  function Add<N>(u: Unit<N>, n: N): Unit<N> {
    if !u.stopWork && |u.pending| <= u.maxNotifications
    then u.(pending := u.pending + [n], accepted := u.accepted + [n])
    else u
  }

  function Stop<N>(u: Unit<N>): Unit<N> {
    u.(stopWork := true)
  }

  function Moved<N>(u: Unit<N>): Unit<N> {
    u.(notifications := u.notifications + u.pending, pending := [])
  }

  /** One step of the worker thread. A timed wait ends at an arbitrary moment, so it needs no state of its own. */
  function Work<N>(u: Unit<N>): Unit<N> {
    match u.pc
    case AtLoopHead(hasPending) =>
      u.(pc := if u.stopWork then AtExit else if hasPending then AtNotify(false) else AtCopy)
    case AtNotify(exiting) =>
      if u.notifications == [] then u.(pc := if exiting then Finished else AtCopy)
      else u.(delivered := u.delivered + [u.notifications[0]], pc := AtPop(exiting))
    case AtPop(exiting) =>
      u.(notifications := if u.notifications == [] then [] else u.notifications[1..], pc := AtNotify(exiting))
    case AtCopy =>
      Moved(u).(pc := AtLoopHead(u.pending != []))
    case AtExit =>
      if u.drainAtExit && u.pending != [] then Moved(u).(pc := AtNotify(true)) else u.(pc := Finished)
    case Finished => u
  }

  /** What the worker holds and has not delivered yet. */
  function Undelivered<N>(u: Unit<N>): seq<N> {
    if u.pc.AtPop? && u.notifications != [] then u.notifications[1..] else u.notifications
  }

  /** Nothing is lost, repeated or reordered between acceptance and delivery. */
  ghost predicate Conserved<N>(u: Unit<N>) {
    && u.accepted == u.delivered + Undelivered(u) + u.pending
    && |u.pending| <= u.maxNotifications + 1
    && (u.pc.AtPop? ==> u.notifications != [] && u.delivered != []
                        && u.delivered[|u.delivered| - 1] == u.notifications[0])
  }

  datatype Action<N> = Adds(n: N) | Stops | Works

  function Next<N>(u: Unit<N>, a: Action<N>): Unit<N> {
    match a
    case Adds(n) => Add(u, n)
    case Stops => Stop(u)
    case Works => Work(u)
  }

  function Run<N>(u: Unit<N>, actions: seq<Action<N>>): Unit<N> {
    if actions == [] then u else Next(Run(u, actions[..|actions| - 1]), actions[|actions| - 1])
  }

  /**
   A notification is accepted, as the last one, exactly when work is not stopped and at most maxNotifications are
   pending.
   */
  lemma AddAccepts<N>(u: Unit<N>, n: N)
    ensures var v := Add(u, n);
            && (v.accepted == u.accepted + [n] <==> !u.stopWork && |u.pending| <= u.maxNotifications)
            && (v.accepted == u.accepted + [n] || v == u)
            && v == u.(accepted := v.accepted, pending := v.pending)
  {
    assert u.accepted + [n] != u.accepted;
  }

  lemma DeliverConserves<N>(u: Unit<N>)
    requires Conserved(u) && u.pc.AtNotify? && u.notifications != []
    ensures Conserved(Work(u))
  {
    var first, rest := u.notifications[0], u.notifications[1..];
    assert u.notifications == [first] + rest;
    assert u.delivered + ([first] + rest) + u.pending == (u.delivered + [first]) + rest + u.pending;
  }

  lemma MoveConserves<N>(u: Unit<N>)
    requires Conserved(u) && !u.pc.AtPop?
    ensures Moved(u).accepted == u.delivered + Moved(u).notifications + Moved(u).pending
  {
    assert u.delivered + u.notifications + u.pending == u.delivered + (u.notifications + u.pending) + [];
  }

  lemma WorkConserves<N>(u: Unit<N>)
    requires Conserved(u)
    ensures Conserved(Work(u))
  {
    if u.pc.AtNotify? && u.notifications != [] {
      DeliverConserves(u);
    } else if u.pc.AtCopy? || u.pc.AtExit? {
      MoveConserves(u);
    }
  }

  lemma NextConserves<N>(u: Unit<N>, a: Action<N>)
    requires Conserved(u)
    ensures Conserved(Next(u, a))
    ensures u.accepted <= Next(u, a).accepted && u.delivered <= Next(u, a).delivered
  {
    match a
    case Adds(n) => hide Conserved; AddConserves(u, n);
    case Stops =>
    case Works => hide Conserved, Work; WorkConserves(u); WorkDelivers(u);
  }

  lemma AddConserves<N>(u: Unit<N>, n: N)
    requires Conserved(u)
    ensures Conserved(Add(u, n)) && u.accepted <= Add(u, n).accepted
  {
    assert u.delivered + Undelivered(u) + (u.pending + [n]) == (u.delivered + Undelivered(u) + u.pending) + [n];
  }

  lemma WorkDelivers<N>(u: Unit<N>)
    ensures u.accepted <= Work(u).accepted && u.delivered <= Work(u).delivered
  {
  }

  /**
   In every interleaving of producers, the stop request and the worker, what was delivered is a prefix of what was
   accepted.
   */
  lemma {:induction false} RunConserves<N>(maxNotifications: nat, drainAtExit: bool, actions: seq<Action<N>>)
    ensures var u := Run(Start<N>(maxNotifications, drainAtExit), actions);
            && Conserved(u) && u.delivered <= u.accepted
            && |u.pending| <= maxNotifications + 1 && u.maxNotifications == maxNotifications
  {
    if actions != [] {
      RunConserves<N>(maxNotifications, drainAtExit, actions[..|actions| - 1]);
      NextConserves(Run(Start<N>(maxNotifications, drainAtExit), actions[..|actions| - 1]), actions[|actions| - 1]);
    }
  }

  /** The worker thread alone, for a number of steps. */
  function Steps<N>(u: Unit<N>, steps: nat): Unit<N> {
    if steps == 0 then u else Work(Steps(u, steps - 1))
  }

  /** Left alone, the delivery loop hands over all its notifications in order: two steps for each, one to leave. */
  lemma {:induction false} NotifyDrains<N>(u: Unit<N>, exiting: bool, k: nat)
    requires u.pc == AtNotify(exiting) && k <= |u.notifications|
    ensures Steps(u, 2 * k)
         == u.(notifications := u.notifications[k..], delivered := u.delivered + u.notifications[..k])
  {
    hide *;
    if k == 0 {
      assert u.delivered + u.notifications[..0] == u.delivered;
      NoSteps(u);
    } else {
      NotifyDrains(u, exiting, k - 1);
      TwoSteps(u, 2 * (k - 1));
      DeliverAndPop(Steps(u, 2 * (k - 1)), exiting);
      assert u.notifications[k - 1..][1..] == u.notifications[k..];
      assert u.delivered + u.notifications[..k - 1] + [u.notifications[k - 1]] == u.delivered + u.notifications[..k];
    }
  }

  lemma NoSteps<N>(u: Unit<N>)
    ensures Steps(u, 0) == u
  {
  }

  lemma TwoSteps<N>(u: Unit<N>, steps: nat)
    ensures Steps(u, steps + 2) == Work(Work(Steps(u, steps)))
  {
    hide Work;
  }

  lemma DeliverAndPop<N>(u: Unit<N>, exiting: bool)
    requires u.pc == AtNotify(exiting) && u.notifications != []
    ensures Work(Work(u)) == u.(notifications := u.notifications[1..], delivered := u.delivered + [u.notifications[0]])
  {
  }

  /** The worker looks for pending notifications only when it has none of its own. */
  ghost predicate Settled<N>(u: Unit<N>) {
    u.pc == AtLoopHead(false) || u.pc.AtCopy? ==> u.notifications == []
  }

  /** The worker is in its loop, and nobody has asked it to stop. */
  predicate Working<N>(u: Unit<N>) {
    && !u.stopWork && !u.pc.AtExit? && !u.pc.Finished?
    && (u.pc.AtNotify? || u.pc.AtPop? ==> !u.pc.exiting)
  }

  lemma NextSettled<N>(u: Unit<N>, a: Action<N>)
    requires Settled(u)
    ensures Settled(Next(u, a)) && (Working(u) && !a.Stops? ==> Working(Next(u, a)))
    ensures Next(u, a).stopWork <==> u.stopWork || a.Stops?
  {
  }

  /** As long as nobody has asked it to stop, the worker is in its loop. */
  lemma {:induction false} RunWorks<N>(maxNotifications: nat, drainAtExit: bool, actions: seq<Action<N>>)
    ensures var u := Run(Start<N>(maxNotifications, drainAtExit), actions);
            && Settled(u) && (u.stopWork <==> Stops in actions) && (Stops !in actions ==> Working(u))
  {
    if actions != [] {
      var k := |actions| - 1;
      RunWorks<N>(maxNotifications, drainAtExit, actions[..k]);
      NextSettled(Run(Start<N>(maxNotifications, drainAtExit), actions[..k]), actions[k]);
      hide Next, Settled, Working;
      assert actions == actions[..k] + [actions[k]];
    }
  }

  /** How many steps the worker needs at most until everything that was accepted is delivered. */
  function Due<N>(u: Unit<N>): nat {
    var own, copying := 2 * |u.notifications|, if |u.pending| == 0 then 0 else 2 * |u.pending| + 3;
    match u.pc
    case AtLoopHead(hasPending) => if hasPending then own + 2 + copying else 1 + copying
    case AtNotify(exiting) => own + 1 + copying
    case AtPop(exiting) => own + copying
    case _ => copying
  }

  ghost predicate AllDelivered<N>(u: Unit<N>) { u.delivered == u.accepted }

  lemma DueDecreases<N>(u: Unit<N>)
    requires Conserved(u) && Settled(u) && Working(u) && !AllDelivered(u)
    ensures Due(Work(u)) < Due(u) && Work(u).accepted == u.accepted && Work(u).stopWork == u.stopWork
  {
  }

  /** The worker alone delivers everything that was accepted, in order. */
  lemma {:induction false} EverythingIsDelivered<N>(u: Unit<N>) returns (steps: nat)
    requires Conserved(u) && Settled(u) && Working(u)
    ensures Steps(u, steps).delivered == u.accepted
    decreases Due(u)
  {
    if AllDelivered(u) {
      steps := 0;
    } else {
      DueDecreases(u);
      NextConserves(u, Works);
      NextSettled(u, Works);
      var rest := EverythingIsDelivered(Work(u));
      StepFirst(u, rest);
      steps := rest + 1;
    }
  }

  lemma {:induction false} StepFirst<N>(u: Unit<N>, steps: nat)
    ensures Steps(Work(u), steps) == Steps(u, steps + 1)
  {
    if steps > 0 {
      StepFirst(u, steps - 1);
    }
  }

  /**
   At its exit the worker delivers everything that was accepted if it is to drain and something is pending; otherwise
   it delivers nothing more. Then it is finished.
   */
  lemma ExitDelivers<N>(u: Unit<N>) returns (steps: nat)
    requires Conserved(u) && u.pc.AtExit?
    ensures Steps(u, steps).pc.Finished?
    ensures Steps(u, steps).delivered == if u.drainAtExit && |u.pending| > 0 then u.accepted else u.delivered
  {
    hide *;
    ExitMoves(u);
    var v := Work(u);
    if u.drainAtExit && |u.pending| > 0 {
      var k := |u.notifications| + |u.pending|;
      NotifyDrains(v, true, k);
      assert v.notifications[k..] == [] && v.notifications[..k] == v.notifications;
      OneStep(v, 2 * k);
      LeavesNotify(Steps(v, 2 * k));
      StepFirst(u, 2 * k + 1);
      steps := 2 * k + 2;
    } else {
      NoSteps(v);
      StepFirst(u, 0);
      steps := 1;
    }
  }

  lemma ExitMoves<N>(u: Unit<N>)
    requires Conserved(u) && u.pc.AtExit?
    ensures var v := Work(u);
            if u.drainAtExit && |u.pending| > 0
            then v.pc == AtNotify(true) && v.notifications == u.notifications + u.pending
                 && v.delivered + v.notifications == u.accepted && |v.notifications| == |u.notifications| + |u.pending|
            else v.pc.Finished? && v.delivered == u.delivered
  {
    assert u.delivered + (u.notifications + u.pending) == u.delivered + u.notifications + u.pending;
  }

  lemma LeavesNotify<N>(u: Unit<N>)
    requires u.pc == AtNotify(true) && u.notifications == []
    ensures Work(u).pc.Finished? && Work(u).delivered == u.delivered
  {
  }

  lemma OneStep<N>(u: Unit<N>, steps: nat)
    ensures Steps(u, steps + 1) == Work(Steps(u, steps))
  {
  }

  // ----- The unit itself -----

  datatype NotificationState = Ignore | Executeable | Done | Unknown

  /** The test before a delivery: it fails for no state. */
  predicate MayDeliver(state: NotificationState)
    ensures MayDeliver(state)
  {
    state != Ignore || state != Done
  }

  class Worker<N> {
    const maxNotifications: nat
    const stateOf: N -> NotificationState
    var stopWork: bool
    var pending: seq<N>
    var notifications: seq<N>
    ghost var accepted: seq<N>
    var receiver: seq<N>   // what on_notify has been called with

    ghost function State(pc: Pc, drainAtExit: bool): Unit<N>
      reads this
    {
      Unit(maxNotifications, drainAtExit, stopWork, pending, notifications, pc, accepted, receiver)
    }

    constructor (maxNotifications: nat, stateOf: N -> NotificationState)
      ensures this.stateOf == stateOf
      ensures forall drain :: State(AtLoopHead(false), drain) == Start(maxNotifications, drain)
    {
      this.maxNotifications, this.stateOf := maxNotifications, stateOf;
      stopWork, pending, notifications, accepted, receiver := false, [], [], [], [];
    }

    method AddNotification(n: N)
      modifies this
      ensures forall pc, drain :: State(pc, drain) == Add(old(State(pc, drain)), n)
    {
      if !stopWork && |pending| <= maxNotifications {
        pending := pending + [n];
        accepted := accepted + [n];
      }
    }

    method CopyPendingNotifications() returns (moved: bool)
      modifies this
      ensures forall drain :: State(AtLoopHead(moved), drain) == Work(old(State(AtCopy, drain)))
    {
      if pending == [] {
        return false;
      }
      while pending != []
        invariant notifications + pending == old(notifications + pending)
        invariant stopWork == old(stopWork)
        invariant accepted == old(accepted) && receiver == old(receiver)
        decreases |pending|
      {
        var event := pending[0];
        notifications := notifications + [event];
        pending := pending[1..];
      }
      assert notifications == notifications + pending;
      return true;
    }

    /**
     The delivery loop without interference; every notification is delivered, also one that is to be ignored or is
     done.
     */
    method NotifyReceiver()
      modifies this
      ensures forall drain :: State(AtNotify(false), drain)
                == Steps(old(State(AtNotify(false), drain)), 2 * |old(notifications)|)
      ensures notifications == [] && receiver == old(receiver + notifications)
    {
      ghost var k := 0;
      while notifications != []
        invariant k <= |old(notifications)|
        invariant notifications == old(notifications)[k..]
        invariant receiver == old(receiver) + old(notifications)[..k]
        invariant stopWork == old(stopWork) && pending == old(pending) && accepted == old(accepted)
        decreases |notifications|
      {
        var event := notifications[0];
        if MayDeliver(stateOf(event)) {
          receiver := receiver + [event];
        }
        notifications := notifications[1..];
        k := k + 1;
      }
      assert old(notifications)[..k] == old(notifications);
      forall drain
        ensures State(AtNotify(false), drain) == Steps(old(State(AtNotify(false), drain)), 2 * |old(notifications)|)
      {
        NotifyDrains(old(State(AtNotify(false), drain)), false, k);
      }
    }
  }
}
