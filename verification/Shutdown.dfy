/**
 Starting and stopping the server: who still uses the context, and when it may be freed.

 The counter of worker threads is incremented by the starting thread without the mutex and decremented by
 the workers under it, so both are modelled as a load and a store.
 */
module Shutdown {

  /** Where a worker is. Its last access to the context is to unlock the mutex. */
  datatype Worker =
    | Born          // has not got its connection record yet
    | Serving
    | Leaving       // out of its loop
    | Locked        // holds the mutex
    | Loaded(v: int)
    | Stored
    | Gone

  datatype Starter = Spawning | Spawned | Loading(v: int) | Started

  datatype Master = NoMaster | Accepting | Waiting | Destroying | Signalling | Finished

  datatype Stopper = Idle | Polling | Freeing | Stopped

  datatype Server = Server(
    stopFlag: int,
    numThreads: int,
    starter: Starter,
    workers: seq<Worker>,
    master: Master,
    stopper: Stopper,
    freed: bool)

  datatype Action =
    | Spawn(ok: bool) | LoadCount | StoreCount | ReturnContext          // mg_start
    | GetMemory(i: nat, ok: bool) | Serve(i: nat) | SeeStop(i: nat)     // a worker
    | Lock(i: nat) | Load(i: nat) | Store(i: nat) | Unlock(i: nat)
    | Accept | SeeStopped | Check | Destroy | Signal                    // the master
    | CallStop | Poll | Free                                            // mg_stop

  /** The master thread may have failed to start; that goes unnoticed. */
  function Initial(masterStarted: bool): Server {
    Server(0, 0, Spawning, [], if masterStarted then Accepting else NoMaster, Idle, false)
  }

  predicate Holds(w: Worker) {
    w.Locked? || w.Loaded? || w.Stored?
  }

  predicate MutexFree(s: Server) {
    forall i :: 0 <= i < |s.workers| ==> !Holds(s.workers[i])
  }

  predicate At(s: Server, i: nat, w: Worker) {
    i < |s.workers| && s.workers[i] == w
  }

  predicate Enabled(s: Server, a: Action) {
    match a
    case Spawn(ok) => s.starter == Spawning
    case LoadCount => s.starter == Spawned
    case StoreCount => s.starter.Loading?
    case ReturnContext => s.starter == Spawning
    case GetMemory(i, ok) => At(s, i, Born)
    case Serve(i) => At(s, i, Serving)
    case SeeStop(i) => At(s, i, Serving) && s.stopFlag != 0
    case Lock(i) => At(s, i, Leaving) && MutexFree(s)
    case Load(i) => At(s, i, Locked)
    case Store(i) => i < |s.workers| && s.workers[i].Loaded?
    case Unlock(i) => At(s, i, Stored)
    case Accept => s.master == Accepting
    case SeeStopped => s.master == Accepting && s.stopFlag != 0
    case Check => s.master == Waiting && MutexFree(s)
    case Destroy => s.master == Destroying
    case Signal => s.master == Signalling
    case CallStop => s.starter == Started && s.stopper == Idle
    case Poll => s.stopper == Polling
    case Free => s.stopper == Freeing
  }

  function SetWorker(s: Server, i: nat, w: Worker): Server
    requires i < |s.workers|
  {
    s.(workers := s.workers[i := w])
  }

  function Step(s: Server, a: Action): Server
    requires Enabled(s, a)
  {
    match a
    case Spawn(ok) => if ok then s.(workers := s.workers + [Born], starter := Spawned) else s
    case LoadCount => s.(starter := Loading(s.numThreads))
    case StoreCount => s.(numThreads := s.starter.v + 1, starter := Spawning)
    case ReturnContext => s.(starter := Started)
    case GetMemory(i, ok) => SetWorker(s, i, if ok then Serving else Leaving)
    case Serve(i) => s
    case SeeStop(i) => SetWorker(s, i, Leaving)
    case Lock(i) => SetWorker(s, i, Locked)
    case Load(i) => SetWorker(s, i, Loaded(s.numThreads))
    case Store(i) => SetWorker(s, i, Stored).(numThreads := s.workers[i].v - 1)
    case Unlock(i) => SetWorker(s, i, Gone)
    case Accept => s
    case SeeStopped => s.(master := Waiting)
    case Check => if s.numThreads > 0 then s else s.(master := Destroying)
    case Destroy => s.(master := Signalling)
    case Signal => s.(stopFlag := 2, master := Finished)
    case CallStop => s.(stopFlag := 1, stopper := Polling)
    case Poll => if s.stopFlag == 2 then s.(stopper := Freeing) else s
    case Free => s.(freed := true, stopper := Stopped)
  }

  predicate IsRun(s: Server, actions: seq<Action>)
    decreases |actions|, 1
  {
    actions == [] || (IsRun(s, actions[..|actions| - 1])
        && Enabled(Run(s, actions[..|actions| - 1]), actions[|actions| - 1]))
  }

  function Run(s: Server, actions: seq<Action>): Server
    requires IsRun(s, actions)
    decreases |actions|, 2
  {
    if actions == [] then s else Step(Run(s, actions[..|actions| - 1]), actions[|actions| - 1])
  }

  // ----- The counter -----

  predicate Counted(w: Worker) {
    !w.Stored? && !w.Gone?
  }

  function Total(workers: seq<Worker>, weight: Worker -> nat): nat {
    if workers == [] then 0 else Total(workers[..|workers| - 1], weight) + weight(workers[|workers| - 1])
  }

  lemma {:induction false} TotalUpdate(workers: seq<Worker>, i: nat, w: Worker, weight: Worker -> nat)
    requires i < |workers|
    ensures Total(workers[i := w], weight) == Total(workers, weight) - weight(workers[i]) + weight(w)
  {
    var k := |workers| - 1;
    if i == k {
      assert workers[i := w][..k] == workers[..k];
    } else {
      assert workers[i := w][..k] == workers[..k][i := w];
      TotalUpdate(workers[..k], i, w, weight);
    }
  }

  function Once(w: Worker): nat {
    if Counted(w) then 1 else 0
  }

  /** The number of workers that have not passed their decrement. */
  function Present(workers: seq<Worker>): nat {
    Total(workers, Once)
  }

  lemma {:induction false} SomePresent(workers: seq<Worker>)
    ensures Present(workers) > 0 <==> exists i :: 0 <= i < |workers| && Counted(workers[i])
  {
    if workers != [] {
      var k := |workers| - 1;
      SomePresent(workers[..k]);
      if i :| 0 <= i < k && Counted(workers[..k][i]) {
        assert Counted(workers[i]);
      }
    }
  }

  /** The value of the counter, as the worker that is decrementing it sees it. */
  ghost function Effective(s: Server): int {
    if i: nat :| i < |s.workers| && s.workers[i].Loaded? then s.workers[i].v else s.numThreads
  }

  /** The counter is no lower than the number of workers that count on it, or only the holder of the mutex is left. */
  ghost predicate Covers(s: Server) {
    || Effective(s) >= Present(s.workers)
    || forall i :: 0 <= i < |s.workers| && Counted(s.workers[i]) ==> Holds(s.workers[i])
  }

  // ----- Safety -----

  predicate AllGone(s: Server) {
    forall i :: 0 <= i < |s.workers| ==> s.workers[i] == Gone
  }

  predicate Exclusive(workers: seq<Worker>) {
    forall i, j :: 0 <= i < j < |workers| ==> !(Holds(workers[i]) && Holds(workers[j]))
  }

  ghost predicate Inv(s: Server) {
    && Exclusive(s.workers)
    && (s.starter == Started ==> Covers(s))
    && (s.stopFlag != 0 ==> s.starter == Started && s.stopper != Idle)
    && (s.stopper == Idle ==> s.stopFlag == 0)
    && (s.stopper != Idle ==> s.starter == Started)
    && (s.master in {Waiting, Destroying, Signalling, Finished} ==> s.stopFlag != 0)
    && (s.master in {Destroying, Signalling, Finished} ==> AllGone(s))
    && (s.stopFlag == 2 ==> s.master == Finished)
    && (s.stopper in {Freeing, Stopped} ==> s.stopFlag == 2)
    && (s.freed ==> s.stopper == Stopped)
  }

  /** The counter is right whenever mg_start returns. */
  ghost predicate GoodReturn(s: Server, a: Action) {
    a == ReturnContext ==> Covers(s)
  }

  lemma EffectiveIs(s: Server, e: int)
    requires Exclusive(s.workers)
    requires forall i :: 0 <= i < |s.workers| && s.workers[i].Loaded? ==> s.workers[i].v == e
    requires (forall i :: 0 <= i < |s.workers| ==> !s.workers[i].Loaded?) ==> s.numThreads == e
    ensures Effective(s) == e
  {
  }

  lemma HoldersAfter(s: Server, i: nat, w: Worker)
    requires Exclusive(s.workers) && i < |s.workers| && (Holds(w) ==> Holds(s.workers[i]) || MutexFree(s))
    ensures Exclusive(s.workers[i := w])
  {
  }

  lemma OnlyHolder(s: Server, i: nat, j: nat)
    requires Exclusive(s.workers) && i < |s.workers| && j < |s.workers| && i != j && Holds(s.workers[i])
    ensures !Holds(s.workers[j])
  {
    assert !(Holds(s.workers[if i < j then i else j]) && Holds(s.workers[if i < j then j else i]));
  }

  /** How far the counter is above the number of workers that count on it. */
  ghost function Surplus(s: Server): int {
    Effective(s) - Present(s.workers)
  }

  /** A step of a worker other than its decrement. */
  lemma WorkerStep(s: Server, i: nat, w: Worker)
    requires Exclusive(s.workers) && i < |s.workers| && Counted(w) == Counted(s.workers[i]) && !s.workers[i].Loaded?
    requires Holds(w) ==> Holds(s.workers[i]) || MutexFree(s)
    requires w.Loaded? ==> s.workers[i] == Locked && w.v == s.numThreads
    ensures Exclusive(SetWorker(s, i, w).workers) && Surplus(SetWorker(s, i, w)) == Surplus(s)
  {
    HoldersAfter(s, i, w);
    TotalUpdate(s.workers, i, w, Once);
    if w.Loaded? {
      forall j: nat | j < |s.workers| && j != i
        ensures !s.workers[j].Loaded?
      {
        OnlyHolder(s, i, j);
      }
      EffectiveIs(s, s.numThreads);
      EffectiveIs(SetWorker(s, i, w), s.numThreads);
    } else {
      SameEffective(s, i, w);
    }
  }

  lemma SameEffective(s: Server, i: nat, w: Worker)
    requires Exclusive(s.workers) && i < |s.workers| && Exclusive(s.workers[i := w]) && !s.workers[i].Loaded?
             && !w.Loaded?
    ensures Effective(SetWorker(s, i, w)) == Effective(s)
  {
    var s' := SetWorker(s, i, w);
    if j: nat :| j < |s.workers| && s.workers[j].Loaded? {
      assert s'.workers[j] == s.workers[j];
      LoadedValue(s, j);
      LoadedValue(s', j);
    } else {
      EffectiveIs(s, s.numThreads);
      EffectiveIs(s', s.numThreads);
    }
  }

  lemma LoadedValue(s: Server, j: nat)
    requires Exclusive(s.workers) && j < |s.workers| && s.workers[j].Loaded?
    ensures Effective(s) == s.workers[j].v
  {
    forall k: nat | k < |s.workers| && k != j
      ensures !s.workers[k].Loaded?
    {
      OnlyHolder(s, j, k);
    }
    EffectiveIs(s, s.workers[j].v);
  }

  /** The decrement: the counter and the number of workers go down together. */
  lemma StoreStep(s: Server, i: nat)
    requires Exclusive(s.workers) && Enabled(s, Store(i))
    ensures Exclusive(Step(s, Store(i)).workers) && Surplus(Step(s, Store(i))) == Surplus(s)
  {
    HoldersAfter(s, i, Stored);
    TotalUpdate(s.workers, i, Stored, Once);
    LoadedValue(s, i);
    forall j: nat | j < |s.workers| && j != i
      ensures !s.workers[j].Loaded?
    {
      OnlyHolder(s, i, j);
    }
    EffectiveIs(Step(s, Store(i)), s.workers[i].v - 1);
  }

  /** One step of a worker, whatever it is. */
  function WorkerOf(a: Action): int {
    match a
    case GetMemory(i, ok) => i
    case SeeStop(i) => i
    case Serve(i) => i
    case Lock(i) => i
    case Load(i) => i
    case Store(i) => i
    case Unlock(i) => i
    case _ => -1
  }

  lemma WorkersKeepSurplus(s: Server, a: Action)
    requires Exclusive(s.workers) && Enabled(s, a) && WorkerOf(a) >= 0
    ensures Exclusive(Step(s, a).workers) && Surplus(Step(s, a)) == Surplus(s)
  {
    hide Surplus;
    match a
    case GetMemory(i, ok) => WorkerStep(s, i, if ok then Serving else Leaving);
    case SeeStop(i) => WorkerStep(s, i, Leaving);
    case Lock(i) => WorkerStep(s, i, Locked);
    case Load(i) => WorkerStep(s, i, Loaded(s.numThreads));
    case Store(i) => StoreStep(s, i);
    case Unlock(i) => WorkerStep(s, i, Gone);
    case Serve(i) =>
  }

  /** When only the holder of the mutex is left, nobody else appears. */
  lemma WorkersKeepCovers(s: Server, a: Action)
    requires Exclusive(s.workers) && Covers(s) && Enabled(s, a) && WorkerOf(a) >= 0
    ensures Covers(Step(s, a))
  {
    WorkersKeepSurplus(s, a);
  }

  lemma SameCovers(s: Server, s': Server)
    requires s.workers == s'.workers && s.numThreads == s'.numThreads && Exclusive(s.workers)
    ensures Surplus(s') == Surplus(s) && Covers(s') == Covers(s)
  {
    if j: nat :| j < |s.workers| && s.workers[j].Loaded? {
      LoadedValue(s, j);
      LoadedValue(s', j);
    } else {
      EffectiveIs(s, s.numThreads);
      EffectiveIs(s', s.numThreads);
    }
  }

  /** The master only goes on when no worker will touch the context again. */
  lemma CheckKeepsInv(s: Server)
    requires Inv(s) && Enabled(s, Check)
    ensures Inv(Step(s, Check))
  {
    if s.numThreads <= 0 {
      EffectiveIs(s, s.numThreads);
      SomePresent(s.workers);
      forall i | 0 <= i < |s.workers|
        ensures s.workers[i] == Gone
      {
        assert !Holds(s.workers[i]);
      }
      SameCovers(s, Step(s, Check));
    }
  }

  lemma StepKeepsInv(s: Server, a: Action)
    requires Inv(s) && Enabled(s, a) && GoodReturn(s, a)
    ensures Inv(Step(s, a))
  {
    hide Covers;
    if WorkerOf(a) >= 0 {
      WorkersKeepSurplus(s, a);
      if s.starter == Started { WorkersKeepCovers(s, a); }
    } else if a == Check {
      CheckKeepsInv(s);
    } else if s.starter == Started || a == ReturnContext {
      SameCovers(s, Step(s, a));
    } else if a == Spawn(true) {
      assert forall i :: 0 <= i < |s.workers| ==> Step(s, a).workers[i] == s.workers[i];
    }
  }

  /** In a state that a run reaches: when the context has been freed nothing is left that could use it. */
  lemma NothingAfterFree(s: Server, a: Action)
    requires Inv(s) && s.freed
    ensures !Enabled(s, a)
  {
  }

  /** While the mutex and the condition variables are destroyed, and later, no worker can do anything. */
  lemma NothingAfterDestroy(s: Server, i: nat)
    requires Inv(s) && s.master in {Destroying, Signalling, Finished}
    ensures !Enabled(s, Serve(i)) && !Enabled(s, SeeStop(i)) && !Enabled(s, Lock(i)) && !Enabled(s, Load(i))
    ensures !Enabled(s, Store(i)) && !Enabled(s, Unlock(i)) && !Enabled(s, GetMemory(i, true))
            && !Enabled(s, GetMemory(i, false))
  {
  }

  /** Over whole runs: safe, if the counter is right when mg_start returns. */
  lemma {:induction false} RunIsSafe(masterStarted: bool, actions: seq<Action>)
    requires var s := Initial(masterStarted);
      && IsRun(s, actions)
      && forall k: nat :: k < |actions| && IsRun(s, actions[..k]) ==> GoodReturn(Run(s, actions[..k]), actions[k])
    ensures Inv(Run(Initial(masterStarted), actions))
  {
    var s := Initial(masterStarted);
    if actions != [] {
      var k := |actions| - 1;
      forall h: nat | h < k && IsRun(s, actions[..k][..h])
        ensures GoodReturn(Run(s, actions[..k][..h]), actions[..k][h])
      {
        assert actions[..k][..h] == actions[..h];
      }
      RunIsSafe(masterStarted, actions[..k]);
      StepKeepsInv(Run(s, actions[..k]), actions[k]);
    }
  }

  // ----- When the counter is right -----

  /** While mg_start is at work, and no worker has failed to get its memory. */
  ghost predicate Starting(s: Server) {
    && s.starter != Started && s.stopFlag == 0
    && (forall i :: 0 <= i < |s.workers| ==> s.workers[i] in {Born, Serving})
    && s.numThreads + (if s.starter == Spawning then 0 else 1) == |s.workers|
    && (s.starter.Loading? ==> s.starter.v == s.numThreads)
  }

  lemma {:induction false} AllPresent(workers: seq<Worker>)
    requires forall i :: 0 <= i < |workers| ==> workers[i] in {Born, Serving}
    ensures Present(workers) == |workers|
  {
    if workers != [] {
      AllPresent(workers[..|workers| - 1]);
    }
  }

  lemma StartingStep(s: Server, a: Action)
    requires Starting(s) && Inv(s) && Enabled(s, a) && !(a.GetMemory? && !a.ok)
    ensures if a == ReturnContext then Covers(s) && Surplus(Step(s, a)) == 0 else Starting(Step(s, a))
  {
    AllPresent(s.workers);
    EffectiveIs(s, s.numThreads);
    if a == ReturnContext {
      SameCovers(s, Step(s, a));
    }
  }

  lemma StartedKeepsSurplus(s: Server, a: Action)
    requires Inv(s) && s.starter == Started && Enabled(s, a)
    ensures Surplus(Step(s, a)) == Surplus(s)
  {
    if WorkerOf(a) >= 0 {
      WorkersKeepSurplus(s, a);
    } else {
      SameCovers(s, Step(s, a));
    }
  }

  /**
   Over whole runs in which no worker runs out of memory before mg_start has returned: safe, and from then
   on the counter is exactly the number of workers that have not passed their decrement.
   */
  lemma {:induction false} SafeWithoutEarlyFailure(masterStarted: bool, actions: seq<Action>)
    requires var s := Initial(masterStarted);
      && IsRun(s, actions)
      && forall k: nat :: k < |actions| && IsRun(s, actions[..k]) && actions[k].GetMemory? && !actions[k].ok ==>
           Run(s, actions[..k]).starter == Started
    ensures var s := Run(Initial(masterStarted), actions);
      Inv(s) && if s.starter == Started then Surplus(s) == 0 else Starting(s)
  {
    var s := Initial(masterStarted);
    if actions != [] {
      var k := |actions| - 1;
      forall h: nat | h < k && IsRun(s, actions[..k][..h]) && actions[..k][h].GetMemory? && !actions[..k][h].ok
        ensures Run(s, actions[..k][..h]).starter == Started
      {
        assert actions[..k][..h] == actions[..h];
      }
      SafeWithoutEarlyFailure(masterStarted, actions[..k]);
      var last := Run(s, actions[..k]);
      if last.starter == Started {
        StartedKeepsSurplus(last, actions[k]);
      } else {
        StartingStep(last, actions[k]);
      }
      StepKeepsInv(last, actions[k]);
    }
  }

  // ----- Otherwise -----

  ghost predicate Reaches(s: Server, end: Server) {
    exists actions :: IsRun(s, actions) && Run(s, actions) == end
  }

  lemma ReachesItself(s: Server)
    ensures Reaches(s, s)
  {
    assert IsRun(s, []) && Run(s, []) == s;
  }

  lemma OneMore(start: Server, s: Server, a: Action, next: Server)
    requires Reaches(start, s) && Enabled(s, a) && Step(s, a) == next
    ensures Reaches(start, next)
  {
    var actions :| IsRun(start, actions) && Run(start, actions) == s;
    assert (actions + [a])[..|actions|] == actions;
    assert IsRun(start, actions + [a]) && Run(start, actions + [a]) == next;
  }

  /** The context has been freed while somebody can still use it. */
  predicate UsedAfterFree(s: Server) {
    && s.freed
    && exists i: nat :: i < |s.workers| && (
         Enabled(s, GetMemory(i, true)) || Enabled(s, Serve(i)) || Enabled(s, Lock(i)))
  }

  /** The server is stopping, and the counter is too low. */
  ghost predicate TooLow(s: Server) {
    s.starter == Started && s.stopFlag == 1 && s.master == Waiting && s.stopper == Polling && !s.freed
    && Exclusive(s.workers) && !Covers(s)
  }

  function Distance(w: Worker): nat {
    match w
    case Born => 6
    case Serving => 5
    case Leaving => 4
    case Locked => 3
    case Loaded(_) => 2
    case Stored => 1
    case Gone => 0
  }

  /** What a worker does next when it is leaving. */
  function NextAction(w: Worker, i: nat): Action
    requires w != Gone
  {
    match w
    case Born => GetMemory(i, true)
    case Serving => SeeStop(i)
    case Leaving => Lock(i)
    case Locked => Load(i)
    case Loaded(_) => Store(i)
    case Stored => Unlock(i)
  }

  lemma NextKeepsTooLow(s: Server, i: nat)
    requires TooLow(s) && i < |s.workers| && s.workers[i] != Gone && (Holds(s.workers[i]) || MutexFree(s))
    requires exists j :: 0 <= j < |s.workers| && j != i && Counted(s.workers[j]) && !Holds(s.workers[j])
    ensures var a := NextAction(s.workers[i], i); Enabled(s, a) && TooLow(Step(s, a))
    ensures Total(Step(s, NextAction(s.workers[i], i)).workers, Distance) < Total(s.workers, Distance)
  {
    var a := NextAction(s.workers[i], i);
    var s' := Step(s, a);
    var j :| 0 <= j < |s.workers| && j != i && Counted(s.workers[j]) && !Holds(s.workers[j]);
    WorkersKeepSurplus(s, a);
    TotalUpdate(s.workers, i, s'.workers[i], Distance);
    assert s'.workers == s.workers[i := s'.workers[i]];
    assert Counted(s'.workers[j]) && !Holds(s'.workers[j]);
  }

  /** Let workers leave until the counter is down; one of them is still there. */
  lemma {:induction false} Drain(start: Server, s: Server) returns (end: Server)
    requires TooLow(s) && Reaches(start, s)
    ensures TooLow(end) && Reaches(start, end) && MutexFree(end) && end.numThreads <= 0
    decreases Total(s.workers, Distance)
  {
    var j: nat :| j < |s.workers| && Counted(s.workers[j]) && !Holds(s.workers[j]);
    var i: nat := j;
    if h: nat :| h < |s.workers| && Holds(s.workers[h]) {
      i := h;
    } else {
      if s.numThreads <= 0 {
        return s;
      }
      EffectiveIs(s, s.numThreads);
      AnotherOne(s.workers, j);
    }
    hide TooLow, Reaches;
    NextKeepsTooLow(s, i);
    var next := Step(s, NextAction(s.workers[i], i));
    OneMore(start, s, NextAction(s.workers[i], i), next);
    end := Drain(start, next);
  }

  lemma AnotherOne(workers: seq<Worker>, i: nat)
    requires i < |workers| && Present(workers) >= 2
    ensures exists j :: 0 <= j < |workers| && j != i && Counted(workers[j])
  {
    TotalUpdate(workers, i, Gone, Once);
    SomePresent(workers[i := Gone]);
    var j :| 0 <= j < |workers[i := Gone]| && Counted(workers[i := Gone][j]);
    assert workers[j] == workers[i := Gone][j];
  }

  /** The master does not wait any longer, and the context is freed. */
  lemma Disaster(start: Server, s: Server) returns (end: Server)
    requires TooLow(s) && Reaches(start, s) && MutexFree(s) && s.numThreads <= 0
    ensures Reaches(start, end) && UsedAfterFree(end)
  {
    hide Reaches;
    end := Server(2, s.numThreads, Started, s.workers, Finished, Stopped, true);
    var i: nat :| i < |s.workers| && Counted(s.workers[i]) && !Holds(s.workers[i]);
    assert Enabled(end, GetMemory(i, true)) || Enabled(end, Serve(i)) || Enabled(end, Lock(i));
    var s1 := Server(1, s.numThreads, Started, s.workers, Destroying, Polling, false);
    OneMore(start, s, Check, s1);
    var s2 := Server(1, s.numThreads, Started, s.workers, Signalling, Polling, false);
    OneMore(start, s1, Destroy, s2);
    var s3 := Server(2, s.numThreads, Started, s.workers, Finished, Polling, false);
    OneMore(start, s2, Signal, s3);
    var s4 := Server(2, s.numThreads, Started, s.workers, Finished, Freeing, false);
    OneMore(start, s3, Poll, s4);
    OneMore(start, s4, Free, end);
  }

  lemma {:induction false} StartedRun(s: Server, actions: seq<Action>)
    requires Inv(s) && s.starter == Started && IsRun(s, actions)
    ensures Inv(Run(s, actions)) && Run(s, actions).starter == Started
  {
    if actions != [] {
      var k := |actions| - 1;
      StartedRun(s, actions[..k]);
      StepKeepsInv(Run(s, actions[..k]), actions[k]);
    }
  }

  lemma CoveredIsSafe(s: Server, end: Server)
    requires Inv(s) && s.starter == Started && Reaches(s, end)
    ensures !UsedAfterFree(end)
  {
    var actions :| IsRun(s, actions) && Run(s, actions) == end;
    StartedRun(s, actions);
    if end.freed {
      forall i: nat | i < |end.workers|
        ensures !Enabled(end, GetMemory(i, true)) && !Enabled(end, Serve(i)) && !Enabled(end, Lock(i))
      {
        NothingAfterFree(end, GetMemory(i, true));
        NothingAfterFree(end, Serve(i));
        NothingAfterFree(end, Lock(i));
      }
    }
  }

  lemma UncoveredIsUnsafe(s: Server) returns (end: Server)
    requires s.starter == Started && s.stopper == Idle && s.stopFlag == 0 && s.master == Accepting && !s.freed
    requires Exclusive(s.workers) && !Covers(s)
    ensures Reaches(s, end) && UsedAfterFree(end)
  {
    hide Reaches;
    ReachesItself(s);
    var called := Server(1, s.numThreads, Started, s.workers, Accepting, Polling, false);
    OneMore(s, s, CallStop, called);
    var waiting := Server(1, s.numThreads, Started, s.workers, Waiting, Polling, false);
    OneMore(s, called, SeeStopped, waiting);
    SameCovers(s, waiting);
    var low := Drain(s, waiting);
    end := Disaster(s, low);
  }

  /**
   When mg_start returns it is settled: everything that can happen from there on is safe exactly when the
   counter covers the workers.
   */
  lemma ReturnDecides(s: Server)
    requires Inv(s) && Enabled(s, ReturnContext) && s.master == Accepting
    ensures (forall end :: Reaches(Step(s, ReturnContext), end) ==> !UsedAfterFree(end)) <==> Covers(s)
  {
    var s' := Step(s, ReturnContext);
    hide UsedAfterFree, Reaches;
    if Covers(s) {
      StepKeepsInv(s, ReturnContext);
      forall end | Reaches(s', end)
        ensures !UsedAfterFree(end)
      {
        CoveredIsSafe(s', end);
      }
    } else {
      SameCovers(s, s');
      var end := UncoveredIsUnsafe(s');
    }
  }

  /**
   The counter can be too low: a worker that gets no memory has loaded the counter for its decrement, the
   next worker is counted in between, and that increment is lost.
   */
  lemma LostIncrement()
    ensures exists s :: Reaches(Initial(true), s) && Enabled(s, ReturnContext) && s.master == Accepting && !Covers(s)
  {
    hide Reaches;
    var start := Initial(true);
    ReachesItself(start);
    var s1 := FirstWorker(start);
    var s := SecondWorker(start, s1);
    NotCovered(s);
  }

  lemma FirstWorker(start: Server) returns (s: Server)
    requires start == Initial(true) && Reaches(start, start)
    ensures Reaches(start, s) && s == Server(0, 1, Spawning, [Loaded(1)], Accepting, Idle, false)
  {
    hide Reaches;
    var s1 := Server(0, 0, Spawned, [Born], Accepting, Idle, false);
    OneMore(start, start, Spawn(true), s1);
    var s2 := Server(0, 0, Loading(0), [Born], Accepting, Idle, false);
    OneMore(start, s1, LoadCount, s2);
    var s3 := Server(0, 1, Spawning, [Born], Accepting, Idle, false);
    OneMore(start, s2, StoreCount, s3);
    var s4 := Server(0, 1, Spawning, [Leaving], Accepting, Idle, false);
    OneMore(start, s3, GetMemory(0, false), s4);
    var s5 := Server(0, 1, Spawning, [Locked], Accepting, Idle, false);
    OneMore(start, s4, Lock(0), s5);
    s := Server(0, 1, Spawning, [Loaded(1)], Accepting, Idle, false);
    OneMore(start, s5, Load(0), s);
  }

  lemma SecondWorker(start: Server, s0: Server) returns (s: Server)
    requires Reaches(start, s0) && s0 == Server(0, 1, Spawning, [Loaded(1)], Accepting, Idle, false)
    ensures Reaches(start, s) && s == Server(0, 0, Spawning, [Gone, Born], Accepting, Idle, false)
  {
    hide Reaches;
    var s1 := Server(0, 1, Spawned, [Loaded(1), Born], Accepting, Idle, false);
    OneMore(start, s0, Spawn(true), s1);
    var s2 := Server(0, 1, Loading(1), [Loaded(1), Born], Accepting, Idle, false);
    OneMore(start, s1, LoadCount, s2);
    var s3 := Server(0, 2, Spawning, [Loaded(1), Born], Accepting, Idle, false);
    OneMore(start, s2, StoreCount, s3);
    var s4 := Server(0, 0, Spawning, [Stored, Born], Accepting, Idle, false);
    OneMore(start, s3, Store(0), s4);
    s := Server(0, 0, Spawning, [Gone, Born], Accepting, Idle, false);
    OneMore(start, s4, Unlock(0), s);
  }

  lemma NotCovered(s: Server)
    requires s.workers == [Gone, Born] && s.numThreads == 0
    ensures !Covers(s)
  {
    EffectiveIs(s, 0);
    SomePresent(s.workers);
    assert Counted(s.workers[1]);
  }
}
