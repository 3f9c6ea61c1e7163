/**
 The bounded queue `block_queue`: one mutex, a condition variable for "not full" and one for
 "not empty", and a `notify_one` after the mutex has been released.

 Steps are as fine as in `CvRwLock`.  A thread is a producer or a consumer for good, as the
 threads of the program are.
 */
module BlockQueue {
  import opened Counting
  import opened QueueHistory
  import opened Runs
  import opened Wrappers

  datatype Pc<T> =
    | Producing
      // enqueue(e)
    | EWant(e: T) | ECheck(e: T) | EDoze(e: T) | ESleep(e: T) | EWoken(e: T) | EPush(e: T) | ENotify
    | Consuming
      // dequeue(e)
    | DWant | DCheck | DDoze | DSleep | DWoken | DPop | DNotify(ret: T)

  /** `pushed` and `popped` are the values in the order in which they went in and came out. */
  datatype State<T> = State(
    queue: seq<T>, capacity: int32, mutex: Option<nat>, pcs: seq<Pc<T>>, pushed: seq<T>, popped: seq<T>)

  type int32 = x: int | -0x8000_0000 <= x < 0x8000_0000

  const SIZE_MODULUS := 0x1_0000_0000_0000_0000

  /** The comparison converts the capacity to `size_t`: a negative one becomes very large. */
  function Limit(capacity: int32): nat
  {
    if capacity >= 0 then capacity else capacity % SIZE_MODULUS
  }

  predicate OnNotFull<T>(pc: Pc<T>) {
    pc.ESleep?
  }

  predicate OnNotEmpty<T>(pc: Pc<T>) {
    pc.DSleep?
  }

  predicate Acquiring<T>(pc: Pc<T>) {
    pc.EWant? || pc.EWoken? || pc.DWant? || pc.DWoken?
  }

  predicate Inside<T>(pc: Pc<T>) {
    pc.ECheck? || pc.EDoze? || pc.EPush? || pc.DCheck? || pc.DDoze? || pc.DPop?
  }

  predicate IsProducer<T>(pc: Pc<T>) {
    || pc.Producing? || pc.EWant? || pc.ECheck? || pc.EDoze? || pc.ESleep? || pc.EWoken?
    || pc.EPush? || pc.ENotify?
  }

  function Go<T>(s: State<T>, t: nat, pc: Pc<T>): State<T>
    requires t < |s.pcs|
  {
    s.(pcs := s.pcs[t := pc])
  }

  function Acquire<T>(s: State<T>, t: nat, pc: Pc<T>): State<T>
    requires t < |s.pcs|
  {
    Go(s, t, pc).(mutex := Some(t))
  }

  function Release<T>(s: State<T>, t: nat, pc: Pc<T>): State<T>
    requires t < |s.pcs|
  {
    Go(s, t, pc).(mutex := None)
  }

  /** Thread `t` takes one step; `u` is the sleeper that `notify_one` picks, if there is one. */
  ghost predicate Step<T(!new)>(s: State<T>, s': State<T>, t: nat, u: nat) {
    && t < |s.pcs|
    && (Acquiring(s.pcs[t]) ==> s.mutex == None)
    && match s.pcs[t]
       case Producing => exists e :: s' == Go(s, t, EWant(e))
       case EWant(e) => s' == Acquire(s, t, ECheck(e))
       case ECheck(e) => s' == Go(s, t, if |s.queue| < Limit(s.capacity) then EPush(e) else EDoze(e))
       case EDoze(e) => s' == Release(s, t, ESleep(e))
       case ESleep(e) => s' == Go(s, t, EWoken(e))
       case EWoken(e) => s' == Acquire(s, t, ECheck(e))
       case EPush(e) => s' == Release(s, t, ENotify).(queue := s.queue + [e], pushed := s.pushed + [e])
       case ENotify =>
         if exists v :: 0 <= v < |s.pcs| && OnNotEmpty(s.pcs[v])
         then u < |s.pcs| && OnNotEmpty(s.pcs[u]) && s' == Go(Go(s, u, DWoken), t, Producing)
         else s' == Go(s, t, Producing)
       case Consuming => s' == Go(s, t, DWant)
       case DWant => s' == Acquire(s, t, DCheck)
       case DCheck => s' == Go(s, t, if s.queue != [] then DPop else DDoze)
       case DDoze => s' == Release(s, t, DSleep)
       case DSleep => s' == Go(s, t, DWoken)
       case DWoken => s' == Acquire(s, t, DCheck)
       case DPop =>
         && s.queue != []
         && s' == Release(s, t, DNotify(s.queue[0])).(queue := s.queue[1..], popped := s.popped + [s.queue[0]])
       case DNotify(_) =>
         if exists v :: 0 <= v < |s.pcs| && OnNotFull(s.pcs[v])
         then u < |s.pcs| && OnNotFull(s.pcs[u]) && s' == Go(Go(s, u, EWoken(s.pcs[u].e)), t, Consuming)
         else s' == Go(s, t, Consuming)
  }

  ghost predicate StepBy<T(!new)>(s: State<T>, s': State<T>, t: nat) {
    exists u: nat :: Step(s, s', t, u)
  }

  ghost predicate Next<T(!new)>(s: State<T>, s': State<T>) {
    exists t: nat :: StepBy(s, s', t)
  }

  ghost predicate Init<T(!new)>(s: State<T>) {
    && s.queue == [] && s.pushed == [] && s.popped == []
    && s.mutex == None
    && forall t :: 0 <= t < |s.pcs| ==> s.pcs[t].Producing? || s.pcs[t].Consuming?
  }

  // ----- The queue itself: one method call is one step of the calling thread -----

  class Queue<T(!new)> {
    var queue: seq<T>
    const capacity: int32
    var mutex: Option<nat>
    var pcs: seq<Pc<T>>
    ghost var pushed: seq<T>
    ghost var popped: seq<T>

    ghost function Snap(): State<T>
      reads this
    {
      State(queue, capacity, mutex, pcs, pushed, popped)
    }

    constructor (capacity: int32, producers: nat, consumers: nat)
      ensures Init(Snap()) && Inv(Snap()) && this.capacity == capacity && |pcs| == producers + consumers
    {
      this.capacity := capacity;
      queue, pushed, popped := [], [], [];
      mutex := None;
      pcs := seq(producers, i => Producing) + seq(consumers, i => Consuming);
      new;
      InitInv(Snap());
    }

    method Enqueue(t: nat, e: T)
      requires t < |pcs| && IsProducer(pcs[t]) && !OnNotFull(pcs[t]) && (Acquiring(pcs[t]) ==> mutex == None)
      requires Inv(Snap())
      modifies this
      ensures Inv(Snap()) && StepBy(old(Snap()), Snap(), t)
      ensures old(pcs[t]).Producing? ==> pcs[t] == EWant(e)
    {
      var u := t;
      match pcs[t] {
        case Producing =>
          pcs := pcs[t := EWant(e)];
        case EWant(v) =>
          mutex, pcs := Some(t), pcs[t := ECheck(v)];
        case EWoken(v) =>
          mutex, pcs := Some(t), pcs[t := ECheck(v)];
        case ECheck(v) =>
          pcs := pcs[t := if |queue| < Limit(capacity) then EPush(v) else EDoze(v)];
        case EDoze(v) =>
          mutex, pcs := None, pcs[t := ESleep(v)];
        case EPush(v) =>
          queue, pushed := queue + [v], pushed + [v];
          mutex, pcs := None, pcs[t := ENotify];
        case ENotify =>
          if v: nat :| v < |pcs| && OnNotEmpty(pcs[v]) {
            u := v;
            pcs := pcs[u := DWoken];
          }
          pcs := pcs[t := Producing];
      }
      assert Step(old(Snap()), Snap(), t, u);
      StepKeepsInv(old(Snap()), Snap(), t, u);
    }

    method Dequeue(t: nat)
      requires t < |pcs| && !IsProducer(pcs[t]) && !OnNotEmpty(pcs[t]) && (Acquiring(pcs[t]) ==> mutex == None)
      requires Inv(Snap())
      modifies this
      ensures Inv(Snap()) && StepBy(old(Snap()), Snap(), t)
    {
      var u := t;
      match pcs[t] {
        case Consuming =>
          pcs := pcs[t := DWant];
        case DWant | DWoken =>
          mutex, pcs := Some(t), pcs[t := DCheck];
        case DCheck =>
          pcs := pcs[t := if queue != [] then DPop else DDoze];
        case DDoze =>
          mutex, pcs := None, pcs[t := DSleep];
        case DPop =>
          mutex, pcs := None, pcs[t := DNotify(queue[0])];
          popped := popped + [queue[0]];
          queue := queue[1..];
        case DNotify(_) =>
          if v: nat :| v < |pcs| && OnNotFull(pcs[v]) {
            u := v;
            pcs := pcs[u := EWoken(pcs[u].e)];
          }
          pcs := pcs[t := Consuming];
      }
      assert Step(old(Snap()), Snap(), t, u);
      StepKeepsInv(old(Snap()), Snap(), t, u);
    }
  }

  // ----- What every step keeps -----

  /** A "not empty" notification to come, or a consumer about to look at the queue. */
  predicate MayPop<T>(pc: Pc<T>) {
    pc.ENotify? || pc.DWoken? || pc.DCheck? || pc.DPop?
  }

  /** A "not full" notification to come, or a producer about to look at the queue. */
  predicate MayPush<T>(pc: Pc<T>) {
    pc.DNotify? || pc.EWoken? || pc.ECheck? || pc.EPush?
  }

  ghost predicate MutexInv<T(!new)>(s: State<T>) {
    && (forall t :: 0 <= t < |s.pcs| ==> (Inside(s.pcs[t]) <==> s.mutex == Some(t)))
    && (s.mutex.Some? ==> s.mutex.value < |s.pcs|)
  }

  ghost predicate CheckedInv<T(!new)>(s: State<T>) {
    forall t :: 0 <= t < |s.pcs| ==>
      match s.pcs[t]
      case EPush(_) => |s.queue| < Limit(s.capacity)
      case EDoze(_) => |s.queue| >= Limit(s.capacity)
      case DPop => s.queue != []
      case DDoze => s.queue == []
      case _ => true
  }

  ghost predicate DataInv<T(!new)>(s: State<T>) {
    && |s.queue| <= Limit(s.capacity)
    && s.pushed == s.popped + s.queue
  }

  /**
   While a consumer sleeps, there are as many notifications to come and consumers about to look at the
   queue as there are values to take; while a producer sleeps, as many for producers as free places.
   */
  ghost predicate WakeInv<T(!new)>(s: State<T>) {
    && (Count(s.pcs, OnNotEmpty) > 0 ==> |s.queue| <= Count(s.pcs, MayPop))
    && (Count(s.pcs, OnNotFull) > 0 ==> Limit(s.capacity) - |s.queue| <= Count(s.pcs, MayPush))
  }

  ghost predicate Inv<T(!new)>(s: State<T>) {
    MutexInv(s) && CheckedInv(s) && DataInv(s) && WakeInv(s)
  }

  lemma InitInv<T(!new)>(s: State<T>)
    requires Init(s)
    ensures Inv(s)
  {
    CountNone(s.pcs, OnNotEmpty);
    CountNone(s.pcs, OnNotFull);
  }

  lemma StepKeepsMutex<T(!new)>(s: State<T>, s': State<T>, t: nat, u: nat)
    requires MutexInv(s) && Step(s, s', t, u)
    ensures MutexInv(s')
  {
  }

  lemma StepKeepsChecked<T(!new)>(s: State<T>, s': State<T>, t: nat, u: nat)
    requires MutexInv(s) && CheckedInv(s) && Step(s, s', t, u)
    ensures CheckedInv(s')
  {
  }

  lemma StepKeepsData<T(!new)>(s: State<T>, s': State<T>, t: nat, u: nat)
    requires CheckedInv(s) && DataInv(s) && Step(s, s', t, u)
    ensures DataInv(s')
  {
  }

  lemma StepKeepsConsumersAwake<T(!new)>(s: State<T>, s': State<T>, t: nat, u: nat)
    requires CheckedInv(s) && WakeInv(s) && Step(s, s', t, u) && !s.pcs[t].ENotify? && !s.pcs[t].DNotify?
    ensures Count(s'.pcs, OnNotEmpty) > 0 ==> |s'.queue| <= Count(s'.pcs, MayPop)
  {
    CountUpdate(s.pcs, OnNotEmpty, t, s'.pcs[t]);
    CountUpdate(s.pcs, MayPop, t, s'.pcs[t]);
  }

  lemma StepKeepsProducersAwake<T(!new)>(s: State<T>, s': State<T>, t: nat, u: nat)
    requires CheckedInv(s) && WakeInv(s) && Step(s, s', t, u) && !s.pcs[t].ENotify? && !s.pcs[t].DNotify?
    ensures Count(s'.pcs, OnNotFull) > 0 ==> Limit(s'.capacity) - |s'.queue| <= Count(s'.pcs, MayPush)
  {
    CountUpdate(s.pcs, OnNotFull, t, s'.pcs[t]);
    CountUpdate(s.pcs, MayPush, t, s'.pcs[t]);
  }

  lemma NotEmptyKeepsWake<T(!new)>(s: State<T>, s': State<T>, t: nat, u: nat)
    requires WakeInv(s) && Step(s, s', t, u) && s.pcs[t].ENotify?
    ensures WakeInv(s')
  {
    CountSame(s.pcs, OnNotFull, s'.pcs, OnNotFull);
    CountSame(s.pcs, MayPush, s'.pcs, MayPush);
    CountNone(s.pcs, OnNotEmpty);
    if u < |s.pcs| && OnNotEmpty(s.pcs[u]) {
      var mid := s.pcs[u := DWoken];
      CountUpdate(s.pcs, OnNotEmpty, u, DWoken);
      CountUpdate(s.pcs, MayPop, u, DWoken);
      CountUpdate(mid, OnNotEmpty, t, Producing);
      CountUpdate(mid, MayPop, t, Producing);
    } else {
      CountUpdate(s.pcs, OnNotEmpty, t, Producing);
    }
  }

  lemma NotFullKeepsWake<T(!new)>(s: State<T>, s': State<T>, t: nat, u: nat)
    requires WakeInv(s) && Step(s, s', t, u) && s.pcs[t].DNotify?
    ensures WakeInv(s')
  {
    CountSame(s.pcs, OnNotEmpty, s'.pcs, OnNotEmpty);
    CountSame(s.pcs, MayPop, s'.pcs, MayPop);
    CountNone(s.pcs, OnNotFull);
    if u < |s.pcs| && OnNotFull(s.pcs[u]) {
      var woken := EWoken(s.pcs[u].e);
      var mid := s.pcs[u := woken];
      CountUpdate(s.pcs, OnNotFull, u, woken);
      CountUpdate(s.pcs, MayPush, u, woken);
      CountUpdate(mid, OnNotFull, t, Consuming);
      CountUpdate(mid, MayPush, t, Consuming);
    } else {
      CountUpdate(s.pcs, OnNotFull, t, Consuming);
    }
  }

  lemma StepKeepsInv<T(!new)>(s: State<T>, s': State<T>, t: nat, u: nat)
    requires Inv(s) && Step(s, s', t, u)
    ensures Inv(s')
  {
    StepKeepsMutex(s, s', t, u);
    StepKeepsChecked(s, s', t, u);
    StepKeepsData(s, s', t, u);
    if s.pcs[t].ENotify? {
      NotEmptyKeepsWake(s, s', t, u);
    } else if s.pcs[t].DNotify? {
      NotFullKeepsWake(s, s', t, u);
    } else {
      StepKeepsConsumersAwake(s, s', t, u);
      StepKeepsProducersAwake(s, s', t, u);
    }
  }

  lemma AlwaysInv<T(!new)>(run: seq<State<T>>, k: nat)
    requires IsRun(Init<T>, Next<T>, run) && k < |run|
    ensures Inv(run[k])
  {
    forall s: State<T> | Init(s)
      ensures Inv(s)
    {
      InitInv(s);
    }
    forall s: State<T>, s' | Inv(s) && Next(s, s')
      ensures Inv(s')
    {
      var t: nat, u: nat :| Step(s, s', t, u);
      StepKeepsInv(s, s', t, u);
    }
    Invariance(Init<T>, Next<T>, Inv<T>, run, k);
  }

  // ----- The theorems -----

  /** First in, first out, and never more values than places. */
  lemma BoundedFifo<T(!new)>(run: seq<State<T>>, k: nat)
    requires IsRun(Init<T>, Next<T>, run) && k < |run|
    ensures run[k].popped <= run[k].pushed
    ensures run[k].queue == run[k].pushed[|run[k].popped|..]
    ensures run[k].capacity >= 0 ==> |run[k].queue| <= run[k].capacity
  {
    AlwaysInv(run, k);
  }

  lemma StepKeepsRoles<T(!new)>(s: State<T>, s': State<T>, t: nat, u: nat)
    requires Step(s, s', t, u)
    ensures |s'.pcs| == |s.pcs| && s'.capacity == s.capacity
    ensures forall i :: 0 <= i < |s.pcs| ==> IsProducer(s'.pcs[i]) == IsProducer(s.pcs[i])
  {
  }

  /** A thread is a producer or a consumer for good. */
  lemma {:induction false} RolesAreFixed<T(!new)>(run: seq<State<T>>, k: nat)
    requires IsRun(Init<T>, Next<T>, run) && k < |run|
    ensures |run[k].pcs| == |run[0].pcs| && run[k].capacity == run[0].capacity
    ensures forall t :: 0 <= t < |run[0].pcs| ==> IsProducer(run[k].pcs[t]) == IsProducer(run[0].pcs[t])
  {
    if k == 0 {
    } else {
      RolesAreFixed(run, k - 1);
      assert Next(run[k - 1], run[k]);
      var t: nat, u: nat :| Step(run[k - 1], run[k], t, u);
      StepKeepsRoles(run[k - 1], run[k], t, u);
    }
  }

  /** The thread can go on by itself: it does not sleep, and the mutex is not in its way. */
  predicate Enabled<T>(s: State<T>, t: nat)
    requires t < |s.pcs|
  {
    && !OnNotFull(s.pcs[t]) && !OnNotEmpty(s.pcs[t])
    && (Acquiring(s.pcs[t]) ==> s.mutex == None)
  }

  /**
   No wakeup is lost, whether or not the threads go on calling.  Where no thread can go on without a new
   call or a spurious wakeup, a sleeping consumer means an empty queue, and a sleeping producer a full one.
   */
  lemma SleepersWaitForTheQueue<T(!new)>(run: seq<State<T>>, k: nat)
    requires IsRun(Init<T>, Next<T>, run) && k < |run|
    requires forall t: nat :: t < |run[k].pcs| && Enabled(run[k], t) ==>
      run[k].pcs[t].Producing? || run[k].pcs[t].Consuming?
    ensures var s := run[k];
            && (forall t: nat :: t < |s.pcs| && OnNotEmpty(s.pcs[t]) ==> s.queue == [])
            && (forall t: nat :: t < |s.pcs| && OnNotFull(s.pcs[t]) ==> |s.queue| == Limit(s.capacity))
            && (forall t: nat :: t < |s.pcs| ==>
                  s.pcs[t].Producing? || s.pcs[t].Consuming? || OnNotEmpty(s.pcs[t]) || OnNotFull(s.pcs[t]))
  {
    AlwaysInv(run, k);
    var s := run[k];
    assert forall t: nat :: t < |s.pcs| && Inside(s.pcs[t]) ==> Enabled(s, t);
    assert s.mutex == None;
    forall t: nat | t < |s.pcs|
      ensures s.pcs[t].Producing? || s.pcs[t].Consuming? || OnNotEmpty(s.pcs[t]) || OnNotFull(s.pcs[t])
    {
      assert Enabled(s, t) || OnNotEmpty(s.pcs[t]) || OnNotFull(s.pcs[t]);
    }
    CountNone(s.pcs, OnNotFull);
    CountNone(s.pcs, OnNotEmpty);
    CountNone(s.pcs, MayPop);
    CountNone(s.pcs, MayPush);
  }

  ghost predicate Deadlocked<T>(s: State<T>) {
    forall t: nat :: t < |s.pcs| ==> !Enabled(s, t)
  }

  /** Producers and consumers that loop forever are never all stuck, whatever is notified when. */
  lemma NoDeadlock<T(!new)>(run: seq<State<T>>, k: nat, p: nat, c: nat)
    requires IsRun(Init<T>, Next<T>, run) && k < |run|
    requires p < |run[0].pcs| && run[0].pcs[p].Producing?
    requires c < |run[0].pcs| && run[0].pcs[c].Consuming?
    requires run[0].capacity != 0
    ensures !Deadlocked(run[k])
  {
    AlwaysInv(run, k);
    RolesAreFixed(run, k);
    var s := run[k];
    if Deadlocked(s) {
      assert !Enabled(s, p) && !Enabled(s, c);
      if s.mutex.Some? {
        assert Enabled(s, s.mutex.value);
      }
      assert IsProducer(s.pcs[p]) && !IsProducer(s.pcs[c]);
      assert OnNotFull(s.pcs[p]) && OnNotEmpty(s.pcs[c]);
      forall t: nat | t < |s.pcs|
        ensures !MayPop(s.pcs[t]) && !MayPush(s.pcs[t])
      {
        assert !Enabled(s, t);
      }
      CountNone(s.pcs, OnNotFull);
      CountNone(s.pcs, OnNotEmpty);
      CountNone(s.pcs, MayPop);
      CountNone(s.pcs, MayPush);
    }
  }

  /** The threads before `n` sleep and the others have not begun. */
  ghost predicate AsleepUpTo<T>(s: State<T>, n: nat) {
    && n <= |s.pcs|
    && s.mutex == None && s.queue == [] && s.capacity == 0
    && (forall t :: 0 <= t < n ==> OnNotFull(s.pcs[t]) || OnNotEmpty(s.pcs[t]))
    && (forall t :: n <= t < |s.pcs| ==> s.pcs[t].Producing? || s.pcs[t].Consuming?)
  }

  /** One more thread goes to sleep, in four steps. */
  lemma FallAsleep<T(!new)>(s: State<T>, n: nat, e: T) returns (a: State<T>, b: State<T>, c: State<T>, s': State<T>)
    requires AsleepUpTo(s, n) && n < |s.pcs|
    ensures Next(s, a) && Next(a, b) && Next(b, c) && Next(c, s')
    ensures AsleepUpTo(s', n + 1) && |s'.pcs| == |s.pcs|
  {
    if s.pcs[n].Producing? {
      a := Go(s, n, EWant(e));
      b := Acquire(a, n, ECheck(e));
      c := Go(b, n, EDoze(e));
      s' := Release(c, n, ESleep(e));
    } else {
      a := Go(s, n, DWant);
      b := Acquire(a, n, DCheck);
      c := Go(b, n, DDoze);
      s' := Release(c, n, DSleep);
    }
    assert Step(s, a, n, n) && Step(a, b, n, n) && Step(b, c, n, n) && Step(c, s', n, n);
    assert StepBy(s, a, n) && StepBy(a, b, n) && StepBy(b, c, n) && StepBy(c, s', n);
  }

  /** With a capacity of 0 every thread can fall asleep for good: the condition of `NoDeadlock` is exact. */
  lemma {:induction false} CapacityZeroDeadlocks<T(!new)>(s: State<T>, n: nat, e: T) returns (run: seq<State<T>>)
    requires Init(s) && s.capacity == 0 && n <= |s.pcs|
    ensures IsRun(Init<T>, Next<T>, run) && run[0] == s
    ensures AsleepUpTo(run[|run| - 1], n) && |run[|run| - 1].pcs| == |s.pcs|
    ensures n == |s.pcs| ==> Deadlocked(run[|run| - 1])
  {
    if n == 0 {
      run := [s];
    } else {
      var before := CapacityZeroDeadlocks(s, n - 1, e);
      var a, b, c, s' := FallAsleep(before[|before| - 1], n - 1, e);
      Extend(Init<T>, Next<T>, before, a);
      Extend(Init<T>, Next<T>, before + [a], b);
      Extend(Init<T>, Next<T>, before + [a] + [b], c);
      Extend(Init<T>, Next<T>, before + [a] + [b] + [c], s');
      run := before + [a] + [b] + [c] + [s'];
    }
  }

  /** Exactly when the queue keeps its producers and consumers from getting stuck for good. */
  lemma DeadlockFreeIffCapacity<T(!new)>(s: State<T>, p: nat, c: nat, e: T)
    requires Init(s)
    requires p < |s.pcs| && s.pcs[p].Producing? && c < |s.pcs| && s.pcs[c].Consuming?
    ensures s.capacity != 0 <==>
            forall run :: IsRun(Init<T>, Next<T>, run) && run[0] == s ==> !Deadlocked(run[|run| - 1])
  {
    if s.capacity != 0 {
      forall run | IsRun(Init<T>, Next<T>, run) && run[0] == s
        ensures !Deadlocked(run[|run| - 1])
      {
        NoDeadlock(run, |run| - 1, p, c);
      }
    } else {
      var run := CapacityZeroDeadlocks(s, |s.pcs|, e);
    }
  }

  // ----- What a thread has done when it leaves a call -----

  /** The program points of `enqueue` before the value is in the queue. */
  predicate InEnqueue<T>(pc: Pc<T>) {
    pc.EWant? || pc.ECheck? || pc.EDoze? || pc.ESleep? || pc.EWoken? || pc.EPush?
  }

  /** The program points of `dequeue` before the value is out of the queue. */
  predicate InDequeue<T>(pc: Pc<T>) {
    pc.DWant? || pc.DCheck? || pc.DDoze? || pc.DSleep? || pc.DWoken? || pc.DPop?
  }

  /** Other threads are left where they are, but for a wakeup. */
  lemma OthersOnlyWake<T(!new)>(s: State<T>, s': State<T>, t: nat, u: nat, v: nat)
    requires Step(s, s', t, u) && v < |s.pcs| && v != t
    ensures |s'.pcs| == |s.pcs|
    ensures || s'.pcs[v] == s.pcs[v]
            || (s.pcs[v].ESleep? && s'.pcs[v] == EWoken(s.pcs[v].e)) || (s.pcs[v].DSleep? && s'.pcs[v] == DWoken)
  {
  }

  /** `enqueue` keeps its argument until it has put that, and nothing else, at the end of a queue that was not full. */
  lemma EnqueueStores<T(!new)>(s: State<T>, s': State<T>, t: nat, u: nat, v: nat)
    requires CheckedInv(s) && Step(s, s', t, u) && v < |s.pcs| && InEnqueue(s.pcs[v])
    ensures |s'.pcs| == |s.pcs|
    ensures || (InEnqueue(s'.pcs[v]) && s'.pcs[v].e == s.pcs[v].e)
            || (v == t && s'.pcs[v].ENotify? && |s.queue| < Limit(s.capacity) && s'.queue == s.queue + [s.pcs[v].e])
  {
    if v != t {
      OthersOnlyWake(s, s', t, u, v);
    }
  }

  /** `dequeue` goes on until it has taken the first value out of a queue that was not empty, which it then returns. */
  lemma DequeueTakes<T(!new)>(s: State<T>, s': State<T>, t: nat, u: nat, v: nat)
    requires CheckedInv(s) && Step(s, s', t, u) && v < |s.pcs| && InDequeue(s.pcs[v])
    ensures |s'.pcs| == |s.pcs|
    ensures || InDequeue(s'.pcs[v])
            || (v == t && s.queue != [] && s'.pcs[v] == DNotify(s.queue[0]) && s'.queue == s.queue[1..])
  {
    if v != t {
      OthersOnlyWake(s, s', t, u, v);
    }
  }

  ghost predicate ConsumerWoken<T>(s: State<T>, s': State<T>)
    requires |s'.pcs| == |s.pcs|
  {
    exists w :: 0 <= w < |s.pcs| && OnNotEmpty(s.pcs[w]) && s'.pcs[w] == DWoken
  }

  ghost predicate ProducerWoken<T>(s: State<T>, s': State<T>)
    requires |s'.pcs| == |s.pcs|
  {
    exists w :: 0 <= w < |s.pcs| && OnNotFull(s.pcs[w]) && s'.pcs[w] == EWoken(s.pcs[w].e)
  }

  /** `enqueue` is over when it has woken a consumer, if one sleeps. */
  lemma EnqueueNotifies<T(!new)>(s: State<T>, s': State<T>, t: nat, u: nat, v: nat)
    requires Step(s, s', t, u) && v < |s.pcs| && s.pcs[v].ENotify?
    ensures |s'.pcs| == |s.pcs|
    ensures || s'.pcs[v] == s.pcs[v]
            || (v == t && s'.pcs[v].Producing?
                && (ConsumerWoken(s, s') || forall w :: 0 <= w < |s.pcs| ==> !OnNotEmpty(s.pcs[w])))
  {
    if v != t {
      OthersOnlyWake(s, s', t, u, v);
    } else if exists w :: 0 <= w < |s.pcs| && OnNotEmpty(s.pcs[w]) {
      assert OnNotEmpty(s.pcs[u]) && s'.pcs[u] == DWoken;
    }
  }

  /** `dequeue` is over when it has woken a producer, if one sleeps. */
  lemma DequeueNotifies<T(!new)>(s: State<T>, s': State<T>, t: nat, u: nat, v: nat)
    requires Step(s, s', t, u) && v < |s.pcs| && s.pcs[v].DNotify?
    ensures |s'.pcs| == |s.pcs|
    ensures || s'.pcs[v] == s.pcs[v]
            || (v == t && s'.pcs[v].Consuming?
                && (ProducerWoken(s, s') || forall w :: 0 <= w < |s.pcs| ==> !OnNotFull(s.pcs[w])))
  {
    if v != t {
      OthersOnlyWake(s, s', t, u, v);
    } else if exists w :: 0 <= w < |s.pcs| && OnNotFull(s.pcs[w]) {
      assert OnNotFull(s.pcs[u]) && s'.pcs[u] == EWoken(s.pcs[u].e);
    }
  }

  /** Nothing else changes the queue, and a thread goes to sleep only while it cannot go on. */
  lemma NothingElse<T(!new)>(s: State<T>, s': State<T>, t: nat, u: nat, v: nat)
    requires CheckedInv(s) && Step(s, s', t, u) && v < |s.pcs|
    ensures |s'.pcs| == |s.pcs| && s'.capacity == s.capacity
    ensures s'.queue != s.queue ==>
              (InEnqueue(s.pcs[t]) && s'.pcs[t].ENotify?) || (InDequeue(s.pcs[t]) && s'.pcs[t].DNotify?)
    ensures OnNotFull(s'.pcs[v]) && !OnNotFull(s.pcs[v]) ==>
              v == t && InEnqueue(s.pcs[v]) && |s.queue| >= Limit(s.capacity)
    ensures OnNotEmpty(s'.pcs[v]) && !OnNotEmpty(s.pcs[v]) ==> v == t && InDequeue(s.pcs[v]) && s.queue == []
  {
    if v != t {
      OthersOnlyWake(s, s', t, u, v);
    }
  }

  /** Whoever sleeps may wake at any time, and then acquires the mutex to look again. */
  lemma SpuriousWakeup<T(!new)>(s: State<T>, v: nat)
    requires v < |s.pcs| && (OnNotFull(s.pcs[v]) || OnNotEmpty(s.pcs[v]))
    ensures StepBy(s, Go(s, v, if OnNotFull(s.pcs[v]) then EWoken(s.pcs[v].e) else DWoken), v)
  {
    assert Step(s, Go(s, v, if OnNotFull(s.pcs[v]) then EWoken(s.pcs[v].e) else DWoken), v, 0);
  }

  /** A notification may go to any sleeper on its queue. */
  lemma AnySleeperMayBeChosen<T(!new)>(s: State<T>, t: nat, w: nat)
    requires t < |s.pcs| && w < |s.pcs|
    ensures s.pcs[t].ENotify? && OnNotEmpty(s.pcs[w]) ==> Step(s, Go(Go(s, w, DWoken), t, Producing), t, w)
    ensures s.pcs[t].DNotify? && OnNotFull(s.pcs[w]) ==>
              Step(s, Go(Go(s, w, EWoken(s.pcs[w].e)), t, Consuming), t, w)
  {
  }

  /** A thread outside a call may call. */
  lemma CallsBegin<T(!new)>(s: State<T>, s': State<T>, t: nat, u: nat)
    requires Step(s, s', t, u)
    ensures |s'.pcs| == |s.pcs|
    ensures s.pcs[t].Producing? ==> s'.pcs[t].EWant?
    ensures s.pcs[t].Consuming? ==> s'.pcs[t].DWant?
  {
  }

  /** A capacity that is not negative is the limit; a negative one is converted to at least 2 to the 63. */
  lemma LimitOfCapacity(capacity: int32)
    ensures if capacity >= 0 then Limit(capacity) == capacity
            else Limit(capacity) - 0x1_0000_0000_0000_0000 == capacity && Limit(capacity) >= 0x8000_0000_0000_0000
  {
  }

  /** How many steps of its own a thread in a call has left at most before the call is over or the thread sleeps. */
  function StepsLeft<T>(pc: Pc<T>): nat {
    match pc
    case EWant(_) => 5
    case EWoken(_) => 5
    case ECheck(_) => 4
    case EDoze(_) => 3
    case EPush(_) => 3
    case ENotify => 2
    case DWant => 5
    case DWoken => 5
    case DCheck => 4
    case DDoze => 3
    case DPop => 3
    case DNotify(_) => 2
    case _ => 0
  }

  /** No call goes round in circles. */
  lemma CallsAdvance<T(!new)>(s: State<T>, s': State<T>, t: nat, u: nat)
    requires Step(s, s', t, u) && Enabled(s, t) && !s.pcs[t].Producing? && !s.pcs[t].Consuming?
    ensures t < |s'.pcs| && StepsLeft(s'.pcs[t]) < StepsLeft(s.pcs[t])
  {
  }

  // ----- The calls as the history of a queue -----

  /** With this step, thread `t` has put its argument in or taken out what it will return. */
  predicate Effect<T(==)>(s: State<T>, s': State<T>, t: nat, event: Event<T>) {
    && t < |s.pcs| == |s'.pcs|
    && (|| (InEnqueue(s.pcs[t]) && s'.pcs[t].ENotify? && event == Put(s.pcs[t].e))
        || (InDequeue(s.pcs[t]) && s'.pcs[t].DNotify? && event == Got(Some(s'.pcs[t].ret))))
  }

  ghost function Events<T(!new)>(s: State<T>, s': State<T>): seq<Event<T>> {
    if t: nat, event :| Effect(s, s', t, event) then [event] else []
  }

  /** The calls of a run, with their arguments and results, in the order in which they take effect. */
  ghost function History<T(!new)>(run: seq<State<T>>): seq<Event<T>> {
    if |run| < 2 then []
    else History(run[..|run| - 1]) + Events(run[|run| - 2], run[|run| - 1])
  }

  lemma EffectOnQueue<T(!new)>(s: State<T>, s': State<T>, t: nat, u: nat, v: nat, event: Event<T>)
    requires CheckedInv(s) && Step(s, s', t, u) && Effect(s, s', v, event)
    ensures match event
            case Put(e) => s'.queue == s.queue + [e] && s'.pushed == s.pushed + [e] && s'.popped == s.popped
            case Got(ret) =>
              && s.queue != [] && ret == Some(s.queue[0]) && s'.queue == s.queue[1..]
              && s'.popped == s.popped + [s.queue[0]] && s'.pushed == s.pushed
  {
    if event.Put? {
      EnqueueStores(s, s', t, u, v);
    } else {
      DequeueTakes(s, s', t, u, v);
    }
  }

  lemma NoEffect<T(!new)>(s: State<T>, s': State<T>, t: nat, u: nat)
    requires CheckedInv(s) && Step(s, s', t, u)
    requires forall v: nat, event :: !Effect(s, s', v, event)
    ensures s'.queue == s.queue && s'.pushed == s.pushed && s'.popped == s.popped
  {
    if s.pcs[t].EPush? {
      assert Effect(s, s', t, Put(s.pcs[t].e));
    } else if s.pcs[t].DPop? {
      assert Effect(s, s', t, Got(Some(s.queue[0])));
    }
  }

  /**
   The queue is linearizable: in the order in which the calls take effect, their arguments and results are
   those of a queue that executes them one after the other, and what it then contains is in the queue.
   */
  lemma {:induction false} RunIsHistory<T(!new)>(run: seq<State<T>>)
    requires IsRun(Init<T>, Next<T>, run)
    ensures var s := run[|run| - 1];
            && Replay(History(run)) == Some(s.queue)
            && Puts(History(run)) == s.pushed && Gets(History(run)) == s.popped
  {
    if |run| == 1 {
    } else {
      var n := |run| - 1;
      RunIsHistory(run[..n]);
      AlwaysInv(run, n - 1);
      assert Next(run[n - 1], run[n]);
      var t: nat, u: nat :| Step(run[n - 1], run[n], t, u);
      HistoryStep(run[n - 1], run[n], t, u, History(run[..n]));
    }
  }

  lemma HistoryStep<T(!new)>(s: State<T>, s': State<T>, t: nat, u: nat, h: seq<Event<T>>)
    requires CheckedInv(s) && Step(s, s', t, u)
    requires Replay(h) == Some(s.queue) && Puts(h) == s.pushed && Gets(h) == s.popped
    ensures var h' := h + Events(s, s');
            Replay(h') == Some(s'.queue) && Puts(h') == s'.pushed && Gets(h') == s'.popped
  {
    if v: nat, event :| Effect(s, s', v, event) {
      var e: Event<T> := Events(s, s')[0];
      var w: nat :| Effect(s, s', w, e);
      EffectOnQueue(s, s', t, u, w, e);
      OneMore(h, e);
    } else {
      NoEffect(s, s', t, u);
      assert h + Events(s, s') == h;
    }
  }

  /** First in, first out, over the arguments and results of the calls. */
  lemma FifoOfCalls<T(!new)>(run: seq<State<T>>)
    requires IsRun(Init<T>, Next<T>, run)
    ensures Puts(History(run)) == Gets(History(run)) + run[|run| - 1].queue
  {
    RunIsHistory(run);
    FirstInFirstOut(History(run));
  }
}
