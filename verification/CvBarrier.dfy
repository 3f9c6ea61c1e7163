/**
 The reusable barrier over a mutex and a condition variable.  The last caller to arrive resets
 the counter, starts the next generation and notifies everyone, all under the mutex.

 Steps are as fine as in `CvRwLock`; here each assignment is a step of its own.
 */
module CvBarrier {
  import opened Counting
  import opened Runs
  import opened Wrappers

  /** The argument is the caller's local copy of the generation. */
  datatype Pc =
    | Idle | Want | Enter | Arrive(gen: int)
      // the last to arrive
    | Reset(gen: int) | Bump(gen: int) | NotifyAll(gen: int)
      // the others
    | Check(gen: int) | Doze(gen: int) | Sleep(gen: int) | Woken(gen: int)

  /** `arrived` and `returned` list the generations of the callers in the order of their steps. */
  datatype State = State(
    count: int, current: int, generation: int, mutex: Option<nat>, pcs: seq<Pc>,
    arrived: seq<int>, returned: seq<int>)

  predicate Acquiring(pc: Pc) {
    pc.Want? || pc.Woken?
  }

  predicate Inside(pc: Pc) {
    !pc.Idle? && !pc.Want? && !pc.Sleep? && !pc.Woken?
  }

  function Wake(pc: Pc): Pc {
    if pc.Sleep? then Woken(pc.gen) else pc
  }

  function WakeAll(pcs: seq<Pc>): seq<Pc> {
    seq(|pcs|, i requires 0 <= i < |pcs| => Wake(pcs[i]))
  }

  function Go(s: State, t: nat, pc: Pc): State
    requires t < |s.pcs|
  {
    s.(pcs := s.pcs[t := pc])
  }

  function Acquire(s: State, t: nat, pc: Pc): State
    requires t < |s.pcs|
  {
    Go(s, t, pc).(mutex := Some(t))
  }

  function Release(s: State, t: nat, pc: Pc): State
    requires t < |s.pcs|
  {
    Go(s, t, pc).(mutex := None)
  }

  /** The caller of generation `gen` leaves `wait`. */
  function Return(s: State, t: nat, gen: int): State
    requires t < |s.pcs|
  {
    Release(s, t, Idle).(returned := s.returned + [gen])
  }

  function After(s: State, t: nat): State
    requires t < |s.pcs|
  {
    match s.pcs[t]
    case Idle => Go(s, t, Want)
    case Want => Acquire(s, t, Enter)
    case Enter => Go(s, t, Arrive(s.generation))
    case Arrive(gen) =>
      Go(s, t, if s.current - 1 == 0 then Reset(gen) else Check(gen)).(
        current := s.current - 1, arrived := s.arrived + [gen])
    case Reset(gen) => Go(s, t, Bump(gen)).(current := s.count)
    case Bump(gen) => Go(s, t, NotifyAll(gen)).(generation := s.generation + 1)
    case NotifyAll(gen) => Return(s.(pcs := WakeAll(s.pcs)), t, gen)
    case Check(gen) => if gen != s.generation then Return(s, t, gen) else Go(s, t, Doze(gen))
    case Doze(gen) => Release(s, t, Sleep(gen))
    case Sleep(gen) => Go(s, t, Woken(gen))
    case Woken(gen) => Acquire(s, t, Check(gen))
  }

  ghost predicate Step(s: State, s': State, t: nat) {
    && t < |s.pcs|
    && (Acquiring(s.pcs[t]) ==> s.mutex == None)
    && s' == After(s, t)
  }

  ghost predicate Next(s: State, s': State) {
    exists t: nat :: Step(s, s', t)
  }

  ghost predicate Init(s: State) {
    && s.current == s.count && s.generation == 0
    && s.arrived == [] && s.returned == []
    && s.mutex == None
    && forall t :: 0 <= t < |s.pcs| ==> s.pcs[t] == Idle
  }

  // ----- The barrier itself: one method call is one step of the calling thread -----

  class Barrier {
    const count: int
    var current: int
    var generation: int
    var mutex: Option<nat>
    var pcs: seq<Pc>
    ghost var arrived: seq<int>
    ghost var returned: seq<int>

    ghost function Snap(): State
      reads this
    {
      State(count, current, generation, mutex, pcs, arrived, returned)
    }

    constructor (count: int, threads: nat)
      ensures Init(Snap()) && PositiveInv(Snap()) && this.count == count && |pcs| == threads
    {
      this.count := count;
      current, generation := count, 0;
      mutex := None;
      pcs := seq(threads, i => Idle);
      arrived, returned := [], [];
      new;
      InitPositive(Snap());
    }

    method Wait(t: nat)
      requires t < |pcs| && !pcs[t].Sleep? && (Acquiring(pcs[t]) ==> mutex == None)
      requires PositiveInv(Snap())
      modifies this
      ensures PositiveInv(Snap()) && Step(old(Snap()), Snap(), t)
    {
      Advance(t);
      PositiveStepKeepsInv(old(Snap()), Snap(), t);
    }

    /** The step without what it keeps. */
    method Advance(t: nat)
      requires t < |pcs| && !pcs[t].Sleep? && (Acquiring(pcs[t]) ==> mutex == None)
      modifies this
      ensures Step(old(Snap()), Snap(), t)
    {
      match pcs[t] {
        case Idle =>
          pcs := pcs[t := Want];
        case Want =>
          mutex, pcs := Some(t), pcs[t := Enter];
        case Enter =>
          pcs := pcs[t := Arrive(generation)];
        case Arrive(gen) =>
          current := current - 1;
          arrived := arrived + [gen];
          pcs := pcs[t := if current == 0 then Reset(gen) else Check(gen)];
        case Reset(gen) =>
          current := count;
          pcs := pcs[t := Bump(gen)];
        case Bump(gen) =>
          generation := generation + 1;
          pcs := pcs[t := NotifyAll(gen)];
        case NotifyAll(gen) =>
          pcs := WakeAll(pcs);
          mutex, pcs := None, pcs[t := Idle];
          returned := returned + [gen];
        case Check(gen) =>
          if gen != generation {
            mutex, pcs := None, pcs[t := Idle];
            returned := returned + [gen];
          } else {
            pcs := pcs[t := Doze(gen)];
          }
        case Doze(gen) =>
          mutex, pcs := None, pcs[t := Sleep(gen)];
        case Woken(gen) =>
          mutex, pcs := Some(t), pcs[t := Check(gen)];
      }
    }
  }

  // ----- What every step keeps -----

  /** The thread has arrived in generation `g` and not returned yet. */
  predicate IsIn(pc: Pc, g: int) {
    && (pc.Reset? || pc.Bump? || pc.NotifyAll? || pc.Check? || pc.Doze? || pc.Sleep? || pc.Woken?)
    && pc.gen == g
  }

  ghost function In(g: int): Pc -> bool {
    pc => IsIn(pc, g)
  }

  ghost predicate MutexInv(s: State) {
    && (forall t :: 0 <= t < |s.pcs| ==> (Inside(s.pcs[t]) <==> s.mutex == Some(t)))
    && (s.mutex.Some? ==> s.mutex.value < |s.pcs|)
  }

  /** The thread in the mutex, which may be between two assignments; `Idle` if there is none. */
  ghost function Holder(s: State): Pc {
    if s.mutex.Some? && s.mutex.value < |s.pcs| then s.pcs[s.mutex.value] else Idle
  }

  ghost predicate CounterInv(s: State) {
    && s.generation >= 0
    && (if Holder(s).Reset? then s.current == 0
        else if Holder(s).Bump? then s.current == s.count
        else 1 <= s.current <= s.count)
  }

  ghost predicate LocalInv(s: State) {
    forall t :: 0 <= t < |s.pcs| ==>
      match s.pcs[t]
      case Arrive(gen) => gen == s.generation
      case Reset(gen) => gen == s.generation
      case Bump(gen) => gen == s.generation
      case NotifyAll(gen) => gen == s.generation - 1
      case Check(gen) => gen <= s.generation
      case Doze(gen) => gen == s.generation
      case Sleep(gen) => gen == s.generation || (Holder(s).NotifyAll? && gen == s.generation - 1)
      case Woken(gen) => gen <= s.generation
      case _ => true
  }

  /** How many callers have arrived in the generation that is under way. */
  ghost function Arrivals(s: State): int {
    if Holder(s).Bump? then s.count else s.count - s.current
  }

  /** So many callers have arrived in all when `extra` have in generation `generation`. */
  ghost predicate InAll(total: int, generation: int, count: int, extra: int) {
    total == generation * count + extra
  }

  ghost predicate ArrivedInv(s: State) {
    && InAll(|s.arrived|, s.generation, s.count, Arrivals(s))
    && forall g :: multiset(s.arrived)[g] ==
         if 0 <= g < s.generation then s.count else if g == s.generation then Arrivals(s) else 0
  }

  /** Every caller that has arrived in a generation is in `wait` still or has returned from it. */
  ghost predicate ReturnedInv(s: State) {
    && (forall g :: multiset(s.returned)[g] + Count(s.pcs, In(g)) == multiset(s.arrived)[g])
    && (forall g :: g >= s.generation ==> multiset(s.returned)[g] == 0)
  }

  ghost predicate Inv(s: State) {
    MutexInv(s) && CounterInv(s) && LocalInv(s) && ArrivedInv(s) && ReturnedInv(s)
  }

  lemma InitInv(s: State)
    requires Init(s) && s.count >= 1
    ensures Inv(s)
  {
    forall g
      ensures Count(s.pcs, In(g)) == 0
    {
      CountNone(s.pcs, In(g));
    }
  }

  lemma StepKeepsMutex(s: State, s': State, t: nat)
    requires MutexInv(s) && Step(s, s', t)
    ensures MutexInv(s')
  {
  }

  lemma StepKeepsCounter(s: State, s': State, t: nat)
    requires MutexInv(s) && CounterInv(s) && s.count >= 1 && Step(s, s', t)
    ensures CounterInv(s')
  {
  }

  lemma StepKeepsLocal(s: State, s': State, t: nat)
    requires MutexInv(s) && LocalInv(s) && Step(s, s', t)
    ensures LocalInv(s')
  {
  }

  lemma StepKeepsArrived(s: State, s': State, t: nat)
    requires MutexInv(s) && CounterInv(s) && LocalInv(s) && ArrivedInv(s) && s.count >= 1 && Step(s, s', t)
    ensures ArrivedInv(s')
  {
    TotalKept(|s.arrived|, s.generation, s.count, Arrivals(s));
  }

  lemma TotalKept(total: int, generation: int, count: int, extra: int)
    requires InAll(total, generation, count, extra)
    ensures InAll(total + 1, generation, count, extra + 1)
    ensures extra == count ==> InAll(total, generation + 1, count, 0)
  {
    assert (generation + 1) * count == generation * count + count;
  }

  lemma Append(q: seq<int>, x: int, g: int)
    ensures multiset(q + [x])[g] == multiset(q)[g] + if x == g then 1 else 0
  {
  }

  /** The thread's next step returns from `wait`. */
  predicate Leaves(s: State, t: nat)
    requires t < |s.pcs|
  {
    s.pcs[t].NotifyAll? || (s.pcs[t].Check? && s.pcs[t].gen != s.generation)
  }

  lemma OwnStep(s: State, s': State, t: nat)
    requires Step(s, s', t)
    ensures s'.arrived == if s.pcs[t].Arrive? then s.arrived + [s.pcs[t].gen] else s.arrived
    ensures s'.returned == if Leaves(s, t) then s.returned + [s.pcs[t].gen] else s.returned
    ensures forall g :: IsIn(s'.pcs[t], g) <==> (IsIn(s.pcs[t], g) && !Leaves(s, t)) || s.pcs[t] == Arrive(g)
  {
  }

  /** The step's own account: who arrives is in the generation, and who is no longer in it has returned. */
  lemma OwnAccount(s: State, s': State, t: nat, g: int)
    requires Step(s, s', t)
    ensures multiset(s'.returned)[g] + multiset(s.arrived)[g] + (if IsIn(s'.pcs[t], g) then 1 else 0) ==
            multiset(s.returned)[g] + multiset(s'.arrived)[g] + (if IsIn(s.pcs[t], g) then 1 else 0)
  {
    OwnStep(s, s', t);
    if s.pcs[t].Arrive? {
      Append(s.arrived, s.pcs[t].gen, g);
    } else if Leaves(s, t) {
      Append(s.returned, s.pcs[t].gen, g);
    }
  }

  lemma StepKeepsReturned(s: State, s': State, t: nat)
    requires MutexInv(s) && LocalInv(s) && ReturnedInv(s) && Step(s, s', t)
    ensures ReturnedInv(s')
  {
    forall g
      ensures multiset(s'.returned)[g] + Count(s'.pcs, In(g)) == multiset(s'.arrived)[g]
    {
      assert multiset(s.returned)[g] + Count(s.pcs, In(g)) == multiset(s.arrived)[g];
      CountIn(s, s', t, g);
      OwnAccount(s, s', t, g);
    }
    NoneReturnedYet(s, s', t);
  }

  lemma NoneReturnedYet(s: State, s': State, t: nat)
    requires MutexInv(s) && LocalInv(s) && ReturnedInv(s) && Step(s, s', t)
    ensures forall g :: g >= s'.generation ==> multiset(s'.returned)[g] == 0
  {
  }

  /** A step moves one caller into a generation, out of it, or neither. */
  lemma CountIn(s: State, s': State, t: nat, g: int)
    requires Step(s, s', t)
    ensures Count(s'.pcs, In(g)) + (if IsIn(s.pcs[t], g) then 1 else 0) ==
            Count(s.pcs, In(g)) + (if IsIn(s'.pcs[t], g) then 1 else 0)
  {
    var woken := if s.pcs[t].NotifyAll? then WakeAll(s.pcs) else s.pcs;
    CountSame(s.pcs, In(g), woken, In(g));
    CountUpdate(woken, In(g), t, s'.pcs[t]);
  }

  lemma StepKeepsInv(s: State, s': State, t: nat)
    requires Inv(s) && s.count >= 1 && Step(s, s', t)
    ensures Inv(s') && s'.count == s.count
  {
    StepKeepsMutex(s, s', t);
    StepKeepsCounter(s, s', t);
    StepKeepsLocal(s, s', t);
    StepKeepsArrived(s, s', t);
    StepKeepsReturned(s, s', t);
  }

  ghost predicate PositiveInv(s: State) {
    s.count >= 1 ==> Inv(s)
  }

  lemma InitPositive(s: State)
    requires Init(s)
    ensures PositiveInv(s)
  {
    if s.count >= 1 {
      InitInv(s);
    }
  }

  lemma PositiveStepKeepsInv(s: State, s': State, t: nat)
    requires PositiveInv(s) && Step(s, s', t)
    ensures PositiveInv(s')
  {
    if s.count >= 1 {
      StepKeepsInv(s, s', t);
    }
  }

  lemma AlwaysInv(run: seq<State>, k: nat)
    requires IsRun(Init, Next, run) && k < |run| && run[k].count >= 1
    ensures Inv(run[k])
  {
    forall s | Init(s)
      ensures PositiveInv(s)
    {
      InitPositive(s);
    }
    forall s, s' | PositiveInv(s) && Next(s, s')
      ensures PositiveInv(s')
    {
      var t: nat :| Step(s, s', t);
      PositiveStepKeepsInv(s, s', t);
    }
    Invariance(Init, Next, PositiveInv, run, k);
  }

  // ----- The theorems -----

  /**
   Whenever the mutex is free, the arrivals so far are those of the finished generations and those
   missing from the counter, and a sleeper that has not been notified belongs to the current
   generation.
   */
  lemma CounterIsExact(run: seq<State>, k: nat)
    requires IsRun(Init, Next, run) && k < |run| && run[k].count >= 1 && run[k].mutex == None
    ensures var s := run[k];
            && 1 <= s.current <= s.count
            && |s.arrived| == s.generation * s.count + (s.count - s.current)
            && forall t :: 0 <= t < |s.pcs| && s.pcs[t].Sleep? ==> s.pcs[t].gen == s.generation
  {
    AlwaysInv(run, k);
  }

  /** No caller returns before `count` callers have arrived in its generation. */
  lemma NoEarlyReturn(run: seq<State>, k: nat, g: int)
    requires IsRun(Init, Next, run) && k < |run| && run[k].count >= 1 && g in run[k].returned
    ensures 0 <= g < run[k].generation && multiset(run[k].arrived)[g] == run[k].count
  {
    AlwaysInv(run, k);
    assert multiset(run[k].returned)[g] > 0;
  }

  /** A finished generation releases exactly `count` callers: they have returned or are about to. */
  lemma EachGenerationReleasesCount(run: seq<State>, k: nat, g: int)
    requires IsRun(Init, Next, run) && k < |run| && run[k].count >= 1 && 0 <= g < run[k].generation
    ensures multiset(run[k].returned)[g] + Count(run[k].pcs, In(g)) == run[k].count
  {
    AlwaysInv(run, k);
  }

  /** The thread can go on by itself. */
  predicate Enabled(s: State, t: nat)
    requires t < |s.pcs|
  {
    !s.pcs[t].Idle? && !s.pcs[t].Sleep? && (Acquiring(s.pcs[t]) ==> s.mutex == None)
  }

  /**
   No wakeup is lost.  Where no thread can go on without a new call or a spurious wakeup, those in
   `wait` are the sleepers of the current generation, and fewer than `count`.
   */
  lemma SleepersAreTooFew(run: seq<State>, k: nat)
    requires IsRun(Init, Next, run) && k < |run| && run[k].count >= 1
    requires forall t: nat :: t < |run[k].pcs| ==> !Enabled(run[k], t)
    ensures var s := run[k];
            && (forall t :: 0 <= t < |s.pcs| ==> s.pcs[t].Idle? || s.pcs[t] == Sleep(s.generation))
            && Count(s.pcs, In(s.generation)) == s.count - s.current < s.count
  {
    AlwaysInv(run, k);
    var s := run[k];
    if s.mutex.Some? {
      assert Enabled(s, s.mutex.value);
    }
    forall t | 0 <= t < |s.pcs|
      ensures s.pcs[t].Idle? || s.pcs[t] == Sleep(s.generation)
    {
      assert !Enabled(s, t);
    }
  }

  /** With a count of zero or less the counter never comes down to zero. */
  ghost predicate StuckInv(s: State) {
    s.count <= 0 ==>
      && s.current <= s.count && s.generation == 0 && s.returned == []
      && forall t :: 0 <= t < |s.pcs| ==>
           var pc := s.pcs[t];
           pc.Idle? || pc.Want? || pc.Enter? || (!pc.Reset? && !pc.Bump? && !pc.NotifyAll? && pc.gen == 0)
  }

  /** With a count of zero or less nobody ever returns. */
  lemma NotPositiveNeverReleases(run: seq<State>, k: nat)
    requires IsRun(Init, Next, run) && k < |run| && run[k].count <= 0
    ensures run[k].returned == []
  {
    Invariance(Init, Next, StuckInv, run, k);
  }

  /** A generation ends only when there are as many threads as it counts. */
  lemma EndNeedsEnoughThreads(s: State, t: nat)
    requires Inv(s) && t < |s.pcs| && s.pcs[t].Bump?
    ensures s.count <= |s.pcs|
  {
    var g := s.generation;
    assert Holder(s) == s.pcs[t];
    assert multiset(s.returned)[g] + Count(s.pcs, In(g)) == multiset(s.arrived)[g] == s.count;
    CountAll(s.pcs, In(g));
  }

  ghost predicate WaitingInv(s: State) {
    s.count > |s.pcs| ==> Inv(s) && s.generation == 0
  }

  lemma StepKeepsWaiting(s: State, s': State, t: nat)
    requires WaitingInv(s) && Step(s, s', t)
    ensures WaitingInv(s')
  {
    if s.count > |s.pcs| {
      StepKeepsInv(s, s', t);
      if s.pcs[t].Bump? {
        EndNeedsEnoughThreads(s, t);
      }
    }
  }

  /** With fewer threads than the count nobody ever returns either. */
  lemma TooFewNeverRelease(run: seq<State>, k: nat)
    requires IsRun(Init, Next, run) && k < |run| && run[k].count > |run[k].pcs|
    ensures run[k].returned == []
  {
    forall s | Init(s)
      ensures WaitingInv(s)
    {
      if s.count > |s.pcs| {
        InitInv(s);
      }
    }
    forall s, s' | WaitingInv(s) && Next(s, s')
      ensures WaitingInv(s')
    {
      var t: nat :| Step(s, s', t);
      StepKeepsWaiting(s, s', t);
    }
    Invariance(Init, Next, WaitingInv, run, k);
    if run[k].returned != [] {
      NoEarlyReturn(run, k, run[k].returned[0]);
    }
  }

  /** The first `n` threads sleep in generation 0 and the others have not begun. */
  ghost predicate AsleepUpTo(s: State, n: nat) {
    && n <= |s.pcs| && s.current == s.count - n && s.generation == 0 && s.mutex == None
    && (forall t :: 0 <= t < n ==> s.pcs[t] == Sleep(0))
    && (forall t :: n <= t < |s.pcs| ==> s.pcs[t] == Idle)
  }

  /** One more thread arrives, in three steps. */
  lemma OneArrives(run: seq<State>, n: nat) returns (longer: seq<State>)
    requires IsRun(Init, Next, run) && AsleepUpTo(run[|run| - 1], n) && n < |run[|run| - 1].pcs|
    ensures IsRun(Init, Next, longer) && longer[0] == run[0]
    ensures var s, s' := run[|run| - 1], longer[|longer| - 1];
            s' == Go(s, n, Arrive(0)).(mutex := Some(n))
  {
    var s := run[|run| - 1];
    var a := After(s, n);
    var b := After(a, n);
    var c := After(b, n);
    assert Step(s, a, n) && Step(a, b, n) && Step(b, c, n);
    Extend(Init, Next, run, a);
    Extend(Init, Next, run + [a], b);
    Extend(Init, Next, run + [a] + [b], c);
    longer := run + [a] + [b] + [c];
  }

  /** A thread that is not the last goes to sleep. */
  lemma OneSleeps(run: seq<State>, n: nat) returns (longer: seq<State>)
    requires IsRun(Init, Next, run) && AsleepUpTo(run[|run| - 1], n) && n < |run[|run| - 1].pcs|
    requires run[|run| - 1].current > 1
    ensures IsRun(Init, Next, longer) && longer[0] == run[0]
    ensures AsleepUpTo(longer[|longer| - 1], n + 1)
    ensures |longer[|longer| - 1].pcs| == |run[|run| - 1].pcs| && longer[|longer| - 1].count == run[|run| - 1].count
  {
    var here := OneArrives(run, n);
    var s := here[|here| - 1];
    var a := After(s, n);
    var b := After(a, n);
    var c := After(b, n);
    assert Step(s, a, n) && Step(a, b, n) && Step(b, c, n);
    Extend(Init, Next, here, a);
    Extend(Init, Next, here + [a], b);
    Extend(Init, Next, here + [a] + [b], c);
    longer := here + [a] + [b] + [c];
  }

  lemma {:induction false} AllSleep(s: State, n: nat) returns (run: seq<State>)
    requires Init(s) && n < s.count && n <= |s.pcs|
    ensures IsRun(Init, Next, run) && run[0] == s && AsleepUpTo(run[|run| - 1], n)
    ensures |run[|run| - 1].pcs| == |s.pcs| && run[|run| - 1].count == s.count
  {
    if n == 0 {
      run := [s];
    } else {
      var before := AllSleep(s, n - 1);
      run := OneSleeps(before, n - 1);
    }
  }

  /** The last of `count` threads to arrive returns. */
  lemma LastReturns(s: State) returns (run: seq<State>)
    requires Init(s) && 1 <= s.count <= |s.pcs|
    ensures IsRun(Init, Next, run) && run[0] == s && run[|run| - 1].returned != []
  {
    var n := s.count - 1;
    var before := AllSleep(s, n);
    var here := OneArrives(before, n);
    var w := here[|here| - 1];
    var a := After(w, n);
    var b := After(a, n);
    var c := After(b, n);
    var d := After(c, n);
    assert Step(w, a, n) && Step(a, b, n) && Step(b, c, n) && Step(c, d, n);
    Extend(Init, Next, here, a);
    Extend(Init, Next, here + [a], b);
    Extend(Init, Next, here + [a] + [b], c);
    Extend(Init, Next, here + [a] + [b] + [c], d);
    run := here + [a] + [b] + [c] + [d];
  }

  /** Exactly when some run returns from `wait`: a positive count, and as many threads. */
  lemma ReturnsIffEnoughThreads(s: State)
    requires Init(s)
    ensures 1 <= s.count <= |s.pcs| <==>
            exists run: seq<State> :: IsRun(Init, Next, run) && run[0] == s && run[|run| - 1].returned != []
  {
    if 1 <= s.count <= |s.pcs| {
      var run := LastReturns(s);
    } else {
      forall run: seq<State> | IsRun(Init, Next, run) && run[0] == s
        ensures run[|run| - 1].returned == []
      {
        var k := |run| - 1;
        Constancy(Init, Next, (s: State) => (s.count, |s.pcs|), run, k);
        if s.count <= 0 {
          NotPositiveNeverReleases(run, k);
        } else {
          TooFewNeverRelease(run, k);
        }
      }
    }
  }

  // ----- What a thread has done when it leaves a call -----

  /** The program points of `wait` before the caller has arrived. */
  predicate IsArriving(pc: Pc) {
    pc.Want? || pc.Enter? || pc.Arrive?
  }

  /** A caller goes on until it has arrived, in the generation that is under way, and is counted. */
  lemma WaitArrives(s: State, s': State, t: nat, v: nat)
    requires LocalInv(s) && Step(s, s', t) && v < |s.pcs| && IsArriving(s.pcs[v])
    ensures |s'.pcs| == |s.pcs|
    ensures || IsArriving(s'.pcs[v])
            || (v == t && IsIn(s'.pcs[v], s.generation) && s'.arrived == s.arrived + [s.generation]
                && s'.current == s.current - 1)
  {
  }

  /** Once it has arrived in a generation it stays there until that is over, and only then returns. */
  lemma WaitReturns(s: State, s': State, t: nat, v: nat, g: int)
    requires MutexInv(s) && LocalInv(s) && Step(s, s', t) && v < |s.pcs| && IsIn(s.pcs[v], g)
    ensures |s'.pcs| == |s.pcs|
    ensures || IsIn(s'.pcs[v], g)
            || (v == t && s'.pcs[v].Idle? && g < s'.generation && s'.returned == s.returned + [g])
  {
  }

  /** Nothing else changes the counter or the generation, but that the last to arrive starts a new one. */
  lemma NothingElse(s: State, s': State, t: nat)
    requires Step(s, s', t)
    ensures |s'.pcs| == |s.pcs| && s'.count == s.count
    ensures s'.current != s.current ==>
              (IsArriving(s.pcs[t]) && !IsArriving(s'.pcs[t])) || (s.pcs[t].Reset? && s'.current == s.count)
    ensures s'.generation != s.generation ==> s.pcs[t].Bump? && s'.generation == s.generation + 1
  {
  }

  /** The last to arrive returns when it has woken everyone. */
  lemma LastWakesAll(s: State, s': State, t: nat)
    requires Step(s, s', t) && s.pcs[t].NotifyAll?
    ensures |s'.pcs| == |s.pcs|
    ensures forall w :: 0 <= w < |s.pcs| && w != t ==> s'.pcs[w] == Wake(s.pcs[w]) && !s'.pcs[w].Sleep?
  {
  }

  /** A thread goes to sleep only in the generation that is under way, and may wake at any time. */
  lemma SleepsForAReason(s: State, s': State, t: nat, v: nat)
    requires LocalInv(s) && Step(s, s', t) && v < |s.pcs|
    ensures |s'.pcs| == |s.pcs|
    ensures s'.pcs[v].Sleep? && !s.pcs[v].Sleep? ==> v == t && IsIn(s.pcs[v], s.generation)
    ensures s.pcs[v].Sleep? ==> Step(s, Go(s, v, Wake(s.pcs[v])), v)
  {
  }

  /** How many steps of its own a thread in `wait` has left at most before the call is over or the thread sleeps. */
  function StepsLeft(pc: Pc): nat {
    match pc
    case Idle => 0
    case Want => 7
    case Enter => 6
    case Arrive(_) => 5
    case Reset(_) => 4
    case Bump(_) => 3
    case NotifyAll(_) => 2
    case Woken(_) => 4
    case Check(_) => 3
    case Doze(_) => 2
    case Sleep(_) => 1
  }

  /** A thread outside a call may call, and no call goes round in circles. */
  lemma CallsAdvance(s: State, s': State, t: nat)
    requires Step(s, s', t) && !s.pcs[t].Sleep?
    ensures t < |s'.pcs|
    ensures if s.pcs[t].Idle? then IsArriving(s'.pcs[t]) else StepsLeft(s'.pcs[t]) < StepsLeft(s.pcs[t])
  {
  }

  lemma RunArrives(run: seq<State>, k: nat, v: nat)
    requires IsRun(Init, Next, run) && k + 1 < |run| && run[k].count >= 1
    requires v < |run[k].pcs| && IsArriving(run[k].pcs[v])
    ensures |run[k + 1].pcs| == |run[k].pcs|
    ensures IsArriving(run[k + 1].pcs[v]) || IsIn(run[k + 1].pcs[v], run[k].generation)
  {
    AlwaysInv(run, k);
    assert Next(run[k + 1 - 1], run[k + 1]);
    var t: nat :| Step(run[k], run[k + 1], t);
    WaitArrives(run[k], run[k + 1], t, v);
  }

  lemma RunReturns(run: seq<State>, k: nat, v: nat, g: int)
    requires IsRun(Init, Next, run) && k + 1 < |run| && run[k].count >= 1
    requires v < |run[k].pcs| && IsIn(run[k].pcs[v], g)
    ensures |run[k + 1].pcs| == |run[k].pcs|
    ensures IsIn(run[k + 1].pcs[v], g) ||
            (run[k + 1].pcs[v].Idle? && g < run[k + 1].generation && run[k + 1].returned == run[k].returned + [g])
  {
    AlwaysInv(run, k);
    assert Next(run[k + 1 - 1], run[k + 1]);
    var t: nat :| Step(run[k], run[k + 1], t);
    WaitReturns(run[k], run[k + 1], t, v, g);
  }

  lemma CountIsConstant(run: seq<State>, k: nat)
    requires IsRun(Init, Next, run) && k < |run|
    ensures run[k].count == run[0].count && |run[k].pcs| == |run[0].pcs|
  {
    Constancy(Init, Next, (s: State) => (s.count, |s.pcs|), run, k);
  }

  lemma GenerationsGrow(run: seq<State>, i: nat, j: nat)
    requires IsRun(Init, Next, run) && i <= j < |run|
    ensures run[i].generation <= run[j].generation
  {
    Persistence(Init, Next, (s: State) => run[i].generation <= s.generation, run, i, j);
  }

  predicate IsWaiting(s: State, v: nat) {
    v < |s.pcs| && IsArriving(s.pcs[v])
  }

  predicate IsBetween(s: State, v: nat, g: int) {
    v < |s.pcs| && IsIn(s.pcs[v], g)
  }

  lemma ArrivesBefore(run: seq<State>, i: nat, j: nat, v: nat) returns (k: nat)
    requires IsRun(Init, Next, run) && i <= j < |run| && run[0].count >= 1
    requires IsWaiting(run[i], v) && !IsWaiting(run[j], v)
    ensures i <= k < j && IsWaiting(run[k], v) && IsBetween(run[k + 1], v, run[k].generation)
  {
    k := LastBefore(run, (s: State) => IsWaiting(s, v), i, j);
    CountIsConstant(run, k);
    RunArrives(run, k, v);
  }

  lemma ReturnsBefore(run: seq<State>, i: nat, j: nat, v: nat, g: int) returns (k: nat)
    requires IsRun(Init, Next, run) && i <= j < |run| && run[0].count >= 1
    requires IsBetween(run[i], v, g) && !IsBetween(run[j], v, g)
    ensures i <= k < j && IsBetween(run[k], v, g) && v < |run[k + 1].pcs| && run[k + 1].pcs[v].Idle?
    ensures g < run[k + 1].generation && multiset(run[k + 1].arrived)[g] == run[0].count
  {
    k := LastBefore(run, (s: State) => IsBetween(s, v, g), i, j);
    CountIsConstant(run, k);
    RunReturns(run, k, v, g);
    CountIsConstant(run, k + 1);
    NoEarlyReturn(run, k + 1, g);
  }

  /**
   Nobody leaves early.  A thread that has called `wait` at `run[i]` and is out of it at `run[j]` has
   itself arrived in between, in a generation that was under way then or later; when it returned, after
   `run[l]`, that generation was over, and exactly `count` callers had arrived in it.
   */
  lemma NoEarlyLeave(run: seq<State>, i: nat, j: nat, v: nat) returns (k: nat, l: nat, g: int)
    requires IsRun(Init, Next, run) && i <= j < |run| && run[0].count >= 1
    requires IsWaiting(run[i], v) && v < |run[j].pcs| && run[j].pcs[v].Idle?
    ensures i <= k < l < j && run[i].generation <= g == run[k].generation
    ensures IsWaiting(run[k], v) && IsBetween(run[k + 1], v, g)
    ensures IsBetween(run[l], v, g) && v < |run[l + 1].pcs| && run[l + 1].pcs[v].Idle?
    ensures g < run[l + 1].generation && multiset(run[l + 1].arrived)[g] == run[0].count
  {
    k := ArrivesBefore(run, i, j, v);
    g := run[k].generation;
    GenerationsGrow(run, i, k);
    l := ReturnsBefore(run, k + 1, j, v, g);
  }

  /** Who leaves `wait` has arrived, and enters the list of those who have returned. */
  lemma LeavingReturns(s: State, s': State, t: nat, v: nat)
    requires Step(s, s', t) && v < |s.pcs| && !s.pcs[v].Idle?
    ensures |s'.pcs| == |s.pcs|
    ensures s'.pcs[v].Idle? ==> v == t && exists g :: IsIn(s.pcs[v], g) && s'.returned == s.returned + [g]
  {
    if s'.pcs[v].Idle? {
      assert v == t && Leaves(s, t) && IsIn(s.pcs[v], s.pcs[v].gen);
    }
  }

  lemma RunLeaves(run: seq<State>, k: nat, v: nat)
    requires IsRun(Init, Next, run) && k + 1 < |run| && v < |run[k].pcs| && !run[k].pcs[v].Idle?
    ensures |run[k + 1].pcs| == |run[k].pcs|
    ensures run[k + 1].pcs[v].Idle? ==> run[k + 1].returned != []
  {
    assert Next(run[k + 1 - 1], run[k + 1]);
    var t: nat :| Step(run[k], run[k + 1], t);
    LeavingReturns(run[k], run[k + 1], t, v);
  }

  predicate IsBusy(s: State, v: nat) {
    v < |s.pcs| && !s.pcs[v].Idle?
  }

  lemma NobodyReturns(run: seq<State>, k: nat)
    requires IsRun(Init, Next, run) && k < |run| && (run[0].count <= 0 || run[0].count > |run[0].pcs|)
    ensures run[k].returned == []
  {
    CountIsConstant(run, k);
    if run[0].count <= 0 {
      NotPositiveNeverReleases(run, k);
    } else {
      TooFewNeverRelease(run, k);
    }
  }

  /** With a count that is not positive, or above the number of threads, no call of `wait` ever ends. */
  lemma NobodyLeaves(run: seq<State>, i: nat, j: nat, v: nat)
    requires IsRun(Init, Next, run) && i <= j < |run| && (run[0].count <= 0 || run[0].count > |run[0].pcs|)
    requires IsBusy(run[i], v)
    ensures IsBusy(run[j], v)
  {
    if !IsBusy(run[j], v) {
      var k := LastBefore(run, (s: State) => IsBusy(s, v), i, j);
      RunLeaves(run, k, v);
      NobodyReturns(run, k + 1);
    }
  }
}
