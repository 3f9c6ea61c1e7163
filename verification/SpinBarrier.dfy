/**
 The spinning barrier over two atomics, with the client `work_thread` that logs its stage before
 it waits.  Every access to an atomic is a step of its own.  As in the program, the barrier's count
 is the number of threads, and every thread goes through all the stages; `SpinBarrierThreads` drops
 the first of the two.
 */
module SpinBarrier {
  import opened Counting
  import opened Runs

  /** The argument is the thread's local copy of the generation. */
  datatype Pc =
    | Work | Load | Subtract(gen: int) | StoreCount(gen: int) | StoreGeneration(gen: int) | Spin(gen: int) | Done

  datatype Thread = Thread(stage: int, pc: Pc)

  datatype State = State(
    stages: nat, count: int, notArrived: int, generation: int, threads: seq<Thread>, results: seq<int>)

  /** The top of the client's loop. */
  function Begin(stages: nat, stage: int): Thread {
    Thread(stage, if stage < stages then Work else Done)
  }

  function Go(s: State, t: nat, pc: Pc): State
    requires t < |s.threads|
  {
    s.(threads := s.threads[t := s.threads[t].(pc := pc)])
  }

  /** `wait` returns and the client goes on to its next stage. */
  function Leave(s: State, t: nat): State
    requires t < |s.threads|
  {
    s.(threads := s.threads[t := Begin(s.stages, s.threads[t].stage + 1)])
  }

  function After(s: State, t: nat): State
    requires t < |s.threads|
  {
    match s.threads[t].pc
    case Work => Go(s, t, Load).(results := s.results + [s.threads[t].stage])
    case Load => Go(s, t, Subtract(s.generation))
    case Subtract(gen) =>
      Go(s, t, if s.notArrived == 1 then StoreCount(gen) else Spin(gen)).(notArrived := s.notArrived - 1)
    case StoreCount(gen) => Go(s, t, StoreGeneration(gen)).(notArrived := s.count)
    case StoreGeneration(gen) => Leave(s, t).(generation := gen + 1)
    case Spin(gen) => if s.generation == gen then s else Leave(s, t)
    case Done => s
  }

  ghost predicate Step(s: State, s': State, t: nat) {
    t < |s.threads| && !s.threads[t].pc.Done? && s' == After(s, t)
  }

  ghost predicate Next(s: State, s': State) {
    exists t: nat :: Step(s, s', t)
  }

  /** A new barrier with any count, and any number of threads at their beginning. */
  ghost predicate Fresh(s: State) {
    && s.notArrived == s.count && s.generation == 0 && s.results == []
    && forall t :: 0 <= t < |s.threads| ==> s.threads[t] == Begin(s.stages, 0)
  }

  ghost predicate Init(s: State) {
    Fresh(s) && s.count == |s.threads| >= 1
  }

  // ----- The barrier and its client: one method call is one step of one thread -----

  class Barrier {
    const stages: nat
    const count: int
    var notArrived: int
    var generation: int
    var threads: seq<Thread>
    var results: seq<int>

    ghost function Snap(): State
      reads this
    {
      State(stages, count, notArrived, generation, threads, results)
    }

    constructor (count: nat, stages: nat)
      requires count >= 1
      ensures Init(Snap()) && Inv(Snap()) && this.count == count && this.stages == stages
    {
      this.count, this.stages := count, stages;
      notArrived, generation := count, 0;
      threads := seq(count, i => Begin(stages, 0));
      results := [];
      new;
      InitInv(Snap());
    }

    /** The work of a stage: the client appends the stage to the log. */
    method Log(t: nat)
      requires t < |threads| && threads[t].pc.Work?
      requires Inv(Snap())
      modifies this
      ensures Inv(Snap()) && Step(old(Snap()), Snap(), t)
    {
      results := results + [threads[t].stage];
      threads := threads[t := threads[t].(pc := Load)];
      StepKeepsInv(old(Snap()), Snap(), t);
    }

    method Wait(t: nat)
      requires t < |threads| && !threads[t].pc.Work? && !threads[t].pc.Done?
      requires Inv(Snap())
      modifies this
      ensures Inv(Snap()) && Step(old(Snap()), Snap(), t)
    {
      var thread := threads[t];
      match thread.pc {
        case Load =>
          threads := threads[t := thread.(pc := Subtract(generation))];
        case Subtract(gen) =>
          var before := notArrived;
          notArrived := notArrived - 1;
          threads := threads[t := thread.(pc := if before == 1 then StoreCount(gen) else Spin(gen))];
        case StoreCount(gen) =>
          notArrived := count;
          threads := threads[t := thread.(pc := StoreGeneration(gen))];
        case StoreGeneration(gen) =>
          generation := gen + 1;
          threads := threads[t := Begin(stages, thread.stage + 1)];
        case Spin(gen) =>
          if generation != gen {
            threads := threads[t := Begin(stages, thread.stage + 1)];
          }
      }
      StepKeepsInv(old(Snap()), Snap(), t);
    }
  }

  // ----- What every step keeps -----

  predicate IsStoring(thread: Thread) {
    thread.pc.StoreCount? || thread.pc.StoreGeneration?
  }

  predicate IsStoringGeneration(thread: Thread) {
    thread.pc.StoreGeneration?
  }

  /** The thread has arrived in generation `g` and not left it. */
  predicate HasArrived(thread: Thread, g: int) {
    IsStoring(thread) || thread.pc == Spin(g)
  }

  /** The thread has logged stage `g` and not left it. */
  predicate HasLogged(thread: Thread, g: int) {
    HasArrived(thread, g) || thread.pc.Load? || thread.pc.Subtract?
  }

  ghost function Arrived(g: int): Thread -> bool {
    thread => HasArrived(thread, g)
  }

  ghost function Logged(g: int): Thread -> bool {
    thread => HasLogged(thread, g)
  }

  /** A thread is in the stage of the current generation, or spins on the one before, now over. */
  ghost predicate LocalInv(s: State) {
    && 0 <= s.generation <= s.stages
    && forall t :: 0 <= t < |s.threads| ==>
         var thread := s.threads[t];
         && thread.stage <= s.stages
         && (thread.stage == s.stages <==> thread.pc.Done?)
         && (if thread.pc.Spin? then thread.stage == thread.pc.gen else thread.stage == s.generation)
         && match thread.pc
            case Subtract(gen) => gen == s.generation
            case StoreCount(gen) => gen == s.generation
            case StoreGeneration(gen) => gen == s.generation
            case Spin(gen) => gen == s.generation || gen == s.generation - 1
            case _ => true
  }

  ghost predicate CountInv(s: State) {
    && s.count == |s.threads| >= 1
    && Count(s.threads, IsStoring) <= 1
    && (Count(s.threads, IsStoring) == 1 <==> Count(s.threads, Arrived(s.generation)) == s.count)
    && s.notArrived ==
       if Count(s.threads, IsStoringGeneration) > 0 then s.count
       else s.count - Count(s.threads, Arrived(s.generation))
  }

  /** The log of `g` complete stages of `n` threads. */
  function Expected(n: nat, g: nat): seq<int> {
    if g == 0 then [] else Expected(n, g - 1) + seq(n, i => g - 1)
  }

  ghost predicate LogInv(s: State) {
    && s.generation >= 0
    && s.results == Expected(|s.threads|, s.generation)
                    + seq(Count(s.threads, Logged(s.generation)), i => s.generation)
  }

  ghost predicate Inv(s: State) {
    LocalInv(s) && CountInv(s) && LogInv(s)
  }

  lemma InitInv(s: State)
    requires Init(s)
    ensures Inv(s)
  {
    CountNone(s.threads, IsStoring);
    CountNone(s.threads, IsStoringGeneration);
    CountNone(s.threads, Arrived(0));
    CountNone(s.threads, Logged(0));
  }

  /** The thread that stores is alone, and everyone else spins. */
  lemma StoringIsLast(s: State, t: nat)
    requires CountInv(s) && t < |s.threads| && IsStoring(s.threads[t])
    ensures Count(s.threads, IsStoring) == 1
    ensures forall u: nat :: u < |s.threads| && u != t ==> s.threads[u].pc == Spin(s.generation)
  {
    CountNone(s.threads, IsStoring);
    CountAll(s.threads, Arrived(s.generation));
    forall u: nat | u < |s.threads| && u != t
      ensures s.threads[u].pc == Spin(s.generation)
    {
      assert Arrived(s.generation)(s.threads[u]);
      if IsStoring(s.threads[u]) {
        CountOne(s.threads, IsStoring, t, u);
      }
    }
  }

  lemma StepKeepsLocal(s: State, s': State, t: nat)
    requires LocalInv(s) && CountInv(s) && Step(s, s', t)
    ensures LocalInv(s')
  {
    if IsStoring(s.threads[t]) {
      StoringIsLast(s, t);
    }
  }

  lemma StepKeepsCount(s: State, s': State, t: nat)
    requires LocalInv(s) && CountInv(s) && Step(s, s', t) && !s.threads[t].pc.StoreGeneration?
    ensures CountInv(s')
  {
    if s' != s {
      var g := s.generation;
      CountUpdate(s.threads, IsStoring, t, s'.threads[t]);
      CountUpdate(s.threads, IsStoringGeneration, t, s'.threads[t]);
      CountUpdate(s.threads, Arrived(g), t, s'.threads[t]);
      CountAll(s.threads, Arrived(g));
      CountNone(s.threads, IsStoringGeneration);
      CountNone(s.threads, IsStoring);
      if IsStoring(s.threads[t]) {
        StoringIsLast(s, t);
      }
    }
  }

  lemma ReleaseKeepsCount(s: State, s': State, t: nat)
    requires LocalInv(s) && CountInv(s) && Step(s, s', t) && s.threads[t].pc.StoreGeneration?
    ensures CountInv(s')
  {
    StoringIsLast(s, t);
    CountNone(s.threads, IsStoringGeneration);
    CountNone(s'.threads, IsStoring);
    CountNone(s'.threads, IsStoringGeneration);
    CountNone(s'.threads, Arrived(s'.generation));
  }

  lemma StepKeepsLog(s: State, s': State, t: nat)
    requires LocalInv(s) && CountInv(s) && LogInv(s) && Step(s, s', t)
    ensures LogInv(s')
  {
    var g := s.generation;
    if s.threads[t].pc.StoreGeneration? {
      StoringIsLast(s, t);
      CountAll(s.threads, Logged(g));
      CountNone(s'.threads, Logged(g + 1));
      assert s'.results == Expected(|s.threads|, g + 1);
    } else if s' != s {
      CountUpdate(s.threads, Logged(g), t, s'.threads[t]);
    }
  }

  lemma StepKeepsInv(s: State, s': State, t: nat)
    requires Inv(s) && Step(s, s', t)
    ensures Inv(s')
  {
    StepKeepsLocal(s, s', t);
    StepKeepsLog(s, s', t);
    if s.threads[t].pc.StoreGeneration? {
      ReleaseKeepsCount(s, s', t);
    } else {
      StepKeepsCount(s, s', t);
    }
  }

  lemma AlwaysInv(run: seq<State>, k: nat)
    requires IsRun(Init, Next, run) && k < |run|
    ensures Inv(run[k])
  {
    forall s | Init(s)
      ensures Inv(s)
    {
      InitInv(s);
    }
    forall s, s' | Inv(s) && Next(s, s')
      ensures Inv(s')
    {
      var t: nat :| Step(s, s', t);
      StepKeepsInv(s, s', t);
    }
    Invariance(Init, Next, Inv, run, k);
  }

  // ----- The theorems -----

  /**
   Threads are at most one stage apart, and one that is behind has arrived there already: nobody
   leaves a stage before everyone has arrived in it.
   */
  lemma Lockstep(run: seq<State>, k: nat, t: nat, u: nat)
    requires IsRun(Init, Next, run) && k < |run|
    requires t < |run[k].threads| && u < |run[k].threads|
    requires run[k].threads[u].stage < run[k].threads[t].stage
    ensures run[k].threads[t].stage == run[k].threads[u].stage + 1
    ensures run[k].threads[u].pc == Spin(run[k].threads[u].stage)
    ensures run[k].generation == run[k].threads[t].stage
  {
    AlwaysInv(run, k);
  }

  /** The generation that the last to arrive has loaded is still the current one when it stores. */
  lemma LoadedGenerationIsCurrent(run: seq<State>, k: nat, t: nat)
    requires IsRun(Init, Next, run) && k < |run| && t < |run[k].threads|
    requires IsStoring(run[k].threads[t])
    ensures run[k].threads[t].pc.gen == run[k].generation < run[k].stages
    ensures forall u: nat :: u < |run[k].threads| && u != t ==> run[k].threads[u].pc == Spin(run[k].generation)
  {
    AlwaysInv(run, k);
    StoringIsLast(run[k], t);
  }

  ghost predicate Sorted(a: seq<int>) {
    forall i, j :: 0 <= i < j < |a| ==> a[i] <= a[j]
  }

  lemma {:induction false} ExpectedIsSorted(n: nat, g: nat)
    ensures Sorted(Expected(n, g))
    ensures forall i :: 0 <= i < |Expected(n, g)| ==> Expected(n, g)[i] < g
  {
    if g == 0 {
    } else {
      ExpectedIsSorted(n, g - 1);
    }
  }

  /** The client's log is sorted by stage at every point of every run. */
  lemma LogIsSorted(run: seq<State>, k: nat)
    requires IsRun(Init, Next, run) && k < |run|
    ensures Sorted(run[k].results)
  {
    AlwaysInv(run, k);
    ExpectedIsSorted(|run[k].threads|, run[k].generation);
  }

  ghost predicate AllDone(s: State) {
    forall t :: 0 <= t < |s.threads| ==> s.threads[t].pc.Done?
  }

  /** What the client asserts at its end: each stage once for each thread, in order. */
  lemma FinalLogIsExpected(run: seq<State>, k: nat)
    requires IsRun(Init, Next, run) && k < |run| && AllDone(run[k])
    ensures run[k].results == Expected(|run[k].threads|, run[k].stages)
  {
    AlwaysInv(run, k);
    assert run[k].threads[0].pc.Done?;
    CountNone(run[k].threads, Logged(run[k].generation));
  }

  /** Until all are done, some thread does not merely spin: its next step changes the state. */
  lemma Progress(run: seq<State>, k: nat) returns (t: nat, s': State)
    requires IsRun(Init, Next, run) && k < |run| && !AllDone(run[k])
    ensures Step(run[k], s', t) && s' != run[k]
  {
    AlwaysInv(run, k);
    var s := run[k];
    var busy :| 0 <= busy < |s.threads| && !s.threads[busy].pc.Done?;
    if u: nat :| u < |s.threads| && !s.threads[u].pc.Done? && s.threads[u].pc != Spin(s.generation) {
      t := u;
      s' := After(s, t);
    } else {
      assert forall u: nat :: u < |s.threads| && !s.threads[u].pc.Done? ==> s.threads[u].pc == Spin(s.generation);
      CountAll(s.threads, Arrived(s.generation));
      CountNone(s.threads, IsStoring);
      assert false;
    }
  }

  // ----- What a thread has done when it leaves a call -----

  /** A thread is in a stage until it has logged it, and then in `wait` until the generation of its stage is over. */
  lemma WaitEndsGeneration(s: State, s': State, t: nat, v: nat)
    requires LocalInv(s) && Step(s, s', t) && v < |s.threads| && !s.threads[v].pc.Done?
    ensures |s'.threads| == |s.threads|
    ensures s.threads[v].pc.Work? ==>
              || s'.threads[v] == s.threads[v]
              || (v == t && s'.threads[v] == Thread(s.threads[v].stage, Load)
                  && s'.results == s.results + [s.threads[v].stage])
    ensures !s.threads[v].pc.Work? ==>
              || (s'.threads[v].stage == s.threads[v].stage && !s'.threads[v].pc.Work? && !s'.threads[v].pc.Done?)
              || (v == t && s'.threads[v] == Begin(s.stages, s.threads[v].stage + 1)
                  && s'.generation == s.threads[v].stage + 1 && s'.results == s.results)
  {
  }

  // ----- Steps that change the state run out -----

  function Rank(pc: Pc): nat {
    match pc
    case Work => 5
    case Load => 4
    case Subtract(_) => 3
    case StoreCount(_) => 2
    case StoreGeneration(_) => 1
    case Spin(_) => 1
    case Done => 0
  }

  /** At most so many steps of the thread change the state. */
  function Left(stages: nat, thread: Thread): int {
    6 * (stages - thread.stage) + Rank(thread.pc)
  }

  function Measure(stages: nat, threads: seq<Thread>): int {
    if threads == [] then 0
    else Measure(stages, threads[..|threads| - 1]) + Left(stages, threads[|threads| - 1])
  }

  lemma {:induction false} MeasureUpdate(stages: nat, threads: seq<Thread>, t: nat, thread: Thread)
    requires t < |threads|
    ensures Measure(stages, threads[t := thread]) ==
            Measure(stages, threads) - Left(stages, threads[t]) + Left(stages, thread)
  {
    var n := |threads| - 1;
    if t == n {
      assert threads[t := thread][..n] == threads[..n];
    } else {
      assert threads[t := thread][..n] == threads[..n][t := thread];
      MeasureUpdate(stages, threads[..n], t, thread);
    }
  }

  lemma {:induction false} MeasureIsNatural(stages: nat, threads: seq<Thread>)
    requires forall t :: 0 <= t < |threads| ==> threads[t].stage <= stages
    ensures Measure(stages, threads) >= 0
  {
    if threads == [] {
    } else {
      MeasureIsNatural(stages, threads[..|threads| - 1]);
    }
  }

  /** Each step that changes the state lowers the measure; only a vain look at the generation does not. */
  lemma StepLowersMeasure(s: State, s': State, t: nat)
    requires Step(s, s', t)
    ensures s'.stages == s.stages && |s'.threads| == |s.threads|
    ensures s' == s || Measure(s'.stages, s'.threads) < Measure(s.stages, s.threads)
  {
    MeasureUpdate(s.stages, s.threads, t, s'.threads[t]);
    assert s' == s || s'.threads == s.threads[t := s'.threads[t]];
  }

  /** How many steps of the run change the state. */
  ghost function Changes(run: seq<State>): nat {
    if |run| < 2 then 0
    else Changes(run[..|run| - 1]) + if run[|run| - 1] == run[|run| - 2] then 0 else 1
  }

  lemma {:induction false} ChangesLowerMeasure(run: seq<State>)
    requires IsRun(Init, Next, run)
    ensures Changes(run) + Measure(run[|run| - 1].stages, run[|run| - 1].threads) <=
            Measure(run[0].stages, run[0].threads)
  {
    if |run| == 1 {
    } else {
      var n := |run| - 1;
      ChangesLowerMeasure(run[..n]);
      AlwaysInv(run, n - 1);
      var t: nat :| Step(run[n - 1], run[n], t);
      StepLowersMeasure(run[n - 1], run[n], t);
    }
  }

  lemma {:induction false} InitialMeasure(stages: nat, threads: seq<Thread>)
    requires forall t :: 0 <= t < |threads| ==> threads[t] == Begin(stages, 0)
    ensures Measure(stages, threads) <= |threads| * (6 * stages + 5)
  {
    if threads == [] {
    } else {
      InitialMeasure(stages, threads[..|threads| - 1]);
      assert |threads| * (6 * stages + 5) == (|threads| - 1) * (6 * stages + 5) + (6 * stages + 5);
    }
  }

  /**
   The client terminates: in no run do more steps change the state than this bound says, and by `Progress`
   one that does is left until all are done.
   */
  lemma ChangesRunOut(run: seq<State>)
    requires IsRun(Init, Next, run)
    ensures Changes(run) <= |run[0].threads| * (6 * run[0].stages + 5)
  {
    ChangesLowerMeasure(run);
    AlwaysInv(run, |run| - 1);
    MeasureIsNatural(run[|run| - 1].stages, run[|run| - 1].threads);
    InitialMeasure(run[0].stages, run[0].threads);
  }

  /** So every run goes on to one in which all threads are done. */
  lemma RunCanEnd(run: seq<State>) returns (longer: seq<State>)
    requires IsRun(Init, Next, run)
    ensures IsRun(Init, Next, longer) && run <= longer && AllDone(longer[|longer| - 1])
    decreases Measure(run[|run| - 1].stages, run[|run| - 1].threads)
  {
    var last := run[|run| - 1];
    if AllDone(last) {
      longer := run;
    } else {
      var t, s' := Progress(run, |run| - 1);
      AlwaysInv(run, |run| - 1);
      StepLowersMeasure(last, s', t);
      MeasureIsNatural(last.stages, last.threads);
      Extend(Init, Next, run, s');
      longer := RunCanEnd(run + [s']);
    }
  }
}
