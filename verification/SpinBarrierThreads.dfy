/**
 The spinning barrier with any count and any number of client threads: exactly when its client can always
 come to an end.  With fewer threads than the count nobody ever leaves; with more, the last to arrive may
 overwrite the arrival of another thread, or store a generation that is already current.
 */
module SpinBarrierThreads {
  import opened Counting
  import opened Runs
  import opened SpinBarrier

  ghost predicate CanEnd(run: seq<State>) {
    exists longer :: IsRun(Fresh, Next, longer) && run <= longer && AllDone(longer[|longer| - 1])
  }

  lemma OneStep(run: seq<State>, t: nat) returns (longer: seq<State>)
    requires IsRun(Fresh, Next, run)
    requires t < |run[|run| - 1].threads| && !run[|run| - 1].threads[t].pc.Done?
    ensures IsRun(Fresh, Next, longer) && longer == run + [After(run[|run| - 1], t)]
  {
    var s := run[|run| - 1];
    assert Step(s, After(s, t), t);
    Extend(Fresh, Next, run, After(s, t));
    longer := run + [After(s, t)];
  }

  // ----- States in which the client is stuck -----

  /** Someone is not done, and all who are not spin on the current generation. */
  ghost predicate Stuck(s: State) {
    && !AllDone(s)
    && forall t :: 0 <= t < |s.threads| ==> s.threads[t].pc.Done? || s.threads[t].pc == Spin(s.generation)
  }

  lemma StuckForever(run: seq<State>)
    requires IsRun(Fresh, Next, run) && Stuck(run[|run| - 1])
    ensures !CanEnd(run)
  {
    forall longer: seq<State> | IsRun(Fresh, Next, longer) && run <= longer
      ensures !AllDone(longer[|longer| - 1])
    {
      assert longer[|run| - 1] == run[|run| - 1];
      Persistence(Fresh, Next, Stuck, longer, |run| - 1, |longer| - 1);
    }
  }

  predicate IsSpinning(thread: Thread) {
    thread.pc.Spin?
  }

  /** Too few threads, or a count that is not positive: everyone stays in the first generation. */
  ghost predicate Held(s: State) {
    && s.stages > 0 && |s.threads| > 0 && s.generation == 0
    && (forall t :: 0 <= t < |s.threads| ==>
          var pc := s.threads[t].pc;
          s.threads[t].stage == 0 && (pc.Work? || pc.Load? || pc == Subtract(0) || pc == Spin(0)))
    && if s.count <= 0 then s.notArrived <= 0
       else |s.threads| < s.count && s.notArrived == s.count - Count(s.threads, IsSpinning)
  }

  lemma StepKeepsHeld(s: State, s': State, t: nat)
    requires Held(s) && Step(s, s', t)
    ensures Held(s')
  {
    CountAll(s.threads, IsSpinning);
    CountUpdate(s.threads, IsSpinning, t, s'.threads[t]);
    assert s' == s || s'.threads == s.threads[t := s'.threads[t]];
  }

  lemma TooFewNeverEnd(s: State)
    requires Fresh(s) && s.stages > 0 && |s.threads| > 0 && (s.count <= 0 || |s.threads| < s.count)
    ensures IsRun(Fresh, Next, [s]) && !CanEnd([s])
  {
    CountNone(s.threads, IsSpinning);
    forall a, b | Held(a) && Next(a, b)
      ensures Held(b)
    {
      var t: nat :| Step(a, b, t);
      StepKeepsHeld(a, b, t);
    }
    forall longer: seq<State> | IsRun(Fresh, Next, longer) && [s] <= longer
      ensures !AllDone(longer[|longer| - 1])
    {
      assert longer[0] == s;
      Persistence(Fresh, Next, Held, longer, 0, |longer| - 1);
      assert !longer[|longer| - 1].threads[0].pc.Done?;
    }
  }

  // ----- A round: enough threads pass one stage together -----

  /** The threads of `q` are at work, and there are enough of them to complete a generation. */
  ghost predicate Ready(s: State, q: seq<nat>) {
    && Distinct(q) && 1 <= s.count <= |q| && s.notArrived == s.count
    && forall i :: 0 <= i < |q| ==> q[i] < |s.threads| && s.threads[q[i]].pc.Work?
  }

  /** `now` differs from `s` in shared variables and in the threads of `q` at most. */
  ghost predicate Others(s: State, now: State, q: seq<nat>) {
    && now.stages == s.stages && now.count == s.count && |now.threads| == |s.threads|
    && forall t: nat :: t < |s.threads| && t !in q ==> now.threads[t] == s.threads[t]
  }

  /** The first `i` threads of `q` have arrived, the last that counts about to store. */
  ghost predicate ArrivedUpTo(s: State, now: State, q: seq<nat>, i: nat)
    requires Ready(s, q)
  {
    && Others(s, now, q) && now.generation == s.generation && now.notArrived == s.count - i
    && forall j :: 0 <= j < |q| ==>
         now.threads[q[j]] ==
         if j >= i then s.threads[q[j]]
         else Thread(s.threads[q[j]].stage, if j == s.count - 1 then StoreCount(s.generation) else Spin(s.generation))
  }

  lemma Arrive(run: seq<State>, t: nat) returns (longer: seq<State>)
    requires IsRun(Fresh, Next, run)
    requires t < |run[|run| - 1].threads| && run[|run| - 1].threads[t].pc.Work?
    ensures IsRun(Fresh, Next, longer) && run <= longer
    ensures var s, now := run[|run| - 1], longer[|longer| - 1];
            && now.stages == s.stages && now.count == s.count && now.generation == s.generation
            && now.notArrived == s.notArrived - 1
            && now.threads == s.threads[t := Thread(s.threads[t].stage,
                 if s.notArrived == 1 then StoreCount(s.generation) else Spin(s.generation))]
  {
    longer := OneStep(run, t);
    longer := OneStep(longer, t);
    longer := OneStep(longer, t);
  }

  lemma {:induction false} ArriveAll(run: seq<State>, q: seq<nat>, i: nat) returns (longer: seq<State>)
    requires IsRun(Fresh, Next, run) && Ready(run[|run| - 1], q) && i <= |q|
    ensures IsRun(Fresh, Next, longer) && run <= longer
    ensures ArrivedUpTo(run[|run| - 1], longer[|longer| - 1], q, i)
  {
    if i == 0 {
      longer := run;
    } else {
      longer := ArriveAll(run, q, i - 1);
      var before := longer[|longer| - 1];
      longer := Arrive(longer, q[i - 1]);
      ArrivedOneMore(run[|run| - 1], before, longer[|longer| - 1], q, i - 1);
    }
  }

  lemma ArrivedOneMore(s: State, before: State, now: State, q: seq<nat>, i: nat)
    requires Ready(s, q) && i < |q| && ArrivedUpTo(s, before, q, i)
    requires now.stages == s.stages && now.count == s.count && now.generation == s.generation
    requires now.notArrived == before.notArrived - 1
    requires now.threads == before.threads[q[i] := Thread(s.threads[q[i]].stage,
               if before.notArrived == 1 then StoreCount(s.generation) else Spin(s.generation))]
    ensures ArrivedUpTo(s, now, q, i + 1)
  {
    assert forall j :: 0 <= j < |q| && j != i ==> q[j] != q[i];
  }

  /** The generation is over, and the first `i` threads of `q` have left it, as has the one that ended it. */
  ghost predicate LeftUpTo(s: State, now: State, q: seq<nat>, i: nat)
    requires Ready(s, q)
  {
    && Others(s, now, q) && now.generation == s.generation + 1 && now.notArrived == s.count
    && forall j :: 0 <= j < |q| ==>
         now.threads[q[j]] ==
         if j < i || j == s.count - 1 then Begin(s.stages, s.threads[q[j]].stage + 1)
         else Thread(s.threads[q[j]].stage, Spin(s.generation))
  }

  /** The last to arrive stores the count, which overwrites later arrivals, and the next generation. */
  lemma EndGeneration(run: seq<State>, s: State, q: seq<nat>) returns (longer: seq<State>)
    requires IsRun(Fresh, Next, run) && Ready(s, q) && ArrivedUpTo(s, run[|run| - 1], q, |q|)
    ensures IsRun(Fresh, Next, longer) && run <= longer && LeftUpTo(s, longer[|longer| - 1], q, 0)
  {
    var t := q[s.count - 1];
    assert forall j :: 0 <= j < |q| && j != s.count - 1 ==> q[j] != t;
    longer := OneStep(run, t);
    longer := OneStep(longer, t);
    assert longer[|longer| - 1].threads == run[|run| - 1].threads[t := Begin(s.stages, s.threads[t].stage + 1)];
  }

  lemma {:induction false} LeaveAll(run: seq<State>, s: State, q: seq<nat>, i: nat) returns (longer: seq<State>)
    requires IsRun(Fresh, Next, run) && Ready(s, q) && LeftUpTo(s, run[|run| - 1], q, 0) && i <= |q|
    ensures IsRun(Fresh, Next, longer) && run <= longer && LeftUpTo(s, longer[|longer| - 1], q, i)
  {
    if i == 0 {
      longer := run;
    } else {
      longer := LeaveAll(run, s, q, i - 1);
      if i != s.count {
        var before := longer[|longer| - 1];
        longer := OneStep(longer, q[i - 1]);
        assert forall j :: 0 <= j < |q| && j != i - 1 ==> q[j] != q[i - 1];
        assert longer[|longer| - 1].threads ==
               before.threads[q[i - 1] := Begin(s.stages, s.threads[q[i - 1]].stage + 1)];
      }
    }
  }

  /** The threads of `q` are at the next stage, the generation is the next one, and all else is as it was. */
  ghost predicate Passed(s: State, now: State, q: seq<nat>) {
    && Others(s, now, q) && now.generation == s.generation + 1 && now.notArrived == s.count
    && forall t: nat :: t < |s.threads| && t in q ==> now.threads[t] == Begin(s.stages, s.threads[t].stage + 1)
  }

  lemma Round(run: seq<State>, q: seq<nat>) returns (longer: seq<State>)
    requires IsRun(Fresh, Next, run) && Ready(run[|run| - 1], q)
    ensures IsRun(Fresh, Next, longer) && run <= longer && Passed(run[|run| - 1], longer[|longer| - 1], q)
  {
    var s := run[|run| - 1];
    longer := ArriveAll(run, q, |q|);
    longer := EndGeneration(longer, s, q);
    longer := LeaveAll(longer, s, q, |q|);
  }

  // ----- More threads than the count, and the count not one: a thread is left behind -----

  /** All but the first are at stage `g`, and the first has not begun. */
  ghost predicate FirstBehind(s: State, g: nat) {
    && g <= s.stages && s.generation == g && s.notArrived == s.count && |s.threads| > 0
    && forall t :: 0 <= t < |s.threads| ==> s.threads[t] == Begin(s.stages, if t == 0 then 0 else g)
  }

  lemma {:induction false} LeaveFirstBehind(s: State, g: nat) returns (run: seq<State>)
    requires Fresh(s) && 1 <= s.count < |s.threads| && g <= s.stages
    ensures IsRun(Fresh, Next, run) && run[0] == s && FirstBehind(run[|run| - 1], g)
    ensures var now := run[|run| - 1];
            now.count == s.count && now.stages == s.stages && |now.threads| == |s.threads|
  {
    if g == 0 {
      run := [s];
    } else {
      run := LeaveFirstBehind(s, g - 1);
      var q: seq<nat> := seq(|s.threads| - 1, i => i + 1);
      forall t: nat | 0 < t < |s.threads|
        ensures t in q
      {
        assert q[t - 1] == t;
      }
      run := Round(run, q);
    }
  }

  lemma OneLeftBehind(s: State) returns (run: seq<State>)
    requires Fresh(s) && s.stages > 0 && 2 <= s.count < |s.threads|
    ensures IsRun(Fresh, Next, run) && run[0] == s && !CanEnd(run)
  {
    run := LeaveFirstBehind(s, s.stages);
    run := Arrive(run, 0);
    assert !run[|run| - 1].threads[0].pc.Done?;
    StuckForever(run);
  }

  // ----- A count of one: a stale generation is stored -----

  lemma {:induction false} Alone(run: seq<State>, t: nat, n: nat) returns (longer: seq<State>)
    requires IsRun(Fresh, Next, run)
    requires var s := run[|run| - 1];
             && s.count == s.notArrived == 1 && t < |s.threads|
             && s.threads[t] == Begin(s.stages, 0) && n <= s.stages
    ensures IsRun(Fresh, Next, longer) && run <= longer
    ensures var s, now := run[|run| - 1], longer[|longer| - 1];
            && now.count == now.notArrived == 1 && now.stages == s.stages
            && now.threads == s.threads[t := Begin(s.stages, n)]
  {
    if n == 0 {
      longer := run;
    } else {
      longer := Alone(run, t, n - 1);
      var before := longer[|longer| - 1];
      longer := Round(longer, [t]);
      assert longer[|longer| - 1].threads == before.threads[t := Begin(before.stages, n)];
    }
  }

  /** How far thread `t` goes alone at first, so that the first two and one stage of another are left. */
  function Target(stages: int, t: int): int {
    if t == 0 then stages - 1
    else if t == 1 then (if stages == 1 then 0 else stages - 2)
    else if t == 2 && stages == 1 then 0
    else stages
  }

  lemma {:induction false} Prepare(s: State, n: nat) returns (run: seq<State>)
    requires Fresh(s) && s.stages > 0 && s.count == 1 && n <= |s.threads|
    ensures IsRun(Fresh, Next, run) && run[0] == s
    ensures var now := run[|run| - 1];
            && now.count == now.notArrived == 1 && now.stages == s.stages && |now.threads| == |s.threads|
            && forall t :: 0 <= t < |s.threads| ==>
                 now.threads[t] == Begin(s.stages, if t < n then Target(s.stages, t) else 0)
  {
    if n == 0 {
      run := [s];
    } else {
      run := Prepare(s, n - 1);
      run := Alone(run, n - 1, Target(s.stages, n - 1));
    }
  }

  /** The first thread has loaded generation `g`, and since then another has completed it. */
  ghost predicate IsStale(s: State, g: int) {
    && s.count == s.notArrived == 1 && s.generation == g + 1 && |s.threads| >= 2
    && s.threads[0] == Thread(s.stages - 1, Subtract(g)) && s.threads[1] == Thread(s.stages - 1, Work)
    && forall t :: 2 <= t < |s.threads| ==> s.threads[t].pc.Done?
  }

  lemma BecomeStale(s: State) returns (run: seq<State>, g: int)
    requires Fresh(s) && s.stages > 0 && s.count == 1 && |s.threads| >= 2 && (s.stages > 1 || |s.threads| > 2)
    ensures IsRun(Fresh, Next, run) && run[0] == s && IsStale(run[|run| - 1], g)
  {
    run := Prepare(s, |s.threads|);
    g := run[|run| - 1].generation;
    run := OneStep(run, 0);
    run := OneStep(run, 0);
    run := Round(run, [if s.stages > 1 then 1 else 2]);
  }

  /** The first thread stores the generation that the second waits to see the end of. */
  lemma StaleIsStuck(before: seq<State>, g: int) returns (run: seq<State>)
    requires IsRun(Fresh, Next, before) && IsStale(before[|before| - 1], g)
    ensures IsRun(Fresh, Next, run) && before <= run && Stuck(run[|run| - 1])
  {
    run := OneStep(before, 1);
    run := OneStep(run, 1);
    run := OneStep(run, 0);
    run := OneStep(run, 1);
    run := OneStep(run, 0);
    run := OneStep(run, 0);
    assert !run[|run| - 1].threads[1].pc.Done?;
  }

  lemma StaleStore(s: State) returns (run: seq<State>)
    requires Fresh(s) && s.stages > 0 && s.count == 1 && |s.threads| >= 2 && (s.stages > 1 || |s.threads| > 2)
    ensures IsRun(Fresh, Next, run) && run[0] == s && !CanEnd(run)
  {
    var g;
    run, g := BecomeStale(s);
    run := StaleIsStuck(run, g);
    StuckForever(run);
  }

  // ----- Two threads, a count of one and one stage: that happens to end -----

  predicate NotArrived(thread: Thread) {
    thread.pc.Work? || thread.pc.Load? || thread.pc.Subtract?
  }

  /** What holds of a thread beside another one. */
  ghost predicate Beside(s: State, thread: Thread, other: Thread) {
    && (if thread.pc.Done? then thread.stage == 1 && s.generation >= 1 else thread.stage == 0)
    && (thread.pc.Subtract? ==> 0 <= thread.pc.gen <= s.generation)
    && (IsStoring(thread) ==> thread.pc.gen >= 0)
    && (thread.pc.Spin? ==> thread.pc.gen == 0 && (s.generation >= 1 || IsStoring(other)))
    && (NotArrived(thread) ==> !other.pc.Spin? && s.notArrived == if other.pc.StoreCount? then 0 else 1)
  }

  ghost predicate PairInv(s: State) {
    && s.stages == 1 && s.count == 1 && |s.threads| == 2 && s.generation >= 0
    && (!s.threads[0].pc.Done? && !s.threads[1].pc.Done? ==> s.generation == 0)
    && Beside(s, s.threads[0], s.threads[1]) && Beside(s, s.threads[1], s.threads[0])
  }

  lemma StepKeepsPair(s: State, s': State, t: nat)
    requires PairInv(s) && Step(s, s', t)
    ensures PairInv(s')
  {
    if t == 0 {
      assert s'.threads[1] == s.threads[1];
    } else {
      assert s'.threads[0] == s.threads[0];
    }
  }

  /** One of the two can always do something until both are done. */
  lemma PairProgress(s: State) returns (t: nat)
    requires PairInv(s) && !AllDone(s)
    ensures t < 2 && Step(s, After(s, t), t) && After(s, t) != s
  {
    t := if s.threads[0].pc.Done? || (s.threads[0].pc.Spin? && s.generation == 0) then 1 else 0;
    assert After(s, t).threads[t] != s.threads[t];
  }

  lemma PairCanEnd(run: seq<State>) returns (longer: seq<State>)
    requires IsRun(Fresh, Next, run) && PairInv(run[|run| - 1])
    ensures IsRun(Fresh, Next, longer) && run <= longer && AllDone(longer[|longer| - 1])
    decreases Measure(run[|run| - 1].stages, run[|run| - 1].threads)
  {
    var last := run[|run| - 1];
    if AllDone(last) {
      longer := run;
    } else {
      var t := PairProgress(last);
      StepKeepsPair(last, After(last, t), t);
      StepLowersMeasure(last, After(last, t), t);
      MeasureIsNatural(last.stages, last.threads);
      longer := OneStep(run, t);
      longer := PairCanEnd(longer);
    }
  }

  lemma PairEnds(run: seq<State>)
    requires IsRun(Fresh, Next, run) && run[0].stages == 1 && run[0].count == 1 && |run[0].threads| == 2
    ensures CanEnd(run)
  {
    forall s, s' | PairInv(s) && Next(s, s')
      ensures PairInv(s')
    {
      var t: nat :| Step(s, s', t);
      StepKeepsPair(s, s', t);
    }
    Persistence(Fresh, Next, PairInv, run, 0, |run| - 1);
    var longer := PairCanEnd(run);
  }

  // ----- The theorem -----

  lemma NothingToDo(run: seq<State>)
    requires IsRun(Fresh, Next, run) && (run[0].threads == [] || run[0].stages == 0)
    ensures CanEnd(run)
  {
    Persistence(Fresh, Next, AllDone, run, 0, |run| - 1);
  }

  lemma EqualEnds(run: seq<State>)
    requires IsRun(Fresh, Next, run) && Init(run[0])
    ensures CanEnd(run)
  {
    var longer := RunCanEnd(run);
    assert IsRun(Fresh, Next, longer);
  }

  /** What the count, the threads and the stages must be. */
  predicate AlwaysEnds(count: int, threads: nat, stages: nat) {
    threads == 0 || stages == 0 || count == threads || (count == 1 && threads == 2 && stages == 1)
  }

  lemma OtherwiseStuck(s: State) returns (run: seq<State>)
    requires Fresh(s) && !AlwaysEnds(s.count, |s.threads|, s.stages)
    ensures IsRun(Fresh, Next, run) && run[0] == s && !CanEnd(run)
  {
    if s.count <= 0 || |s.threads| < s.count {
      TooFewNeverEnd(s);
      run := [s];
    } else if s.count == 1 {
      run := StaleStore(s);
    } else {
      run := OneLeftBehind(s);
    }
  }

  /**
   Every run of the client can go on until all threads are done if, and only if, the barrier's count is the
   number of its threads, there is nothing to do, or two threads pass a barrier of one a single time.
   */
  lemma AlwaysEndsIff(s: State)
    requires Fresh(s)
    ensures (forall run :: IsRun(Fresh, Next, run) && run[0] == s ==> CanEnd(run)) <==>
            AlwaysEnds(s.count, |s.threads|, s.stages)
  {
    if AlwaysEnds(s.count, |s.threads|, s.stages) {
      forall run | IsRun(Fresh, Next, run) && run[0] == s
        ensures CanEnd(run)
      {
        if |s.threads| == 0 || s.stages == 0 {
          NothingToDo(run);
        } else if s.count == |s.threads| {
          EqualEnds(run);
        } else {
          PairEnds(run);
        }
      }
    } else {
      var run := OtherwiseStuck(s);
    }
  }
}
