/**
 The readers-writer lock `rwlock` over one mutex and one condition variable.

 Every access to a shared variable, every mutex acquisition and every notification is one
 step of one thread.  Blocking in `wait` releases the mutex and joins the wait set in one
 step, and a thread in the wait set may wake spuriously at any time, as section 30.5.1
 [thread.condition.condvar] of ISO/IEC 14882:2011 has it.  The release that ends a critical
 section is taken together with the last access of that section.
 */
module CvRwLock {
  import opened Counting
  import opened Runs
  import opened Wrappers

  datatype Pc =
    | Idle
      // lock()
    | WWant | WCheck | WDoze | WSleep | WWoken | WSet | WHold
      // unlock()
    | UWant | UClear | UNotify
      // lock_shared()
    | RWant | RCheck | RDoze | RSleep | RWoken | RInc | RHold
      // unlock_shared()
    | SWant | SDec | SNotify

  datatype State = State(readers: int, mutex: Option<nat>, pcs: seq<Pc>)

  predicate Asleep(pc: Pc) {
    pc.WSleep? || pc.RSleep?
  }

  /** The program points at which a thread waits for the mutex. */
  predicate Acquiring(pc: Pc) {
    pc.WWant? || pc.WWoken? || pc.UWant? || pc.RWant? || pc.RWoken? || pc.SWant?
  }

  /** The program points at which a thread has the mutex. */
  predicate Inside(pc: Pc) {
    pc.WCheck? || pc.WDoze? || pc.WSet? || pc.UClear? || pc.RCheck? || pc.RDoze? || pc.RInc? || pc.SDec?
  }

  function Wake(pc: Pc): Pc {
    match pc
    case WSleep => WWoken
    case RSleep => RWoken
    case _ => pc
  }

  function WakeAll(pcs: seq<Pc>): seq<Pc> {
    seq(|pcs|, i requires 0 <= i < |pcs| => Wake(pcs[i]))
  }

  function Go(s: State, t: nat, pc: Pc): State
    requires t < |s.pcs|
  {
    s.(pcs := s.pcs[t := pc])
  }

  function Acquire(s: State, t: nat, pc: Pc): State
    requires t < |s.pcs|
  {
    Go(s, t, pc).(mutex := Some(t))
  }

  function Release(s: State, t: nat, pc: Pc, readers: int): State
    requires t < |s.pcs|
  {
    Go(s, t, pc).(mutex := None, readers := readers)
  }

  /** Thread `t` takes one step; `u` is the sleeper that `notify_one` picks, if there is one. */
  ghost predicate Step(s: State, s': State, t: nat, u: nat) {
    && t < |s.pcs|
    && (Acquiring(s.pcs[t]) ==> s.mutex == None)
    && match s.pcs[t]
       case Idle => s' == Go(s, t, WWant) || s' == Go(s, t, RWant)
       case WWant => s' == Acquire(s, t, WCheck)
       case WCheck => s' == Go(s, t, if s.readers == 0 then WSet else WDoze)
       case WDoze => s' == Release(s, t, WSleep, s.readers)
       case WSleep => s' == Go(s, t, WWoken)
       case WWoken => s' == Acquire(s, t, WCheck)
       case WSet => s' == Release(s, t, WHold, -1)
       case WHold => s' == Go(s, t, UWant)
       case UWant => s' == Acquire(s, t, UClear)
       case UClear => s' == Release(s, t, UNotify, 0)
       case UNotify => s' == Go(s.(pcs := WakeAll(s.pcs)), t, Idle)
       case RWant => s' == Acquire(s, t, RCheck)
       case RCheck => s' == Go(s, t, if s.readers >= 0 then RInc else RDoze)
       case RDoze => s' == Release(s, t, RSleep, s.readers)
       case RSleep => s' == Go(s, t, RWoken)
       case RWoken => s' == Acquire(s, t, RCheck)
       case RInc => s' == Release(s, t, RHold, s.readers + 1)
       case RHold => s' == Go(s, t, SWant)
       case SWant => s' == Acquire(s, t, SDec)
       case SDec => s' == Release(s, t, if s.readers - 1 == 0 then SNotify else Idle, s.readers - 1)
       case SNotify =>
         if exists v :: 0 <= v < |s.pcs| && Asleep(s.pcs[v])
         then u < |s.pcs| && Asleep(s.pcs[u]) && s' == Go(Go(s, u, Wake(s.pcs[u])), t, Idle)
         else s' == Go(s, t, Idle)
  }

  ghost predicate StepBy(s: State, s': State, t: nat) {
    exists u: nat :: Step(s, s', t, u)
  }

  ghost predicate Next(s: State, s': State) {
    exists t: nat :: StepBy(s, s', t)
  }

  ghost predicate Init(s: State) {
    && s.readers == 0
    && s.mutex == None
    && forall t :: 0 <= t < |s.pcs| ==> s.pcs[t] == Idle
  }

  // ----- The lock itself: one method call is one step of the calling thread -----

  class RwLock {
    var readers: int
    var mutex: Option<nat>
    var pcs: seq<Pc>

    ghost function Snap(): State
      reads this
    {
      State(readers, mutex, pcs)
    }

    constructor (threads: nat)
      ensures Init(Snap()) && Inv(Snap()) && |pcs| == threads
    {
      readers := 0;
      mutex := None;
      pcs := seq(threads, i => Idle);
      new;
      InitInv(Snap());
    }

    method Lock(t: nat)
      requires t < |pcs| && (Acquiring(pcs[t]) ==> mutex == None)
      requires pcs[t].Idle? || pcs[t].WWant? || pcs[t].WCheck? || pcs[t].WDoze? || pcs[t].WWoken? || pcs[t].WSet?
      requires Inv(Snap())
      modifies this
      ensures Inv(Snap()) && Step(old(Snap()), Snap(), t, t)
      ensures old(pcs[t]).Idle? ==> pcs[t].WWant?
    {
      match pcs[t] {
        case Idle =>
          pcs := pcs[t := WWant];
        case WWant | WWoken =>
          mutex, pcs := Some(t), pcs[t := WCheck];
        case WCheck =>
          pcs := pcs[t := if readers == 0 then WSet else WDoze];
        case WDoze =>
          mutex, pcs := None, pcs[t := WSleep];
        case WSet =>
          readers := -1;
          mutex, pcs := None, pcs[t := WHold];
      }
      StepKeepsInv(old(Snap()), Snap(), t, t);
    }

    method Unlock(t: nat)
      requires t < |pcs| && (Acquiring(pcs[t]) ==> mutex == None)
      requires pcs[t].WHold? || pcs[t].UWant? || pcs[t].UClear? || pcs[t].UNotify?
      requires Inv(Snap())
      modifies this
      ensures Inv(Snap()) && Step(old(Snap()), Snap(), t, t)
    {
      match pcs[t] {
        case WHold =>
          pcs := pcs[t := UWant];
        case UWant =>
          mutex, pcs := Some(t), pcs[t := UClear];
        case UClear =>
          readers := 0;
          mutex, pcs := None, pcs[t := UNotify];
        case UNotify =>
          pcs := WakeAll(pcs);
          pcs := pcs[t := Idle];
      }
      StepKeepsInv(old(Snap()), Snap(), t, t);
    }

    method LockShared(t: nat)
      requires t < |pcs| && (Acquiring(pcs[t]) ==> mutex == None)
      requires pcs[t].Idle? || pcs[t].RWant? || pcs[t].RCheck? || pcs[t].RDoze? || pcs[t].RWoken? || pcs[t].RInc?
      requires Inv(Snap())
      modifies this
      ensures Inv(Snap()) && Step(old(Snap()), Snap(), t, t)
      ensures old(pcs[t]).Idle? ==> pcs[t].RWant?
    {
      match pcs[t] {
        case Idle =>
          pcs := pcs[t := RWant];
        case RWant | RWoken =>
          mutex, pcs := Some(t), pcs[t := RCheck];
        case RCheck =>
          pcs := pcs[t := if readers >= 0 then RInc else RDoze];
        case RDoze =>
          mutex, pcs := None, pcs[t := RSleep];
        case RInc =>
          readers := readers + 1;
          mutex, pcs := None, pcs[t := RHold];
      }
      StepKeepsInv(old(Snap()), Snap(), t, t);
    }

    method UnlockShared(t: nat)
      requires t < |pcs| && (Acquiring(pcs[t]) ==> mutex == None)
      requires pcs[t].RHold? || pcs[t].SWant? || pcs[t].SDec? || pcs[t].SNotify?
      requires Inv(Snap())
      modifies this
      ensures Inv(Snap()) && StepBy(old(Snap()), Snap(), t)
    {
      var u := t;
      match pcs[t] {
        case RHold =>
          pcs := pcs[t := SWant];
        case SWant =>
          mutex, pcs := Some(t), pcs[t := SDec];
        case SDec =>
          readers := readers - 1;
          var localCount := readers;
          mutex, pcs := None, pcs[t := if localCount == 0 then SNotify else Idle];
        case SNotify =>
          if v: nat :| v < |pcs| && Asleep(pcs[v]) {
            u := v;
            pcs := pcs[u := Wake(pcs[u])];
          }
          pcs := pcs[t := Idle];
      }
      assert Step(old(Snap()), Snap(), t, u);
      StepKeepsInv(old(Snap()), Snap(), t, u);
    }
  }

  // ----- What every step keeps -----

  predicate IsWriter(pc: Pc) {
    pc.WHold? || pc.UWant? || pc.UClear?
  }

  predicate IsReader(pc: Pc) {
    pc.RHold? || pc.SWant? || pc.SDec?
  }

  predicate IsSleepingWriter(pc: Pc) {
    pc.WSleep?
  }

  predicate IsSleepingReader(pc: Pc) {
    pc.RSleep?
  }

  /** A `notify_all` is still to come. */
  predicate IsPendingAll(pc: Pc) {
    pc.UNotify?
  }

  /** A notification is still to come, or a writer is about to look at `readers_` again. */
  predicate IsHelper(pc: Pc) {
    pc.UNotify? || pc.SNotify? || pc.WWoken? || pc.WCheck? || pc.WSet?
  }

  ghost predicate MutexInv(s: State) {
    && (forall t :: 0 <= t < |s.pcs| ==> (Inside(s.pcs[t]) <==> s.mutex == Some(t)))
    && (s.mutex.Some? ==> s.mutex.value < |s.pcs|)
  }

  /** `readers_` is exact: -1 for one writer and no reader, otherwise the number of readers. */
  ghost predicate CountInv(s: State) {
    || (s.readers == -1 && Count(s.pcs, IsWriter) == 1 && Count(s.pcs, IsReader) == 0)
    || (s.readers >= 0 && Count(s.pcs, IsWriter) == 0 && Count(s.pcs, IsReader) == s.readers)
  }

  /** What a thread inside the mutex has found out still holds. */
  ghost predicate CheckedInv(s: State) {
    forall t :: 0 <= t < |s.pcs| ==>
      match s.pcs[t]
      case WSet => s.readers == 0
      case WDoze => s.readers != 0
      case RInc => s.readers >= 0
      case RDoze => s.readers == -1
      case _ => true
  }

  /** No wakeup is lost. */
  ghost predicate WakeInv(s: State) {
    && (Count(s.pcs, IsSleepingReader) > 0 ==> s.readers == -1 || Count(s.pcs, IsPendingAll) > 0)
    && (Count(s.pcs, IsSleepingWriter) > 0 && s.readers == 0 ==> Count(s.pcs, IsHelper) > 0)
  }

  ghost predicate Inv(s: State) {
    MutexInv(s) && CountInv(s) && CheckedInv(s) && WakeInv(s)
  }

  lemma InitInv(s: State)
    requires Init(s)
    ensures Inv(s)
  {
    CountNone(s.pcs, IsWriter);
    CountNone(s.pcs, IsReader);
    CountNone(s.pcs, IsSleepingWriter);
    CountNone(s.pcs, IsSleepingReader);
  }

  lemma StepKeepsMutex(s: State, s': State, t: nat, u: nat)
    requires MutexInv(s) && Step(s, s', t, u) && !s.pcs[t].UNotify? && !s.pcs[t].SNotify?
    ensures MutexInv(s')
  {
  }

  lemma StepKeepsChecked(s: State, s': State, t: nat, u: nat)
    requires MutexInv(s) && CheckedInv(s) && CountInv(s)
    requires Step(s, s', t, u) && !s.pcs[t].UNotify? && !s.pcs[t].SNotify?
    ensures CheckedInv(s')
  {
  }

  lemma StepKeepsCount(s: State, s': State, t: nat, u: nat)
    requires CountInv(s) && CheckedInv(s) && Step(s, s', t, u) && !s.pcs[t].UNotify? && !s.pcs[t].SNotify?
    ensures CountInv(s')
  {
    OwnAccess(s, s', t, u);
    CountNone(s.pcs, IsWriter);
    CountUpdate(s.pcs, IsWriter, t, s'.pcs[t]);
    CountUpdate(s.pcs, IsReader, t, s'.pcs[t]);
  }

  /** What a step does to `readers_` and to the thread's own hold of the lock. */
  lemma OwnAccess(s: State, s': State, t: nat, u: nat)
    requires CheckedInv(s) && Step(s, s', t, u) && !s.pcs[t].UNotify? && !s.pcs[t].SNotify?
    ensures |s'.pcs| == |s.pcs| && s'.pcs == s.pcs[t := s'.pcs[t]]
    ensures s'.readers == if s.pcs[t].WSet? then -1 else if s.pcs[t].UClear? then 0
                          else s.readers + (if s.pcs[t].RInc? then 1 else 0) - if s.pcs[t].SDec? then 1 else 0
    ensures s.pcs[t].WSet? ==> s.readers == 0
    ensures s.pcs[t].RInc? ==> s.readers >= 0
    ensures IsWriter(s'.pcs[t]) <==> s.pcs[t].WSet? || (IsWriter(s.pcs[t]) && !s.pcs[t].UClear?)
    ensures IsReader(s'.pcs[t]) <==> s.pcs[t].RInc? || (IsReader(s.pcs[t]) && !s.pcs[t].SDec?)
  {
  }

  lemma StepKeepsReadersAwake(s: State, s': State, t: nat, u: nat)
    requires CountInv(s) && CheckedInv(s) && WakeInv(s)
    requires Step(s, s', t, u) && !s.pcs[t].UNotify? && !s.pcs[t].SNotify?
    ensures Count(s'.pcs, IsSleepingReader) > 0 ==> s'.readers == -1 || Count(s'.pcs, IsPendingAll) > 0
  {
    CountNone(s.pcs, IsReader);
    CountUpdate(s.pcs, IsSleepingReader, t, s'.pcs[t]);
    CountUpdate(s.pcs, IsPendingAll, t, s'.pcs[t]);
  }

  lemma StepKeepsWritersAwake(s: State, s': State, t: nat, u: nat)
    requires CountInv(s) && CheckedInv(s) && WakeInv(s)
    requires Step(s, s', t, u) && !s.pcs[t].UNotify? && !s.pcs[t].SNotify?
    ensures Count(s'.pcs, IsSleepingWriter) > 0 && s'.readers == 0 ==> Count(s'.pcs, IsHelper) > 0
  {
    CountNone(s.pcs, IsHelper);
    CountUpdate(s.pcs, IsSleepingWriter, t, s'.pcs[t]);
    CountUpdate(s.pcs, IsHelper, t, s'.pcs[t]);
  }

  /** A notification moves sleepers to waiting for the mutex, and changes nothing else. */
  ghost predicate OnlyWakes(s: State, s': State, t: nat) {
    && s'.readers == s.readers && s'.mutex == s.mutex
    && |s'.pcs| == |s.pcs|
    && t < |s.pcs| && s'.pcs[t].Idle?
    && forall i :: 0 <= i < |s.pcs| && i != t ==> s'.pcs[i] == s.pcs[i] || s'.pcs[i] == Wake(s.pcs[i])
  }

  lemma NotifyOnlyWakes(s: State, s': State, t: nat, u: nat)
    requires Step(s, s', t, u) && (s.pcs[t].UNotify? || s.pcs[t].SNotify?)
    ensures OnlyWakes(s, s', t)
  {
  }

  lemma WakingKeepsCounts(s: State, s': State, t: nat)
    requires OnlyWakes(s, s', t) && (s.pcs[t].UNotify? || s.pcs[t].SNotify?)
    requires MutexInv(s) && CheckedInv(s) && CountInv(s)
    ensures MutexInv(s') && CheckedInv(s') && CountInv(s')
  {
    CountSame(s.pcs, IsWriter, s'.pcs, IsWriter);
    CountSame(s.pcs, IsReader, s'.pcs, IsReader);
  }

  lemma NotifyAllKeepsWake(s: State, s': State, t: nat, u: nat)
    requires Inv(s) && Step(s, s', t, u) && s.pcs[t].UNotify?
    ensures WakeInv(s')
  {
    CountNone(s'.pcs, IsSleepingReader);
    CountNone(s'.pcs, IsSleepingWriter);
  }

  lemma NotifyOneKeepsReaders(s: State, s': State, t: nat, u: nat)
    requires Inv(s) && Step(s, s', t, u) && s.pcs[t].SNotify?
    ensures Count(s'.pcs, IsSleepingReader) > 0 ==> s'.readers == -1 || Count(s'.pcs, IsPendingAll) > 0
  {
    CountSame(s.pcs, IsPendingAll, s'.pcs, IsPendingAll);
    CountNone(s.pcs, IsSleepingReader);
    CountNone(s'.pcs, IsSleepingReader);
  }

  /** `notify_one` may pick a reader, but then the lock is taken or a `notify_all` is on its way. */
  lemma NotifyOneKeepsWriters(s: State, s': State, t: nat, u: nat)
    requires Inv(s) && Step(s, s', t, u) && s.pcs[t].SNotify?
    ensures Count(s'.pcs, IsSleepingWriter) > 0 && s'.readers == 0 ==> Count(s'.pcs, IsHelper) > 0
  {
    CountNone(s'.pcs, IsSleepingWriter);
    CountNone(s'.pcs, IsHelper);
    if w :| 0 <= w < |s'.pcs| && s'.pcs[w].WSleep? {
      assert s.pcs[w].WSleep? && Asleep(s.pcs[w]);
      assert Asleep(s.pcs[u]);
      if s.pcs[u].WSleep? {
        assert IsHelper(s'.pcs[u]);
      } else if s.readers == 0 {
        CountNone(s.pcs, IsSleepingReader);
        CountNone(s.pcs, IsPendingAll);
        var a :| 0 <= a < |s.pcs| && s.pcs[a].UNotify?;
        assert IsHelper(s'.pcs[a]);
      }
    }
  }

  lemma StepKeepsInv(s: State, s': State, t: nat, u: nat)
    requires Inv(s) && Step(s, s', t, u)
    ensures Inv(s')
  {
    if s.pcs[t].UNotify? {
      NotifyOnlyWakes(s, s', t, u);
      WakingKeepsCounts(s, s', t);
      NotifyAllKeepsWake(s, s', t, u);
    } else if s.pcs[t].SNotify? {
      NotifyOnlyWakes(s, s', t, u);
      WakingKeepsCounts(s, s', t);
      NotifyOneKeepsReaders(s, s', t, u);
      NotifyOneKeepsWriters(s, s', t, u);
    } else {
      StepKeepsMutex(s, s', t, u);
      StepKeepsChecked(s, s', t, u);
      StepKeepsCount(s, s', t, u);
      StepKeepsReadersAwake(s, s', t, u);
      StepKeepsWritersAwake(s, s', t, u);
    }
  }

  lemma AlwaysInv(run: seq<State>, k: nat)
    requires IsRun(Init, Next, run) && k < |run|
    ensures Inv(run[k])
  {
    forall s | Init(s)
      ensures Inv(s)
    {
      InitInv(s);
    }
    forall s, s' | Inv(s) && Next(s, s')
      ensures Inv(s')
    {
      var t: nat, u: nat :| Step(s, s', t, u);
      StepKeepsInv(s, s', t, u);
    }
    Invariance(Init, Next, Inv, run, k);
  }

  // ----- The theorems -----

  /** At no point of any run does a writer share the lock with anyone. */
  lemma Exclusion(run: seq<State>, k: nat, t: nat, u: nat)
    requires IsRun(Init, Next, run) && k < |run|
    requires t < |run[k].pcs| && u < |run[k].pcs| && t != u
    requires run[k].pcs[t].WHold?
    ensures !run[k].pcs[u].WHold? && !run[k].pcs[u].RHold?
  {
    AlwaysInv(run, k);
    var pcs := run[k].pcs;
    CountNone(pcs, IsWriter);
    CountNone(pcs, IsReader);
    if pcs[u].WHold? {
      CountOne(pcs, IsWriter, t, u);
    }
  }

  /** The thread can go on by itself: it is in a call, not asleep, and the mutex is not in its way. */
  predicate Enabled(s: State, t: nat)
    requires t < |s.pcs|
  {
    && !s.pcs[t].Idle? && !s.pcs[t].WHold? && !s.pcs[t].RHold?
    && !Asleep(s.pcs[t])
    && (Acquiring(s.pcs[t]) ==> s.mutex == None)
  }

  /** Every thread is outside a call, has the lock, or sleeps. */
  predicate AtRest(s: State) {
    forall t :: 0 <= t < |s.pcs| ==>
      s.pcs[t].Idle? || s.pcs[t].WHold? || s.pcs[t].RHold? || Asleep(s.pcs[t])
  }

  lemma NoneEnabled(s: State)
    requires MutexInv(s) && forall t: nat :: t < |s.pcs| ==> !Enabled(s, t)
    ensures AtRest(s)
  {
    assert forall t: nat :: t < |s.pcs| && Inside(s.pcs[t]) ==> Enabled(s, t);
    forall t | 0 <= t < |s.pcs|
      ensures s.pcs[t].Idle? || s.pcs[t].WHold? || s.pcs[t].RHold? || Asleep(s.pcs[t])
    {
      assert !Enabled(s, t);
    }
  }

  lemma RestingSleepers(s: State)
    requires CountInv(s) && WakeInv(s) && AtRest(s)
    ensures RSleep in s.pcs ==> WHold in s.pcs
    ensures WSleep in s.pcs ==> WHold in s.pcs || RHold in s.pcs
  {
    CountNone(s.pcs, IsSleepingReader);
    CountNone(s.pcs, IsSleepingWriter);
    CountNone(s.pcs, IsPendingAll);
    CountNone(s.pcs, IsHelper);
    CountNone(s.pcs, IsWriter);
    CountNone(s.pcs, IsReader);
  }

  /**
   No wakeup is lost and there is no deadlock.  Where no thread can go on without a new call, an
   unlock or a spurious wakeup, a sleeping reader waits for a thread that holds the lock for
   writing, and a sleeping writer for a thread that holds it.
   */
  lemma SleepersWaitForHolders(run: seq<State>, k: nat)
    requires IsRun(Init, Next, run) && k < |run|
    requires forall t: nat :: t < |run[k].pcs| ==> !Enabled(run[k], t)
    ensures var pcs := run[k].pcs;
            && (RSleep in pcs ==> WHold in pcs)
            && (WSleep in pcs ==> WHold in pcs || RHold in pcs)
            && (forall t :: 0 <= t < |pcs| ==> pcs[t].Idle? || pcs[t].WHold? || pcs[t].RHold? || Asleep(pcs[t]))
  {
    AlwaysInv(run, k);
    NoneEnabled(run[k]);
    RestingSleepers(run[k]);
  }

  // ----- What a thread has done when it leaves a call -----

  /** The program points of a thread in `lock`. */
  predicate InLock(pc: Pc) {
    pc.WWant? || pc.WCheck? || pc.WDoze? || pc.WSleep? || pc.WWoken? || pc.WSet?
  }

  /** The program points of a thread in `lock_shared`. */
  predicate InLockShared(pc: Pc) {
    pc.RWant? || pc.RCheck? || pc.RDoze? || pc.RSleep? || pc.RWoken? || pc.RInc?
  }

  /** `lock` is left only with the lock, which was free: the thread itself has set `readers_` to -1. */
  lemma LockTakes(s: State, s': State, t: nat, u: nat, v: nat)
    requires CheckedInv(s) && Step(s, s', t, u) && v < |s.pcs| && InLock(s.pcs[v])
    ensures |s'.pcs| == |s.pcs|
    ensures InLock(s'.pcs[v]) || (v == t && s'.pcs[v].WHold? && s.readers == 0 && s'.readers == -1)
  {
  }

  /** `lock_shared` is left only with the lock, which no writer had: the thread itself has counted itself. */
  lemma LockSharedTakes(s: State, s': State, t: nat, u: nat, v: nat)
    requires CheckedInv(s) && Step(s, s', t, u) && v < |s.pcs| && InLockShared(s.pcs[v])
    ensures |s'.pcs| == |s.pcs|
    ensures InLockShared(s'.pcs[v]) ||
            (v == t && s'.pcs[v].RHold? && s.readers >= 0 && s'.readers == s.readers + 1)
  {
  }

  /** A writer is rid of the lock only when it is free, and has woken everyone before `unlock` is over. */
  lemma UnlockGivesBack(s: State, s': State, t: nat, u: nat, v: nat)
    requires Step(s, s', t, u) && v < |s.pcs|
    ensures |s'.pcs| == |s.pcs|
    ensures IsWriter(s.pcs[v]) ==> IsWriter(s'.pcs[v]) || (v == t && s'.pcs[v].UNotify? && s'.readers == 0)
    ensures s.pcs[v].UNotify? ==>
              || s'.pcs[v].UNotify?
              || (v == t && s'.pcs[v].Idle?
                  && forall w :: 0 <= w < |s.pcs| && w != t ==> s'.pcs[w] == Wake(s.pcs[w]) && !Asleep(s'.pcs[w]))
  {
  }

  /** A reader is rid of the lock only when it is no longer counted; the last of them is to notify. */
  lemma UnlockSharedGivesBack(s: State, s': State, t: nat, u: nat, v: nat)
    requires Step(s, s', t, u) && v < |s.pcs| && IsReader(s.pcs[v])
    ensures |s'.pcs| == |s.pcs|
    ensures IsReader(s'.pcs[v]) ||
            (v == t && s'.readers == s.readers - 1 && s'.pcs[v] == if s'.readers == 0 then SNotify else Idle)
  {
  }

  /** The notification wakes a sleeper, if there is one. */
  lemma LastReaderWakes(s: State, s': State, t: nat, u: nat, v: nat)
    requires Step(s, s', t, u) && v < |s.pcs| && s.pcs[v].SNotify?
    ensures |s'.pcs| == |s.pcs|
    ensures || s'.pcs[v].SNotify?
            || (v == t && s'.pcs[v].Idle? && (OneWoken(s, s') || forall w :: 0 <= w < |s.pcs| ==> !Asleep(s.pcs[w])))
  {
    if v == t && exists w :: 0 <= w < |s.pcs| && Asleep(s.pcs[w]) {
      assert Asleep(s.pcs[u]) && s'.pcs[u] == Wake(s.pcs[u]);
    }
  }

  ghost predicate OneWoken(s: State, s': State)
    requires |s'.pcs| == |s.pcs|
  {
    exists w :: 0 <= w < |s.pcs| && Asleep(s.pcs[w]) && s'.pcs[w] == Wake(s.pcs[w])
  }

  /** Nothing else changes `readers_`, and a thread goes to sleep only on a lock that it cannot have. */
  lemma NothingElse(s: State, s': State, t: nat, u: nat, v: nat)
    requires CheckedInv(s) && Step(s, s', t, u) && v < |s.pcs|
    ensures |s'.pcs| == |s.pcs|
    ensures s'.readers != s.readers ==>
              || (InLock(s.pcs[t]) && s'.pcs[t].WHold?) || (InLockShared(s.pcs[t]) && s'.pcs[t].RHold?)
              || (IsWriter(s.pcs[t]) && !IsWriter(s'.pcs[t])) || (IsReader(s.pcs[t]) && !IsReader(s'.pcs[t]))
    ensures Asleep(s'.pcs[v]) && !Asleep(s.pcs[v]) ==>
              v == t && if InLock(s.pcs[v]) then s.readers != 0 else InLockShared(s.pcs[v]) && s.readers == -1
  {
  }

  /** Whoever sleeps may wake at any time, and is then where it would be after a notification. */
  lemma SpuriousWakeup(s: State, v: nat)
    requires v < |s.pcs| && Asleep(s.pcs[v])
    ensures StepBy(s, Go(s, v, Wake(s.pcs[v])), v) && !Asleep(Wake(s.pcs[v])) && Acquiring(Wake(s.pcs[v]))
  {
    assert Step(s, Go(s, v, Wake(s.pcs[v])), v, 0);
  }

  /** The notification may go to any sleeper. */
  lemma AnySleeperMayBeChosen(s: State, t: nat, w: nat)
    requires t < |s.pcs| && s.pcs[t].SNotify? && w < |s.pcs| && Asleep(s.pcs[w])
    ensures Step(s, Go(Go(s, w, Wake(s.pcs[w])), t, Idle), t, w)
  {
  }

  /** A thread outside a call may call, and one with the lock gives it back. */
  lemma CallsBegin(s: State, s': State, t: nat, u: nat)
    requires Step(s, s', t, u)
    ensures |s'.pcs| == |s.pcs|
    ensures s.pcs[t].Idle? ==> s'.pcs[t].WWant? || s'.pcs[t].RWant?
    ensures s.pcs[t].WHold? ==> s'.pcs[t].UWant?
    ensures s.pcs[t].RHold? ==> s'.pcs[t].SWant?
  {
  }

  /** How many steps of its own a thread in a call has left at most before the call is over or the thread sleeps. */
  function StepsLeft(pc: Pc): nat {
    match pc
    case WWant => 4
    case WWoken => 4
    case WCheck => 3
    case WDoze => 2
    case WSet => 2
    case UWant => 3
    case UClear => 2
    case UNotify => 1
    case RWant => 4
    case RWoken => 4
    case RCheck => 3
    case RDoze => 2
    case RInc => 2
    case SWant => 3
    case SDec => 2
    case SNotify => 1
    case _ => 0
  }

  /** No call goes round in circles. */
  lemma CallsAdvance(s: State, s': State, t: nat, u: nat)
    requires Step(s, s', t, u) && !s.pcs[t].Idle? && !s.pcs[t].WHold? && !s.pcs[t].RHold? && !Asleep(s.pcs[t])
    ensures t < |s'.pcs| && StepsLeft(s'.pcs[t]) < StepsLeft(s.pcs[t])
  {
  }

  lemma NextTakes(s: State, s': State, v: nat)
    requires CheckedInv(s) && Next(s, s') && v < |s.pcs|
    ensures |s'.pcs| == |s.pcs|
    ensures InLock(s.pcs[v]) && !InLock(s'.pcs[v]) ==> s'.pcs[v].WHold? && s.readers == 0 && s'.readers == -1
    ensures InLockShared(s.pcs[v]) && !InLockShared(s'.pcs[v]) ==>
              s'.pcs[v].RHold? && s.readers >= 0 && s'.readers == s.readers + 1
  {
    var t: nat, u: nat :| Step(s, s', t, u);
    if InLock(s.pcs[v]) {
      LockTakes(s, s', t, u, v);
    }
    if InLockShared(s.pcs[v]) {
      LockSharedTakes(s, s', t, u, v);
    }
  }

  lemma RunTakes(run: seq<State>, k: nat, v: nat)
    requires IsRun(Init, Next, run) && k + 1 < |run| && v < |run[k].pcs|
    ensures |run[k + 1].pcs| == |run[k].pcs|
    ensures InLock(run[k].pcs[v]) && !InLock(run[k + 1].pcs[v]) ==>
              run[k + 1].pcs[v].WHold? && run[k].readers == 0 && run[k + 1].readers == -1
    ensures InLockShared(run[k].pcs[v]) && !InLockShared(run[k + 1].pcs[v]) ==>
              run[k + 1].pcs[v].RHold? && run[k].readers >= 0 && run[k + 1].readers == run[k].readers + 1
  {
    AlwaysInv(run, k);
    assert Next(run[k + 1 - 1], run[k + 1]);
    NextTakes(run[k], run[k + 1], v);
  }

  predicate IsLockingShared(s: State, v: nat) {
    v < |s.pcs| && InLockShared(s.pcs[v])
  }

  /** So whoever is out of `lock_shared` again had the lock, and was counted in the very step that gave it. */
  lemma LockSharedHadTheLock(run: seq<State>, i: nat, j: nat, v: nat) returns (k: nat)
    requires IsRun(Init, Next, run) && i <= j < |run| && v < |run[i].pcs| && v < |run[j].pcs|
    requires InLockShared(run[i].pcs[v]) && !InLockShared(run[j].pcs[v])
    ensures i <= k < j && v < |run[k + 1].pcs| && run[k + 1].pcs[v].RHold?
    ensures run[k].readers >= 0 && run[k + 1].readers == run[k].readers + 1
  {
    k := LastBefore(run, (s: State) => IsLockingShared(s, v), i, j);
    RunTakes(run, k, v);
  }

  predicate IsLocking(s: State, v: nat) {
    v < |s.pcs| && InLock(s.pcs[v])
  }

  /** And whoever is out of `lock` again had the lock, alone. */
  lemma LockHadTheLock(run: seq<State>, i: nat, j: nat, v: nat) returns (k: nat)
    requires IsRun(Init, Next, run) && i <= j < |run| && v < |run[i].pcs| && v < |run[j].pcs|
    requires InLock(run[i].pcs[v]) && !InLock(run[j].pcs[v])
    ensures i <= k < j && v < |run[k + 1].pcs| && run[k + 1].pcs[v].WHold?
    ensures run[k].readers == 0 && run[k + 1].readers == -1
  {
    k := LastBefore(run, (s: State) => IsLocking(s, v), i, j);
    RunTakes(run, k, v);
  }

  // ----- Writers may starve -----

  ghost predicate Waits(run: seq<State>, k: nat) {
    forall i :: k <= i < |run| ==> |run[i].pcs| >= 2 && InLock(run[i].pcs[0])
  }

  /** The step with which a reader gets the lock. */
  ghost predicate Takes(s: State, s': State) {
    |s.pcs| == |s'.pcs| && exists t :: 0 <= t < |s.pcs| && s.pcs[t].RInc? && s'.pcs[t].RHold?
  }

  /** The step with which a reader gives the lock back. */
  ghost predicate GivesBack(s: State, s': State) {
    |s.pcs| == |s'.pcs| && exists t :: 0 <= t < |s.pcs| && s.pcs[t].SDec? && (s'.pcs[t].SNotify? || s'.pcs[t].Idle?)
  }

  /** The step in which the writer finds the lock taken. */
  ghost predicate LooksInVain(s: State, s': State) {
    |s.pcs| > 0 && |s'.pcs| > 0 && s.pcs[0].WCheck? && s'.pcs[0].WDoze?
  }

  /** How many steps of the run from `run[k]` on satisfy `p`. */
  ghost function Steps(run: seq<State>, k: nat, p: (State, State) -> bool): nat {
    if |run| < k + 2 then 0
    else Steps(run[..|run| - 1], k, p) + if p(run[|run| - 2], run[|run| - 1]) then 1 else 0
  }

  lemma StepsOneMore(run: seq<State>, k: nat, s: State, p: (State, State) -> bool)
    requires k < |run|
    ensures Steps(run + [s], k, p) == Steps(run, k, p) + if p(run[|run| - 1], s) then 1 else 0
  {
    assert (run + [s])[..|run|] == run;
  }

  /**
   Since `run[k]` the writer has waited, while readers took the lock `takes` times and gave it back `gives`
   times, and the writer looked at it `looks` times, at least.
   */
  ghost predicate Starved(run: seq<State>, k: nat, takes: nat, gives: nat, looks: nat) {
    && IsRun(Init, Next, run) && k < |run| && Waits(run, k)
    && Steps(run, k, Takes) >= takes && Steps(run, k, GivesBack) >= gives && Steps(run, k, LooksInVain) >= looks
  }

  /** A step in which the writer goes on waiting. */
  ghost predicate WaitingStep(s: State, s': State) {
    Next(s, s') && |s'.pcs| >= 2 && InLock(s'.pcs[0])
  }

  lemma OneMore(run: seq<State>, k: nat, takes: nat, gives: nat, looks: nat, s: State) returns (longer: seq<State>)
    requires Starved(run, k, takes, gives, looks) && WaitingStep(run[|run| - 1], s)
    ensures longer == run + [s] && Starved(longer, k, takes, gives, looks)
    ensures Takes(run[|run| - 1], s) ==> Starved(longer, k, takes + 1, gives, looks)
    ensures GivesBack(run[|run| - 1], s) ==> Starved(longer, k, takes, gives + 1, looks)
    ensures LooksInVain(run[|run| - 1], s) ==> Starved(longer, k, takes, gives, looks + 1)
  {
    Extend(Init, Next, run, s);
    StepsOneMore(run, k, s, Takes);
    StepsOneMore(run, k, s, GivesBack);
    StepsOneMore(run, k, s, LooksInVain);
    longer := run + [s];
  }

  lemma ThreeMore(run: seq<State>, k: nat, takes: nat, gives: nat, looks: nat, a: State, b: State, c: State)
    returns (longer: seq<State>)
    requires Starved(run, k, takes, gives, looks)
    requires WaitingStep(run[|run| - 1], a) && WaitingStep(a, b) && WaitingStep(b, c)
    ensures longer == run + [a, b, c] && Starved(longer, k, takes, gives, looks)
    ensures Takes(b, c) ==> Starved(longer, k, takes + 1, gives, looks)
    ensures GivesBack(b, c) ==> Starved(longer, k, takes, gives + 1, looks)
    ensures LooksInVain(b, c) ==> Starved(longer, k, takes, gives, looks + 1)
  {
    longer := OneMore(run, k, takes, gives, looks, a);
    longer := OneMore(longer, k, takes, gives, looks, b);
    longer := OneMore(longer, k, takes, gives, looks, c);
  }

  /** The writer is at `writer`, one reader at `reader`, and nobody else is in a call. */
  ghost predicate Duel(s: State, writer: Pc, reader: Pc, readers: int, mutex: Option<nat>) {
    && |s.pcs| >= 2 && s.pcs[0] == writer && s.pcs[1] == reader && s.readers == readers && s.mutex == mutex
    && forall t :: 2 <= t < |s.pcs| ==> s.pcs[t] == Idle
  }

  lemma MoveInDuel(s: State, s': State, t: nat)
    requires Step(s, s', t, 0) && |s'.pcs| >= 2 && InLock(s'.pcs[0])
    ensures WaitingStep(s, s')
  {
    assert StepBy(s, s', t);
  }

  /** The reader gives the lock back. */
  lemma ReaderUnlocks(s: State) returns (a: State, b: State, c: State)
    requires Duel(s, WSleep, RHold, 1, None)
    ensures WaitingStep(s, a) && WaitingStep(a, b) && WaitingStep(b, c) && GivesBack(b, c)
    ensures Duel(c, WSleep, SNotify, 0, None)
  {
    a := Go(s, 1, SWant);
    MoveInDuel(s, a, 1);
    b := Acquire(a, 1, SDec);
    MoveInDuel(a, b, 1);
    c := Release(b, 1, SNotify, 0);
    MoveInDuel(b, c, 1);
    assert b.pcs[1].SDec? && c.pcs[1].SNotify?;
  }

  /** It notifies the writer, calls `lock_shared` again and has the mutex first. */
  lemma ReaderNotifies(s: State) returns (a: State, b: State, c: State)
    requires Duel(s, WSleep, SNotify, 0, None)
    ensures WaitingStep(s, a) && WaitingStep(a, b) && WaitingStep(b, c)
    ensures Duel(c, WWoken, RCheck, 0, Some(1))
  {
    assert Asleep(s.pcs[0]);
    a := Go(Go(s, 0, WWoken), 1, Idle);
    MoveInDuel(s, a, 1);
    b := Go(a, 1, RWant);
    MoveInDuel(a, b, 1);
    c := Acquire(b, 1, RCheck);
    MoveInDuel(b, c, 1);
  }

  /** So the reader has the lock again when the writer comes to have the mutex, */
  lemma ReaderReturns(s: State) returns (a: State, b: State, c: State)
    requires Duel(s, WWoken, RCheck, 0, Some(1))
    ensures WaitingStep(s, a) && WaitingStep(a, b) && WaitingStep(b, c) && Takes(a, b)
    ensures Duel(c, WCheck, RHold, 1, Some(0))
  {
    a := Go(s, 1, RInc);
    MoveInDuel(s, a, 1);
    b := Release(a, 1, RHold, 1);
    MoveInDuel(a, b, 1);
    assert a.pcs[1].RInc? && b.pcs[1].RHold?;
    c := Acquire(b, 0, WCheck);
    MoveInDuel(b, c, 0);
  }

  /** which looks in vain and goes back to sleep. */
  lemma WriterLooks(s: State) returns (a: State, b: State)
    requires Duel(s, WCheck, RHold, 1, Some(0))
    ensures WaitingStep(s, a) && WaitingStep(a, b) && LooksInVain(s, a)
    ensures Duel(b, WSleep, RHold, 1, None)
  {
    a := Go(s, 0, WDoze);
    MoveInDuel(s, a, 0);
    b := Release(a, 0, WSleep, 1);
    MoveInDuel(a, b, 0);
  }

  /** One lap: the reader gives the lock back and gets it again, and the writer looks in vain. */
  lemma StarveOnce(run: seq<State>, k: nat, n: nat) returns (longer: seq<State>)
    requires Starved(run, k, n, n, n) && Duel(run[|run| - 1], WSleep, RHold, 1, None)
    ensures Starved(longer, k, n + 1, n + 1, n + 1) && Duel(longer[|longer| - 1], WSleep, RHold, 1, None)
    ensures longer[0] == run[0]
  {
    longer := FirstHalf(run, k, n);
    longer := SecondHalf(longer, k, n);
  }

  lemma FirstHalf(run: seq<State>, k: nat, n: nat) returns (longer: seq<State>)
    requires Starved(run, k, n, n, n) && Duel(run[|run| - 1], WSleep, RHold, 1, None)
    ensures Starved(longer, k, n, n + 1, n) && Duel(longer[|longer| - 1], WWoken, RCheck, 0, Some(1))
    ensures longer[0] == run[0]
  {
    var a, b, c := ReaderUnlocks(run[|run| - 1]);
    longer := ThreeMore(run, k, n, n, n, a, b, c);
    a, b, c := ReaderNotifies(c);
    longer := ThreeMore(longer, k, n, n + 1, n, a, b, c);
  }

  lemma SecondHalf(run: seq<State>, k: nat, n: nat) returns (longer: seq<State>)
    requires Starved(run, k, n, n + 1, n) && Duel(run[|run| - 1], WWoken, RCheck, 0, Some(1))
    ensures Starved(longer, k, n + 1, n + 1, n + 1) && Duel(longer[|longer| - 1], WSleep, RHold, 1, None)
    ensures longer[0] == run[0]
  {
    var a, b, c := ReaderReturns(run[|run| - 1]);
    longer := OneMore(run, k, n, n + 1, n, a);
    longer := OneMore(longer, k, n, n + 1, n, b);
    longer := OneMore(longer, k, n + 1, n + 1, n, c);
    a, b := WriterLooks(c);
    longer := OneMore(longer, k, n + 1, n + 1, n, a);
    longer := OneMore(longer, k, n + 1, n + 1, n + 1, b);
  }

  lemma Append(run: seq<State>, t: nat, s: State) returns (longer: seq<State>)
    requires IsRun(Init, Next, run) && Step(run[|run| - 1], s, t, 0)
    ensures IsRun(Init, Next, longer) && longer == run + [s]
  {
    assert StepBy(run[|run| - 1], s, t);
    Extend(Init, Next, run, s);
    longer := run + [s];
  }

  lemma ReaderCalls(s: State) returns (run: seq<State>)
    requires Init(s) && |s.pcs| >= 2
    ensures IsRun(Init, Next, run) && run[0] == s && Duel(run[|run| - 1], Idle, RCheck, 0, Some(1))
  {
    var a := Go(s, 1, RWant);
    run := Append([s], 1, a);
    var b := Acquire(a, 1, RCheck);
    run := Append(run, 1, b);
  }

  lemma ReaderComes(s: State) returns (run: seq<State>)
    requires Init(s) && |s.pcs| >= 2
    ensures IsRun(Init, Next, run) && run[0] == s && Duel(run[|run| - 1], Idle, RHold, 1, None)
  {
    run := ReaderCalls(s);
    var a := Go(run[|run| - 1], 1, RInc);
    run := Append(run, 1, a);
    var b := Release(a, 1, RHold, 1);
    run := Append(run, 1, b);
  }

  /** A reader has the lock, and a writer goes to sleep on it. */
  lemma WriterFallsAsleep(before: seq<State>) returns (run: seq<State>)
    requires IsRun(Init, Next, before) && Duel(before[|before| - 1], Idle, RHold, 1, None)
    ensures IsRun(Init, Next, run) && run[0] == before[0] && Duel(run[|run| - 1], WSleep, RHold, 1, None)
  {
    var s := before[|before| - 1];
    var a := Go(s, 0, WWant);
    run := Append(before, 0, a);
    var b := Acquire(a, 0, WCheck);
    run := Append(run, 0, b);
    var c := Go(b, 0, WDoze);
    run := Append(run, 0, c);
    var d := Release(c, 0, WSleep, 1);
    run := Append(run, 0, d);
  }

  /**
   Writers may starve: however large `n` is, there is a run in which a writer stays in `lock` while a
   reader gets the lock and gives it back `n` times.  The writer is not merely never scheduled: each time
   it is notified, looks at `readers_` again and finds the lock taken.
   */
  lemma {:induction false} WritersMayStarve(s: State, n: nat) returns (run: seq<State>, k: nat)
    requires Init(s) && |s.pcs| >= 2
    ensures Starved(run, k, n, n, n) && run[0] == s && Duel(run[|run| - 1], WSleep, RHold, 1, None)
  {
    if n == 0 {
      run := ReaderComes(s);
      run := WriterFallsAsleep(run);
      k := |run| - 1;
    } else {
      run, k := WritersMayStarve(s, n - 1);
      run := StarveOnce(run, k, n - 1);
    }
  }
}
