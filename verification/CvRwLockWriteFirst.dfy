/**
 The writer-preferring lock `rwlock_write_first`: one mutex and two condition variables.
 A writer first waits on `write_queue_` until no writer has entered, enters, and then waits on
 `read_queue_` until the readers have left.  Readers wait on `write_queue_`.

 Steps are as fine as in `CvRwLock`.
 */
module CvRwLockWriteFirst {
  import opened Counting
  import opened Runs
  import opened Wrappers

  datatype Pc =
    | Idle
      // lock(), first wait
    | AWant | ACheck | ADoze | ASleep | AWoken | AEnter
      // lock(), second wait
    | BCheck | BDoze | BSleep | BWoken | WHold
      // unlock()
    | UWant | UClear | UNotify
      // lock_shared()
    | RWant | RCheck | RDoze | RSleep | RWoken | RInc | RHold
      // unlock_shared()
    | SWant | SDec | SNotify

  datatype State = State(readers: int, entered: bool, mutex: Option<nat>, pcs: seq<Pc>)

  /** The wait set of `write_queue_`. */
  predicate OnWriteQueue(pc: Pc) {
    pc.ASleep? || pc.RSleep?
  }

  /** The wait set of `read_queue_`. */
  predicate OnReadQueue(pc: Pc) {
    pc.BSleep?
  }

  predicate Acquiring(pc: Pc) {
    pc.AWant? || pc.AWoken? || pc.BWoken? || pc.UWant? || pc.RWant? || pc.RWoken? || pc.SWant?
  }

  predicate Inside(pc: Pc) {
    || pc.ACheck? || pc.ADoze? || pc.AEnter? || pc.BCheck? || pc.BDoze? || pc.UClear?
    || pc.RCheck? || pc.RDoze? || pc.RInc? || pc.SDec?
  }

  function WakeFromWriteQueue(pc: Pc): Pc {
    match pc
    case ASleep => AWoken
    case RSleep => RWoken
    case _ => pc
  }

  function WakeAll(pcs: seq<Pc>): seq<Pc> {
    seq(|pcs|, i requires 0 <= i < |pcs| => WakeFromWriteQueue(pcs[i]))
  }

  function Go(s: State, t: nat, pc: Pc): State
    requires t < |s.pcs|
  {
    s.(pcs := s.pcs[t := pc])
  }

  function Acquire(s: State, t: nat, pc: Pc): State
    requires t < |s.pcs|
  {
    Go(s, t, pc).(mutex := Some(t))
  }

  function Release(s: State, t: nat, pc: Pc): State
    requires t < |s.pcs|
  {
    Go(s, t, pc).(mutex := None)
  }

  /** Thread `t` takes one step; `u` is the sleeper that `notify_one` picks, if there is one. */
  ghost predicate Step(s: State, s': State, t: nat, u: nat) {
    && t < |s.pcs|
    && (Acquiring(s.pcs[t]) ==> s.mutex == None)
    && match s.pcs[t]
       case Idle => s' == Go(s, t, AWant) || s' == Go(s, t, RWant)
       case AWant => s' == Acquire(s, t, ACheck)
       case ACheck => s' == Go(s, t, if !s.entered then AEnter else ADoze)
       case ADoze => s' == Release(s, t, ASleep)
       case ASleep => s' == Go(s, t, AWoken)
       case AWoken => s' == Acquire(s, t, ACheck)
       case AEnter => s' == Go(s, t, BCheck).(entered := true)
       case BCheck => s' == if s.readers == 0 then Release(s, t, WHold) else Go(s, t, BDoze)
       case BDoze => s' == Release(s, t, BSleep)
       case BSleep => s' == Go(s, t, BWoken)
       case BWoken => s' == Acquire(s, t, BCheck)
       case WHold => s' == Go(s, t, UWant)
       case UWant => s' == Acquire(s, t, UClear)
       case UClear => s' == Release(s, t, UNotify).(entered := false)
       case UNotify => s' == Go(s.(pcs := WakeAll(s.pcs)), t, Idle)
       case RWant => s' == Acquire(s, t, RCheck)
       case RCheck => s' == Go(s, t, if !s.entered then RInc else RDoze)
       case RDoze => s' == Release(s, t, RSleep)
       case RSleep => s' == Go(s, t, RWoken)
       case RWoken => s' == Acquire(s, t, RCheck)
       case RInc => s' == Release(s, t, RHold).(readers := s.readers + 1)
       case RHold => s' == Go(s, t, SWant)
       case SWant => s' == Acquire(s, t, SDec)
       case SDec =>
         s' == Release(s, t, if s.entered && s.readers - 1 == 0 then SNotify else Idle).(readers := s.readers - 1)
       case SNotify =>
         if exists v :: 0 <= v < |s.pcs| && OnReadQueue(s.pcs[v])
         then u < |s.pcs| && OnReadQueue(s.pcs[u]) && s' == Go(Go(s, u, BWoken), t, Idle)
         else s' == Go(s, t, Idle)
  }

  ghost predicate StepBy(s: State, s': State, t: nat) {
    exists u: nat :: Step(s, s', t, u)
  }

  ghost predicate Next(s: State, s': State) {
    exists t: nat :: StepBy(s, s', t)
  }

  ghost predicate Init(s: State) {
    && s.readers == 0 && !s.entered
    && s.mutex == None
    && forall t :: 0 <= t < |s.pcs| ==> s.pcs[t] == Idle
  }

  // ----- The lock itself: one method call is one step of the calling thread -----

  class RwLockWriteFirst {
    var readers: int
    var writerEntered: bool
    var mutex: Option<nat>
    var pcs: seq<Pc>

    ghost function Snap(): State
      reads this
    {
      State(readers, writerEntered, mutex, pcs)
    }

    constructor (threads: nat)
      ensures Init(Snap()) && Inv(Snap()) && |pcs| == threads
    {
      readers, writerEntered := 0, false;
      mutex := None;
      pcs := seq(threads, i => Idle);
      new;
      InitInv(Snap());
    }

    method Lock(t: nat)
      requires t < |pcs| && (Acquiring(pcs[t]) ==> mutex == None)
      requires || pcs[t].Idle? || pcs[t].AWant? || pcs[t].ACheck? || pcs[t].ADoze? || pcs[t].AWoken? || pcs[t].AEnter?
               || pcs[t].BCheck? || pcs[t].BDoze? || pcs[t].BWoken?
      requires Inv(Snap())
      modifies this
      ensures Inv(Snap()) && Step(old(Snap()), Snap(), t, t)
      ensures old(pcs[t]).Idle? ==> pcs[t].AWant?
    {
      match pcs[t] {
        case Idle =>
          pcs := pcs[t := AWant];
        case AWant | AWoken =>
          mutex, pcs := Some(t), pcs[t := ACheck];
        case ACheck =>
          pcs := pcs[t := if !writerEntered then AEnter else ADoze];
        case ADoze =>
          mutex, pcs := None, pcs[t := ASleep];
        case AEnter =>
          writerEntered := true;
          pcs := pcs[t := BCheck];
        case BCheck =>
          if readers == 0 {
            mutex, pcs := None, pcs[t := WHold];
          } else {
            pcs := pcs[t := BDoze];
          }
        case BDoze =>
          mutex, pcs := None, pcs[t := BSleep];
        case BWoken =>
          mutex, pcs := Some(t), pcs[t := BCheck];
      }
      StepKeepsInv(old(Snap()), Snap(), t, t);
    }

    method Unlock(t: nat)
      requires t < |pcs| && (Acquiring(pcs[t]) ==> mutex == None)
      requires pcs[t].WHold? || pcs[t].UWant? || pcs[t].UClear? || pcs[t].UNotify?
      requires Inv(Snap())
      modifies this
      ensures Inv(Snap()) && Step(old(Snap()), Snap(), t, t)
    {
      match pcs[t] {
        case WHold =>
          pcs := pcs[t := UWant];
        case UWant =>
          mutex, pcs := Some(t), pcs[t := UClear];
        case UClear =>
          writerEntered := false;
          mutex, pcs := None, pcs[t := UNotify];
        case UNotify =>
          pcs := WakeAll(pcs);
          pcs := pcs[t := Idle];
      }
      StepKeepsInv(old(Snap()), Snap(), t, t);
    }

    method LockShared(t: nat)
      requires t < |pcs| && (Acquiring(pcs[t]) ==> mutex == None)
      requires pcs[t].Idle? || pcs[t].RWant? || pcs[t].RCheck? || pcs[t].RDoze? || pcs[t].RWoken? || pcs[t].RInc?
      requires Inv(Snap())
      modifies this
      ensures Inv(Snap()) && Step(old(Snap()), Snap(), t, t)
      ensures old(pcs[t]).Idle? ==> pcs[t].RWant?
    {
      match pcs[t] {
        case Idle =>
          pcs := pcs[t := RWant];
        case RWant | RWoken =>
          mutex, pcs := Some(t), pcs[t := RCheck];
        case RCheck =>
          pcs := pcs[t := if !writerEntered then RInc else RDoze];
        case RDoze =>
          mutex, pcs := None, pcs[t := RSleep];
        case RInc =>
          readers := readers + 1;
          mutex, pcs := None, pcs[t := RHold];
      }
      StepKeepsInv(old(Snap()), Snap(), t, t);
    }

    method UnlockShared(t: nat)
      requires t < |pcs| && (Acquiring(pcs[t]) ==> mutex == None)
      requires pcs[t].RHold? || pcs[t].SWant? || pcs[t].SDec? || pcs[t].SNotify?
      requires Inv(Snap())
      modifies this
      ensures Inv(Snap()) && StepBy(old(Snap()), Snap(), t)
    {
      var u := t;
      match pcs[t] {
        case RHold =>
          pcs := pcs[t := SWant];
        case SWant =>
          mutex, pcs := Some(t), pcs[t := SDec];
        case SDec =>
          readers := readers - 1;
          var localCount, localWriterEntered := readers, writerEntered;
          mutex, pcs := None, pcs[t := if localWriterEntered && localCount == 0 then SNotify else Idle];
        case SNotify =>
          if v: nat :| v < |pcs| && OnReadQueue(pcs[v]) {
            u := v;
            pcs := pcs[u := BWoken];
          }
          pcs := pcs[t := Idle];
      }
      assert Step(old(Snap()), Snap(), t, u);
      StepKeepsInv(old(Snap()), Snap(), t, u);
    }
  }

  // ----- What every step keeps -----

  /** A writer between setting `writer_entered_` and clearing it. */
  predicate IsEntered(pc: Pc) {
    pc.BCheck? || pc.BDoze? || pc.BSleep? || pc.BWoken? || pc.WHold? || pc.UWant? || pc.UClear?
  }

  predicate IsReader(pc: Pc) {
    pc.RHold? || pc.SWant? || pc.SDec?
  }

  predicate IsPendingAll(pc: Pc) {
    pc.UNotify?
  }

  predicate IsPendingOne(pc: Pc) {
    pc.SNotify?
  }

  ghost predicate MutexInv(s: State) {
    && (forall t :: 0 <= t < |s.pcs| ==> (Inside(s.pcs[t]) <==> s.mutex == Some(t)))
    && (s.mutex.Some? ==> s.mutex.value < |s.pcs|)
  }

  ghost predicate CountInv(s: State) {
    && Count(s.pcs, IsEntered) == (if s.entered then 1 else 0)
    && Count(s.pcs, IsReader) == s.readers
  }

  /** What a thread has found out still holds; a writer that has the lock keeps the readers out. */
  predicate Checked(s: State, pc: Pc) {
    match pc
    case AEnter => !s.entered
    case ADoze => s.entered
    case RInc => !s.entered
    case RDoze => s.entered
    case BDoze => s.readers != 0
    case WHold => s.readers == 0
    case UWant => s.readers == 0
    case UClear => s.readers == 0
    case _ => true
  }

  ghost predicate CheckedInv(s: State) {
    forall t :: 0 <= t < |s.pcs| ==> Checked(s, s.pcs[t])
  }

  /** No wakeup is lost on either queue. */
  ghost predicate WakeInv(s: State) {
    && (Count(s.pcs, OnWriteQueue) > 0 ==> s.entered || Count(s.pcs, IsPendingAll) > 0)
    && (Count(s.pcs, OnReadQueue) > 0 && s.readers == 0 ==> Count(s.pcs, IsPendingOne) > 0)
  }

  ghost predicate Inv(s: State) {
    MutexInv(s) && CountInv(s) && CheckedInv(s) && WakeInv(s)
  }

  lemma InitInv(s: State)
    requires Init(s)
    ensures Inv(s)
  {
    CountNone(s.pcs, IsEntered);
    CountNone(s.pcs, IsReader);
    CountNone(s.pcs, OnWriteQueue);
    CountNone(s.pcs, OnReadQueue);
  }

  lemma StepKeepsMutex(s: State, s': State, t: nat, u: nat)
    requires MutexInv(s) && Step(s, s', t, u) && !s.pcs[t].UNotify? && !s.pcs[t].SNotify?
    ensures MutexInv(s')
  {
    OwnPoint(s, s', t, u);
    if Inside(s.pcs[t]) {
      InsideMutex(s, s', t, u);
    } else {
      OutsideMutex(s, s', t, u);
    }
  }

  lemma OwnPoint(s: State, s': State, t: nat, u: nat)
    requires Step(s, s', t, u) && !s.pcs[t].UNotify? && !s.pcs[t].SNotify?
    ensures |s'.pcs| == |s.pcs| && s'.pcs == s.pcs[t := s'.pcs[t]]
  {
  }

  /** A thread inside keeps the mutex or releases it. */
  lemma InsideMutex(s: State, s': State, t: nat, u: nat)
    requires Step(s, s', t, u) && Inside(s.pcs[t])
    ensures |s'.pcs| == |s.pcs| && s'.mutex == if Inside(s'.pcs[t]) then s.mutex else None
  {
  }

  /** A thread outside comes in only when the mutex is free, and takes it. */
  lemma OutsideMutex(s: State, s': State, t: nat, u: nat)
    requires Step(s, s', t, u) && !Inside(s.pcs[t]) && !s.pcs[t].UNotify? && !s.pcs[t].SNotify?
    ensures |s'.pcs| == |s.pcs| && (Inside(s'.pcs[t]) ==> s.mutex == None)
    ensures s'.mutex == if Inside(s'.pcs[t]) then Some(t) else s.mutex
  {
  }

  /** The shared variables change only inside the mutex, and `readers_` with the thread's own hold. */
  lemma OwnAccess(s: State, s': State, t: nat, u: nat)
    requires Step(s, s', t, u) && !s.pcs[t].UNotify? && !s.pcs[t].SNotify?
    ensures |s'.pcs| == |s.pcs|
    ensures s'.readers == s.readers + (if IsReader(s'.pcs[t]) then 1 else 0) - if IsReader(s.pcs[t]) then 1 else 0
    ensures !Inside(s.pcs[t]) ==> s'.readers == s.readers && s'.entered == s.entered
    ensures s'.entered != s.entered ==> s'.readers == s.readers
    ensures s'.readers != s.readers ==> s.pcs[t].RInc? || s.pcs[t].SDec?
  {
  }

  lemma StepKeepsEntered(s: State, s': State, t: nat, u: nat)
    requires CountInv(s) && CheckedInv(s) && Step(s, s', t, u) && !s.pcs[t].UNotify? && !s.pcs[t].SNotify?
    ensures Count(s'.pcs, IsEntered) == (if s'.entered then 1 else 0)
  {
    CountNone(s.pcs, IsEntered);
    CountUpdate(s.pcs, IsEntered, t, s'.pcs[t]);
  }

  lemma StepKeepsReaders(s: State, s': State, t: nat, u: nat)
    requires CountInv(s) && Step(s, s', t, u) && !s.pcs[t].UNotify? && !s.pcs[t].SNotify?
    ensures Count(s'.pcs, IsReader) == s'.readers
  {
    OwnPoint(s, s', t, u);
    OwnAccess(s, s', t, u);
    CountUpdate(s.pcs, IsReader, t, s'.pcs[t]);
  }

  /** Two threads at points where `writer_entered_` is theirs are the same thread. */
  lemma OneEntered(s: State, t: nat, u: nat)
    requires CountInv(s) && t < |s.pcs| && u < |s.pcs| && IsEntered(s.pcs[t]) && IsEntered(s.pcs[u])
    ensures t == u && s.entered
  {
    CountNone(s.pcs, IsEntered);
    CountOne(s.pcs, IsEntered, t, u);
  }

  lemma StepKeepsChecked(s: State, s': State, t: nat, u: nat)
    requires MutexInv(s) && CountInv(s) && CheckedInv(s)
    requires Step(s, s', t, u) && !s.pcs[t].UNotify? && !s.pcs[t].SNotify?
    ensures CheckedInv(s')
  {
    OwnChecked(s, s', t, u);
    OwnPoint(s, s', t, u);
    forall v: nat | v < |s'.pcs| && v != t
      ensures Checked(s', s'.pcs[v])
    {
      OtherChecked(s, s', t, u, v);
    }
  }

  lemma OwnChecked(s: State, s': State, t: nat, u: nat)
    requires CountInv(s) && CheckedInv(s) && Step(s, s', t, u) && !s.pcs[t].UNotify? && !s.pcs[t].SNotify?
    ensures |s'.pcs| == |s.pcs| && Checked(s', s'.pcs[t])
  {
    assert Checked(s, s.pcs[t]);
  }

  lemma OtherChecked(s: State, s': State, t: nat, u: nat, v: nat)
    requires MutexInv(s) && CountInv(s) && CheckedInv(s)
    requires Step(s, s', t, u) && !s.pcs[t].UNotify? && !s.pcs[t].SNotify? && v < |s.pcs| && v != t
    ensures Checked(s', s.pcs[v])
  {
    OwnAccess(s, s', t, u);
    assert Checked(s, s.pcs[v]) && Checked(s, s.pcs[t]);
    CountNone(s.pcs, IsReader);
    CountNone(s.pcs, IsEntered);
  }

  lemma StepKeepsWriteQueue(s: State, s': State, t: nat, u: nat)
    requires CheckedInv(s) && WakeInv(s) && Step(s, s', t, u) && !s.pcs[t].UNotify? && !s.pcs[t].SNotify?
    ensures Count(s'.pcs, OnWriteQueue) > 0 ==> s'.entered || Count(s'.pcs, IsPendingAll) > 0
  {
    CountUpdate(s.pcs, OnWriteQueue, t, s'.pcs[t]);
    CountUpdate(s.pcs, IsPendingAll, t, s'.pcs[t]);
  }

  lemma StepKeepsReadQueue(s: State, s': State, t: nat, u: nat)
    requires CountInv(s) && CheckedInv(s) && WakeInv(s)
    requires Step(s, s', t, u) && !s.pcs[t].UNotify? && !s.pcs[t].SNotify?
    ensures Count(s'.pcs, OnReadQueue) > 0 && s'.readers == 0 ==> Count(s'.pcs, IsPendingOne) > 0
  {
    CountNone(s.pcs, OnReadQueue);
    CountNone(s.pcs, IsEntered);
    OwnPoint(s, s', t, u);
    OwnAccess(s, s', t, u);
    CountUpdate(s.pcs, OnReadQueue, t, s'.pcs[t]);
    CountUpdate(s.pcs, IsPendingOne, t, s'.pcs[t]);
  }

  /** A notification moves sleepers to waiting for the mutex, and changes nothing else. */
  ghost predicate OnlyWakes(s: State, s': State, t: nat) {
    && s'.readers == s.readers && s'.entered == s.entered && s'.mutex == s.mutex
    && |s'.pcs| == |s.pcs|
    && t < |s.pcs| && s'.pcs[t].Idle?
    && forall i :: 0 <= i < |s.pcs| && i != t ==>
         || s'.pcs[i] == s.pcs[i]
         || s'.pcs[i] == WakeFromWriteQueue(s.pcs[i])
         || (s.pcs[i].BSleep? && s'.pcs[i].BWoken?)
  }

  lemma NotifyOnlyWakes(s: State, s': State, t: nat, u: nat)
    requires Step(s, s', t, u) && (s.pcs[t].UNotify? || s.pcs[t].SNotify?)
    ensures OnlyWakes(s, s', t)
  {
  }

  lemma WakingKeepsCounts(s: State, s': State, t: nat)
    requires OnlyWakes(s, s', t) && (s.pcs[t].UNotify? || s.pcs[t].SNotify?)
    requires MutexInv(s) && CheckedInv(s) && CountInv(s)
    ensures MutexInv(s') && CheckedInv(s') && CountInv(s')
  {
    WakingKeepsMutex(s, s', t);
    WakingKeepsChecked(s, s', t);
    CountSame(s.pcs, IsEntered, s'.pcs, IsEntered);
    CountSame(s.pcs, IsReader, s'.pcs, IsReader);
  }

  lemma WakingKeepsMutex(s: State, s': State, t: nat)
    requires OnlyWakes(s, s', t) && (s.pcs[t].UNotify? || s.pcs[t].SNotify?) && MutexInv(s)
    ensures MutexInv(s')
  {
  }

  lemma WakingKeepsChecked(s: State, s': State, t: nat)
    requires OnlyWakes(s, s', t) && CheckedInv(s)
    ensures CheckedInv(s')
  {
  }

  lemma NotifyAllKeepsWake(s: State, s': State, t: nat, u: nat)
    requires WakeInv(s) && Step(s, s', t, u) && s.pcs[t].UNotify?
    ensures WakeInv(s')
  {
    CountNone(s'.pcs, OnWriteQueue);
    CountSame(s.pcs, OnReadQueue, s'.pcs, OnReadQueue);
    CountSame(s.pcs, IsPendingOne, s'.pcs, IsPendingOne);
  }

  /** There is at most one thread on `read_queue_`, so `notify_one` leaves none behind. */
  lemma NotifyOneKeepsWake(s: State, s': State, t: nat, u: nat)
    requires CountInv(s) && WakeInv(s) && Step(s, s', t, u) && s.pcs[t].SNotify?
    ensures WakeInv(s')
  {
    CountSame(s.pcs, OnWriteQueue, s'.pcs, OnWriteQueue);
    CountSame(s.pcs, IsPendingAll, s'.pcs, IsPendingAll);
    CountNone(s'.pcs, OnReadQueue);
    forall w: nat | w < |s.pcs| && OnReadQueue(s.pcs[w])
      ensures w == u
    {
      OneEntered(s, w, u);
    }
  }

  lemma StepKeepsInv(s: State, s': State, t: nat, u: nat)
    requires Inv(s) && Step(s, s', t, u)
    ensures Inv(s')
  {
    if s.pcs[t].UNotify? {
      NotifyOnlyWakes(s, s', t, u);
      WakingKeepsCounts(s, s', t);
      NotifyAllKeepsWake(s, s', t, u);
    } else if s.pcs[t].SNotify? {
      NotifyOnlyWakes(s, s', t, u);
      WakingKeepsCounts(s, s', t);
      NotifyOneKeepsWake(s, s', t, u);
    } else {
      StepKeepsMutex(s, s', t, u);
      StepKeepsChecked(s, s', t, u);
      StepKeepsEntered(s, s', t, u);
      StepKeepsReaders(s, s', t, u);
      StepKeepsWriteQueue(s, s', t, u);
      StepKeepsReadQueue(s, s', t, u);
    }
  }

  lemma AlwaysInv(run: seq<State>, k: nat)
    requires IsRun(Init, Next, run) && k < |run|
    ensures Inv(run[k])
  {
    forall s | Init(s)
      ensures Inv(s)
    {
      InitInv(s);
    }
    forall s, s' | Inv(s) && Next(s, s')
      ensures Inv(s')
    {
      var t: nat, u: nat :| Step(s, s', t, u);
      StepKeepsInv(s, s', t, u);
    }
    Invariance(Init, Next, Inv, run, k);
  }

  // ----- The theorems -----

  /**
   A writer that holds the lock shares it with no one, and at most one thread is ever in the
   wait set of `read_queue_`.
   */
  lemma Exclusion(run: seq<State>, k: nat, t: nat, u: nat)
    requires IsRun(Init, Next, run) && k < |run|
    requires t < |run[k].pcs| && u < |run[k].pcs| && t != u
    ensures run[k].pcs[t].WHold? ==> !run[k].pcs[u].WHold? && !run[k].pcs[u].RHold?
    ensures !(OnReadQueue(run[k].pcs[t]) && OnReadQueue(run[k].pcs[u]))
  {
    AlwaysInv(run, k);
    var s := run[k];
    CountNone(s.pcs, IsReader);
    if IsEntered(s.pcs[t]) && IsEntered(s.pcs[u]) {
      OneEntered(s, t, u);
    }
  }

  /** The thread can go on by itself: it is in a call, not asleep, and the mutex is not in its way. */
  predicate Enabled(s: State, t: nat)
    requires t < |s.pcs|
  {
    && !s.pcs[t].Idle? && !s.pcs[t].WHold? && !s.pcs[t].RHold?
    && !OnWriteQueue(s.pcs[t]) && !OnReadQueue(s.pcs[t])
    && (Acquiring(s.pcs[t]) ==> s.mutex == None)
  }

  /** Every thread is outside a call, has the lock, or sleeps. */
  predicate AtRest(s: State) {
    forall t :: 0 <= t < |s.pcs| ==>
      || s.pcs[t].Idle? || s.pcs[t].WHold? || s.pcs[t].RHold? || OnWriteQueue(s.pcs[t]) || OnReadQueue(s.pcs[t])
  }

  lemma NoneEnabled(s: State)
    requires MutexInv(s) && forall t: nat :: t < |s.pcs| ==> !Enabled(s, t)
    ensures AtRest(s)
  {
    assert forall t: nat :: t < |s.pcs| && Inside(s.pcs[t]) ==> Enabled(s, t);
    forall t | 0 <= t < |s.pcs|
      ensures || s.pcs[t].Idle? || s.pcs[t].WHold? || s.pcs[t].RHold? || OnWriteQueue(s.pcs[t]) || OnReadQueue(s.pcs[t])
    {
      assert !Enabled(s, t);
    }
  }

  lemma RestingSleepers(s: State)
    requires CountInv(s) && WakeInv(s) && AtRest(s)
    ensures BSleep in s.pcs ==> RHold in s.pcs
    ensures ASleep in s.pcs || RSleep in s.pcs ==> WHold in s.pcs || (BSleep in s.pcs && RHold in s.pcs)
  {
    CountNone(s.pcs, OnWriteQueue);
    CountNone(s.pcs, OnReadQueue);
    CountNone(s.pcs, IsPendingAll);
    CountNone(s.pcs, IsPendingOne);
    CountNone(s.pcs, IsEntered);
    CountNone(s.pcs, IsReader);
  }

  /**
   No wakeup is lost on either queue and there is no deadlock.  Where no thread can go on without
   a new call, an unlock or a spurious wakeup, whoever sleeps waits for a thread that holds the
   lock: the entered writer for a reader, the others for a writer or, behind the entered writer,
   for a reader.
   */
  lemma SleepersWaitForHolders(run: seq<State>, k: nat)
    requires IsRun(Init, Next, run) && k < |run|
    requires forall t: nat :: t < |run[k].pcs| ==> !Enabled(run[k], t)
    ensures var pcs := run[k].pcs;
            && (BSleep in pcs ==> RHold in pcs)
            && (ASleep in pcs || RSleep in pcs ==> WHold in pcs || (BSleep in pcs && RHold in pcs))
            && (forall t :: 0 <= t < |pcs| ==>
                  || pcs[t].Idle? || pcs[t].WHold? || pcs[t].RHold?
                  || OnWriteQueue(pcs[t]) || OnReadQueue(pcs[t]))
  {
    AlwaysInv(run, k);
    NoneEnabled(run[k]);
    RestingSleepers(run[k]);
  }

  // ----- Writer preference -----

  /** `schedule[k]` is the thread whose step leads from `run[k]` to `run[k + 1]`. */
  ghost predicate IsScheduled(run: seq<State>, schedule: seq<nat>) {
    && |run| == |schedule| + 1
    && Init(run[0])
    && forall k :: 0 <= k < |schedule| ==> StepBy(run[k], run[k + 1], schedule[k])
  }

  /** The step from `run[k]` is the one of `unlock_shared` that decrements `readers_`. */
  ghost predicate IsDecrement(run: seq<State>, schedule: seq<nat>, k: nat)
    requires k < |run| && k < |schedule|
  {
    schedule[k] < |run[k].pcs| && run[k].pcs[schedule[k]].SDec?
  }

  /** How many such steps lead from `run[i]` to `run[j]`. */
  ghost function Decrements(run: seq<State>, schedule: seq<nat>, i: nat, j: nat): nat
    requires i <= j < |run| && j <= |schedule|
  {
    if i == j then 0
    else Decrements(run, schedule, i, j - 1) + if IsDecrement(run, schedule, j - 1) then 1 else 0
  }

  lemma ScheduledIsRun(run: seq<State>, schedule: seq<nat>)
    requires IsScheduled(run, schedule)
    ensures IsRun(Init, Next, run)
  {
    forall i | 0 < i < |run|
      ensures Next(run[i - 1], run[i])
    {
      assert StepBy(run[i - 1], run[i - 1 + 1], schedule[i - 1]);
    }
  }

  lemma EnteredStep(run: seq<State>, schedule: seq<nat>, k: nat)
    requires IsScheduled(run, schedule) && k < |schedule|
    requires run[k].entered && run[k + 1].entered
    ensures run[k + 1].readers == run[k].readers - if IsDecrement(run, schedule, k) then 1 else 0
  {
    ScheduledIsRun(run, schedule);
    AlwaysInv(run, k);
    var u: nat :| Step(run[k], run[k + 1], schedule[k], u);
  }

  lemma {:induction false} ReadersTelescope(run: seq<State>, schedule: seq<nat>, i: nat, j: nat)
    requires i <= j < |run| && j <= |schedule|
    requires forall k :: i <= k < j ==>
      run[k + 1].readers == run[k].readers - if IsDecrement(run, schedule, k) then 1 else 0
    ensures run[j].readers == run[i].readers - Decrements(run, schedule, i, j)
  {
    if i == j {
    } else {
      ReadersTelescope(run, schedule, i, j - 1);
      assert run[j - 1 + 1].readers == run[j - 1].readers - if IsDecrement(run, schedule, j - 1) then 1 else 0;
    }
  }

  /** While a writer has entered, `readers_` goes down by one for each `unlock_shared` and never up. */
  lemma WriterPreference(run: seq<State>, schedule: seq<nat>, i: nat, j: nat)
    requires IsScheduled(run, schedule) && i <= j < |run|
    requires forall k :: i <= k <= j ==> run[k].entered
    ensures run[j].readers == run[i].readers - Decrements(run, schedule, i, j)
  {
    forall k | i <= k < j
      ensures run[k + 1].readers == run[k].readers - if IsDecrement(run, schedule, k) then 1 else 0
    {
      EnteredStep(run, schedule, k);
    }
    ReadersTelescope(run, schedule, i, j);
  }

  /** A writer past its first wait keeps `writer_entered_`, and with the lock there is no reader. */
  lemma EnteredAt(run: seq<State>, k: nat, w: nat)
    requires IsRun(Init, Next, run) && k < |run| && w < |run[k].pcs| && IsEntered(run[k].pcs[w])
    ensures run[k].entered && (run[k].pcs[w].WHold? ==> run[k].readers == 0)
  {
    AlwaysInv(run, k);
    OneEntered(run[k], w, w);
  }

  lemma EnteringLeavesReaders(run: seq<State>, schedule: seq<nat>, i: nat)
    requires IsScheduled(run, schedule) && i < |schedule|
    requires schedule[i] < |run[i].pcs| && run[i].pcs[schedule[i]].AEnter?
    ensures run[i + 1].readers == run[i].readers
  {
    var u: nat :| Step(run[i], run[i + 1], schedule[i], u);
  }

  /**
   The writer `w` that enters between `run[i]` and `run[i + 1]` has the lock at `run[j]` only after
   exactly as many `unlock_shared` decrements as there were readers when it entered.
   */
  lemma WriterWaitsForItsReadersOnly(run: seq<State>, schedule: seq<nat>, i: nat, j: nat, w: nat)
    requires IsScheduled(run, schedule) && i < j < |run| && w < |run[i].pcs|
    requires run[i].pcs[w].AEnter? && schedule[i] == w
    requires forall k :: i < k <= j ==> w < |run[k].pcs| && IsEntered(run[k].pcs[w])
    requires run[j].pcs[w].WHold?
    ensures Decrements(run, schedule, i + 1, j) == run[i].readers
  {
    StaysEntered(run, schedule, i, j, w);
    WriterPreference(run, schedule, i + 1, j);
    ScheduledIsRun(run, schedule);
    EnteredAt(run, j, w);
    EnteringLeavesReaders(run, schedule, i);
  }

  lemma StaysEntered(run: seq<State>, schedule: seq<nat>, i: nat, j: nat, w: nat)
    requires IsScheduled(run, schedule) && i < j < |run|
    requires forall k :: i < k <= j ==> w < |run[k].pcs| && IsEntered(run[k].pcs[w])
    ensures forall k :: i < k <= j ==> run[k].entered
  {
    ScheduledIsRun(run, schedule);
    forall k | i < k <= j
      ensures run[k].entered
    {
      EnteredAt(run, k, w);
    }
  }

  // ----- What a thread has done when it leaves a call -----

  /** The first wait of `lock`. */
  predicate InFirstWait(pc: Pc) {
    pc.AWant? || pc.ACheck? || pc.ADoze? || pc.ASleep? || pc.AWoken? || pc.AEnter?
  }

  /** The second wait of `lock`. */
  predicate InSecondWait(pc: Pc) {
    pc.BCheck? || pc.BDoze? || pc.BSleep? || pc.BWoken?
  }

  /** The program points of a thread in `lock_shared`. */
  predicate InLockShared(pc: Pc) {
    pc.RWant? || pc.RCheck? || pc.RDoze? || pc.RSleep? || pc.RWoken? || pc.RInc?
  }

  /** From the lock to the end of its critical section in `unlock`. */
  predicate HasWriteLock(pc: Pc) {
    pc.WHold? || pc.UWant? || pc.UClear?
  }

  /** Other threads are left where they are, but for a wakeup. */
  lemma OthersOnlyWake(s: State, s': State, t: nat, u: nat, v: nat)
    requires Step(s, s', t, u) && v < |s.pcs| && v != t
    ensures |s'.pcs| == |s.pcs|
    ensures || s'.pcs[v] == s.pcs[v]
            || (OnWriteQueue(s.pcs[v]) && s'.pcs[v] == WakeFromWriteQueue(s.pcs[v]))
            || (OnReadQueue(s.pcs[v]) && s'.pcs[v] == BWoken)
  {
  }

  /** `lock` enters only where no writer has, and is left only with the lock, which no reader has. */
  lemma LockTakes(s: State, s': State, t: nat, u: nat, v: nat)
    requires CheckedInv(s) && Step(s, s', t, u) && v < |s.pcs|
    ensures |s'.pcs| == |s.pcs|
    ensures InFirstWait(s.pcs[v]) ==>
              InFirstWait(s'.pcs[v]) || (v == t && InSecondWait(s'.pcs[v]) && !s.entered && s'.entered)
    ensures InSecondWait(s.pcs[v]) ==>
              InSecondWait(s'.pcs[v]) || (v == t && s'.pcs[v].WHold? && s.readers == 0 && s' == Release(s, t, WHold))
  {
    if v != t {
      OthersOnlyWake(s, s', t, u, v);
    }
  }

  /** `lock_shared` is left only with the lock, while no writer has entered: the thread itself has counted itself. */
  lemma LockSharedTakes(s: State, s': State, t: nat, u: nat, v: nat)
    requires CheckedInv(s) && Step(s, s', t, u) && v < |s.pcs| && InLockShared(s.pcs[v])
    ensures |s'.pcs| == |s.pcs|
    ensures InLockShared(s'.pcs[v]) ||
            (v == t && s'.pcs[v].RHold? && !s.entered && s'.readers == s.readers + 1)
  {
    if v != t {
      OthersOnlyWake(s, s', t, u, v);
    }
  }

  /** A writer is rid of the lock only when others may enter, and has woken those who wait to before `unlock` is over. */
  lemma UnlockGivesBack(s: State, s': State, t: nat, u: nat, v: nat)
    requires Step(s, s', t, u) && v < |s.pcs|
    ensures |s'.pcs| == |s.pcs|
    ensures HasWriteLock(s.pcs[v]) ==> HasWriteLock(s'.pcs[v]) || (v == t && s'.pcs[v].UNotify? && !s'.entered)
    ensures s.pcs[v].UNotify? ==>
              || s'.pcs[v].UNotify?
              || (v == t && s'.pcs[v].Idle? && forall w :: 0 <= w < |s.pcs| && w != t ==>
                    s'.pcs[w] == WakeFromWriteQueue(s.pcs[w]) && !OnWriteQueue(s'.pcs[w]))
  {
  }

  /** A reader is rid of the lock only when it is no longer counted; the last notifies a writer that has entered. */
  lemma UnlockSharedGivesBack(s: State, s': State, t: nat, u: nat, v: nat)
    requires Step(s, s', t, u) && v < |s.pcs| && IsReader(s.pcs[v])
    ensures |s'.pcs| == |s.pcs|
    ensures || IsReader(s'.pcs[v])
            || (v == t && s'.readers == s.readers - 1
                && s'.pcs[v] == if s'.entered && s'.readers == 0 then SNotify else Idle)
  {
    if v != t {
      OthersOnlyWake(s, s', t, u, v);
    }
  }

  /** The notification wakes a writer on `read_queue_`, if there is one. */
  lemma LastReaderWakes(s: State, s': State, t: nat, u: nat, v: nat)
    requires Step(s, s', t, u) && v < |s.pcs| && s.pcs[v].SNotify?
    ensures |s'.pcs| == |s.pcs|
    ensures || s'.pcs[v].SNotify?
            || (v == t && s'.pcs[v].Idle?
                && (WriterWoken(s, s') || forall w :: 0 <= w < |s.pcs| ==> !OnReadQueue(s.pcs[w])))
  {
    if v == t && exists w :: 0 <= w < |s.pcs| && OnReadQueue(s.pcs[w]) {
      assert OnReadQueue(s.pcs[u]) && s'.pcs[u] == BWoken;
    }
  }

  ghost predicate WriterWoken(s: State, s': State)
    requires |s'.pcs| == |s.pcs|
  {
    exists w :: 0 <= w < |s.pcs| && OnReadQueue(s.pcs[w]) && s'.pcs[w] == BWoken
  }

  /** Nothing else changes `readers_` or `writer_entered_`. */
  lemma NothingElse(s: State, s': State, t: nat, u: nat)
    requires Step(s, s', t, u)
    ensures |s'.pcs| == |s.pcs|
    ensures s'.readers != s.readers ==>
              (InLockShared(s.pcs[t]) && s'.pcs[t].RHold?) || (IsReader(s.pcs[t]) && !IsReader(s'.pcs[t]))
    ensures s'.entered != s.entered ==>
              || (InFirstWait(s.pcs[t]) && InSecondWait(s'.pcs[t]))
              || (HasWriteLock(s.pcs[t]) && !HasWriteLock(s'.pcs[t]))
  {
  }

  /** A thread goes to sleep only while it cannot go on. */
  lemma SleepsForAReason(s: State, s': State, t: nat, u: nat, v: nat)
    requires CheckedInv(s) && Step(s, s', t, u) && v < |s.pcs|
    ensures |s'.pcs| == |s.pcs|
    ensures OnWriteQueue(s'.pcs[v]) && !OnWriteQueue(s.pcs[v]) ==>
              v == t && s.entered && (InFirstWait(s.pcs[v]) || InLockShared(s.pcs[v]))
    ensures OnReadQueue(s'.pcs[v]) && !OnReadQueue(s.pcs[v]) ==> v == t && s.readers != 0 && InSecondWait(s.pcs[v])
  {
    if v != t {
      OthersOnlyWake(s, s', t, u, v);
    }
  }

  /** Whoever sleeps may wake at any time, and then acquires the mutex to look again. */
  lemma SpuriousWakeup(s: State, v: nat)
    requires v < |s.pcs| && (OnWriteQueue(s.pcs[v]) || OnReadQueue(s.pcs[v]))
    ensures var pc := if OnReadQueue(s.pcs[v]) then BWoken else WakeFromWriteQueue(s.pcs[v]);
            StepBy(s, Go(s, v, pc), v) && Acquiring(pc)
  {
    assert Step(s, Go(s, v, if OnReadQueue(s.pcs[v]) then BWoken else WakeFromWriteQueue(s.pcs[v])), v, 0);
  }

  /** The notification may go to any writer on `read_queue_`. */
  lemma AnySleeperMayBeChosen(s: State, t: nat, w: nat)
    requires t < |s.pcs| && s.pcs[t].SNotify? && w < |s.pcs| && OnReadQueue(s.pcs[w])
    ensures Step(s, Go(Go(s, w, BWoken), t, Idle), t, w)
  {
  }

  /** A thread outside a call may call, and one with the lock gives it back. */
  lemma CallsBegin(s: State, s': State, t: nat, u: nat)
    requires Step(s, s', t, u)
    ensures |s'.pcs| == |s.pcs|
    ensures s.pcs[t].Idle? ==> s'.pcs[t].AWant? || s'.pcs[t].RWant?
    ensures s.pcs[t].WHold? ==> s'.pcs[t].UWant?
    ensures s.pcs[t].RHold? ==> s'.pcs[t].SWant?
  {
  }

  /** How many steps of its own a thread in a call has left at most before the call is over or the thread sleeps. */
  function StepsLeft(pc: Pc): nat {
    match pc
    case AWant => 6
    case AWoken => 6
    case ACheck => 5
    case ADoze => 4
    case AEnter => 4
    case BWoken => 4
    case BCheck => 3
    case BDoze => 2
    case UWant => 3
    case UClear => 2
    case UNotify => 1
    case RWant => 4
    case RWoken => 4
    case RCheck => 3
    case RDoze => 2
    case RInc => 2
    case SWant => 3
    case SDec => 2
    case SNotify => 1
    case _ => 0
  }

  /** No call goes round in circles. */
  lemma CallsAdvance(s: State, s': State, t: nat, u: nat)
    requires Step(s, s', t, u) && Enabled(s, t)
    ensures t < |s'.pcs| && StepsLeft(s'.pcs[t]) < StepsLeft(s.pcs[t])
  {
  }

  lemma NextTakes(s: State, s': State, v: nat)
    requires CheckedInv(s) && Next(s, s') && v < |s.pcs|
    ensures |s'.pcs| == |s.pcs|
    ensures InFirstWait(s.pcs[v]) && !InFirstWait(s'.pcs[v]) ==> InSecondWait(s'.pcs[v]) && !s.entered && s'.entered
    ensures InSecondWait(s.pcs[v]) && !InSecondWait(s'.pcs[v]) ==> s'.pcs[v].WHold? && s.readers == s'.readers == 0
    ensures InLockShared(s.pcs[v]) && !InLockShared(s'.pcs[v]) ==>
              s'.pcs[v].RHold? && !s.entered && s'.readers == s.readers + 1
  {
    var t: nat, u: nat :| Step(s, s', t, u);
    LockTakes(s, s', t, u, v);
    if InLockShared(s.pcs[v]) {
      LockSharedTakes(s, s', t, u, v);
    }
  }

  lemma RunLockShared(run: seq<State>, k: nat, v: nat)
    requires IsRun(Init, Next, run) && k + 1 < |run| && v < |run[k].pcs| && InLockShared(run[k].pcs[v])
    ensures v < |run[k + 1].pcs|
    ensures InLockShared(run[k + 1].pcs[v]) ||
            (run[k + 1].pcs[v].RHold? && !run[k].entered && run[k + 1].readers == run[k].readers + 1)
  {
    AlwaysInv(run, k);
    assert Next(run[k + 1 - 1], run[k + 1]);
    NextTakes(run[k], run[k + 1], v);
  }

  predicate InLockCall(pc: Pc) {
    InFirstWait(pc) || InSecondWait(pc)
  }

  lemma RunLock(run: seq<State>, k: nat, v: nat)
    requires IsRun(Init, Next, run) && k + 1 < |run| && v < |run[k].pcs| && InLockCall(run[k].pcs[v])
    ensures v < |run[k + 1].pcs|
    ensures InLockCall(run[k + 1].pcs[v]) ||
            (run[k + 1].pcs[v].WHold? && run[k + 1].entered && run[k + 1].readers == 0)
  {
    AlwaysInv(run, k);
    assert Next(run[k + 1 - 1], run[k + 1]);
    NextTakes(run[k], run[k + 1], v);
    if run[k + 1].pcs[v].WHold? {
      EnteredAt(run, k + 1, v);
    }
  }

  predicate IsLockingShared(s: State, v: nat) {
    v < |s.pcs| && InLockShared(s.pcs[v])
  }

  /** So whoever is out of `lock_shared` again had the lock, and came in while no writer had entered. */
  lemma LockSharedHadTheLock(run: seq<State>, i: nat, j: nat, v: nat) returns (k: nat)
    requires IsRun(Init, Next, run) && i <= j < |run| && v < |run[i].pcs| && v < |run[j].pcs|
    requires InLockShared(run[i].pcs[v]) && !InLockShared(run[j].pcs[v])
    ensures i <= k < j && v < |run[k + 1].pcs| && run[k + 1].pcs[v].RHold?
    ensures !run[k].entered && run[k + 1].readers == run[k].readers + 1
  {
    k := LastBefore(run, (s: State) => IsLockingShared(s, v), i, j);
    RunLockShared(run, k, v);
  }

  predicate IsLocking(s: State, v: nat) {
    v < |s.pcs| && InLockCall(s.pcs[v])
  }

  /** And whoever is out of `lock` again had entered, and then had the lock, without readers. */
  lemma LockHadTheLock(run: seq<State>, i: nat, j: nat, v: nat) returns (k: nat)
    requires IsRun(Init, Next, run) && i <= j < |run| && v < |run[i].pcs| && v < |run[j].pcs|
    requires InLockCall(run[i].pcs[v]) && !InLockCall(run[j].pcs[v])
    ensures i <= k < j && v < |run[k + 1].pcs| && run[k + 1].pcs[v].WHold?
    ensures run[k + 1].entered && run[k + 1].readers == 0
  {
    k := LastBefore(run, (s: State) => IsLocking(s, v), i, j);
    RunLock(run, k, v);
  }
}
