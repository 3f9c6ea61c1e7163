/**
 The compare-and-swap readers-writer lock over one 32-bit atomic, with a client that writes and
 copies shared data element by element under the lock.  Every access to the atomic or to an
 element is a step of its own, and a weak compare-and-swap may fail for no reason.
 */
module CasRwLock {
  import opened Counting
  import opened Runs

  const MAX_INT: int := 0x7FFF_FFFF

  /** The value of a 32-bit signed integer after an operation whose exact result is `x`. */
  function Wrap(x: int): int {
    (x + 0x8000_0000) % 0x1_0000_0000 - 0x8000_0000
  }

  datatype Pc =
    | Idle
      // lock(), then writing `value`, of which `done` elements are written, then unlock()
    | WLoad(value: string) | WCas(value: string) | WHold(value: string, done: nat) | UStore
      // lock_shared(), then copying the data, then unlock_shared()
    | RLoad | RCas(expected: int) | RHold(copy: string) | SSub

  /** `values` are the ones that the writers write; `seen` are the copies that readers have completed. */
  datatype State = State(
    readers: int, pcs: seq<Pc>, data: string, values: set<string>, seen: seq<string>)

  function Go(s: State, t: nat, pc: Pc): State
    requires t < |s.pcs|
  {
    s.(pcs := s.pcs[t := pc])
  }

  /** Thread `t` takes one step; `fails` says that its compare-and-swap fails for no reason. */
  ghost predicate Step(s: State, s': State, t: nat, fails: bool) {
    && t < |s.pcs|
    && match s.pcs[t]
       case Idle => s' == Go(s, t, RLoad) || exists v :: v in s.values && s' == Go(s, t, WLoad(v))
       case WLoad(v) => s' == Go(s, t, if s.readers != 0 then WLoad(v) else WCas(v))
       case WCas(v) =>
         s' == if s.readers == 0 && !fails then Go(s, t, WHold(v, 0)).(readers := -1) else Go(s, t, WLoad(v))
       case WHold(v, done) =>
         if done < |v|
         then done < |s.data| && s' == Go(s, t, WHold(v, done + 1)).(data := s.data[done := v[done]])
         else s' == Go(s, t, UStore)
       case UStore => s' == Go(s, t, Idle).(readers := 0)
       case RLoad => s' == Go(s, t, if s.readers < 0 then RLoad else RCas(s.readers))
       case RCas(expected) =>
         s' == if s.readers == expected && !fails then Go(s, t, RHold([])).(readers := Wrap(expected + 1))
               else Go(s, t, RLoad)
       case RHold(copy) =>
         if |copy| < |s.data|
         then s' == Go(s, t, RHold(copy + [s.data[|copy|]]))
         else s' == Go(s, t, SSub).(seen := s.seen + [copy])
       case SSub => s' == Go(s, t, Idle).(readers := Wrap(s.readers - 1))
  }

  ghost predicate Next(s: State, s': State) {
    exists t: nat, fails :: Step(s, s', t, fails)
  }

  ghost predicate Init(s: State) {
    && s.readers == 0 && s.seen == []
    && s.data in s.values && (forall v :: v in s.values ==> |v| == |s.data|)
    && forall t :: 0 <= t < |s.pcs| ==> s.pcs[t] == Idle
  }

  // ----- The lock and its client: one method call is one step of the calling thread -----

  class RwLock {
    var readers: int
    var pcs: seq<Pc>
    var data: string
    const values: set<string>
    ghost var seen: seq<string>

    ghost function Snap(): State
      reads this
    {
      State(readers, pcs, data, values, seen)
    }

    constructor (threads: nat, data: string, values: set<string>)
      requires data in values && forall v :: v in values ==> |v| == |data|
      ensures Init(Snap()) && Inv(Snap()) && |pcs| == threads && this.data == data && this.values == values
    {
      readers := 0;
      this.data, this.values := data, values;
      pcs := seq(threads, i => Idle);
      seen := [];
      new;
      InitInv(Snap());
    }

    method Lock(t: nat, value: string, fails: bool)
      requires t < |pcs| && value in values && (pcs[t].Idle? || pcs[t].WLoad? || pcs[t].WCas?)
      requires Inv(Snap())
      modifies this
      ensures Inv(Snap()) && Step(old(Snap()), Snap(), t, fails)
      ensures old(pcs[t]).Idle? ==> pcs[t] == WLoad(value)
    {
      match pcs[t] {
        case Idle =>
          pcs := pcs[t := WLoad(value)];
        case WLoad(v) =>
          var expected := readers;
          pcs := pcs[t := if expected != 0 then WLoad(v) else WCas(v)];
        case WCas(v) =>
          if readers == 0 && !fails {
            readers := -1;
            pcs := pcs[t := WHold(v, 0)];
          } else {
            pcs := pcs[t := WLoad(v)];
          }
      }
      StepKeepsInv(old(Snap()), Snap(), t, fails);
    }

    /** The client writes one element, and when all are written it unlocks. */
    method WriteAndUnlock(t: nat)
      requires t < |pcs| && (pcs[t].WHold? || pcs[t].UStore?)
      requires Inv(Snap())
      modifies this
      ensures Inv(Snap()) && Step(old(Snap()), Snap(), t, false)
    {
      assert LocalAt(Snap(), t);
      match pcs[t] {
        case WHold(v, done) =>
          if done < |v| {
            data := data[done := v[done]];
            pcs := pcs[t := WHold(v, done + 1)];
          } else {
            pcs := pcs[t := UStore];
          }
        case UStore =>
          readers := 0;
          pcs := pcs[t := Idle];
      }
      StepKeepsInv(old(Snap()), Snap(), t, false);
    }

    method LockShared(t: nat, fails: bool)
      requires t < |pcs| && (pcs[t].Idle? || pcs[t].RLoad? || pcs[t].RCas?)
      requires Inv(Snap())
      modifies this
      ensures Inv(Snap()) && Step(old(Snap()), Snap(), t, fails)
      ensures old(pcs[t]).Idle? ==> pcs[t].RLoad?
    {
      match pcs[t] {
        case Idle =>
          pcs := pcs[t := RLoad];
        case RLoad =>
          var expected := readers;
          pcs := pcs[t := if expected < 0 then RLoad else RCas(expected)];
        case RCas(expected) =>
          if readers == expected && !fails {
            readers := Wrap(expected + 1);
            pcs := pcs[t := RHold([])];
          } else {
            pcs := pcs[t := RLoad];
          }
      }
      StepKeepsInv(old(Snap()), Snap(), t, fails);
    }

    /** The client copies one element, and when all are copied it unlocks. */
    method CopyAndUnlockShared(t: nat)
      requires t < |pcs| && (pcs[t].RHold? || pcs[t].SSub?)
      requires Inv(Snap())
      modifies this
      ensures Inv(Snap()) && Step(old(Snap()), Snap(), t, false)
    {
      match pcs[t] {
        case RHold(copy) =>
          if |copy| < |data| {
            pcs := pcs[t := RHold(copy + [data[|copy|]])];
          } else {
            pcs := pcs[t := SSub];
            seen := seen + [copy];
          }
        case SSub =>
          readers := Wrap(readers - 1);
          pcs := pcs[t := Idle];
      }
      StepKeepsInv(old(Snap()), Snap(), t, false);
    }
  }

  // ----- What every step keeps -----

  predicate IsWriter(pc: Pc) {
    pc.WHold? || pc.UStore?
  }

  predicate IsReader(pc: Pc) {
    pc.RHold? || pc.SSub?
  }

  /**
   The atomic is -1 for one writer, and otherwise the number of readers, which is beyond the 32-bit
   integers by one at most: a reader that finds the atomic negative does not come in.
   */
  ghost predicate CountInv(s: State) {
    || (s.readers == -1 && Count(s.pcs, IsWriter) == 1 && Count(s.pcs, IsReader) == 0)
    || (Count(s.pcs, IsWriter) == 0 && Count(s.pcs, IsReader) <= MAX_INT + 1
        && s.readers == Wrap(Count(s.pcs, IsReader)))
  }

  ghost predicate LocalAt(s: State, t: nat)
    requires t < |s.pcs| && forall v :: v in s.values ==> |v| == |s.data|
  {
    match s.pcs[t]
    case WLoad(v) => v in s.values
    case WCas(v) => v in s.values
    case WHold(v, done) => v in s.values && done <= |v| && s.data[..done] == v[..done]
    case UStore => s.data in s.values
    case RCas(expected) => 0 <= expected <= MAX_INT && expected < |s.pcs|
    case RHold(copy) => copy <= s.data
    case _ => true
  }

  ghost predicate LocalInv(s: State) {
    && (forall v :: v in s.values ==> |v| == |s.data|)
    && (forall i :: 0 <= i < |s.seen| ==> s.seen[i] in s.values)
    && forall t: nat :: t < |s.pcs| ==> LocalAt(s, t)
  }

  /** Unless a writer has the lock, the data are one of the values, whole. */
  ghost predicate DataInv(s: State) {
    s.readers != -1 ==> s.data in s.values
  }

  ghost predicate Inv(s: State) {
    CountInv(s) && LocalInv(s) && DataInv(s)
  }

  lemma InitInv(s: State)
    requires Init(s)
    ensures Inv(s)
  {
    CountNone(s.pcs, IsWriter);
    CountNone(s.pcs, IsReader);
  }

  lemma ReaderKeepsCount(s: State, s': State, t: nat, fails: bool)
    requires CountInv(s) && LocalInv(s) && Step(s, s', t, fails)
    requires s.pcs[t].RLoad? || s.pcs[t].RCas? || s.pcs[t].RHold? || s.pcs[t].SSub?
    ensures CountInv(s')
  {
    assert LocalAt(s, t);
    CountNone(s.pcs, IsReader);
    CountUpdate(s.pcs, IsWriter, t, s'.pcs[t]);
    CountUpdate(s.pcs, IsReader, t, s'.pcs[t]);
    ReaderStep(s, s', t, fails);
    WrapMore(Count(s.pcs, IsReader));
  }

  /** What a step of a reader does to the atomic and to its own hold of the lock. */
  lemma ReaderStep(s: State, s': State, t: nat, fails: bool)
    requires Step(s, s', t, fails)
    requires s.pcs[t].RLoad? || s.pcs[t].RCas? || s.pcs[t].RHold? || s.pcs[t].SSub?
    ensures |s'.pcs| == |s.pcs| && s'.pcs == s.pcs[t := s'.pcs[t]] && !IsWriter(s'.pcs[t])
    ensures IsReader(s'.pcs[t]) && !IsReader(s.pcs[t]) ==>
              s.pcs[t].RCas? && s.readers == s.pcs[t].expected && s'.readers == Wrap(s.readers + 1)
    ensures IsReader(s.pcs[t]) && !IsReader(s'.pcs[t]) ==> s'.readers == Wrap(s.readers - 1)
    ensures IsReader(s.pcs[t]) == IsReader(s'.pcs[t]) ==> s'.readers == s.readers
  {
  }

  lemma WrapMore(n: int)
    requires 0 <= n <= MAX_INT + 1
    ensures Wrap(n) == n || (n == MAX_INT + 1 && Wrap(n) == -MAX_INT - 1)
    ensures Wrap(Wrap(n) - 1) == Wrap(n - 1)
  {
  }

  lemma WriterKeepsCount(s: State, s': State, t: nat, fails: bool)
    requires CountInv(s) && Step(s, s', t, fails)
    requires s.pcs[t].Idle? || s.pcs[t].WLoad? || s.pcs[t].WCas? || s.pcs[t].WHold? || s.pcs[t].UStore?
    ensures CountInv(s')
  {
    CountNone(s.pcs, IsWriter);
    CountUpdate(s.pcs, IsWriter, t, s'.pcs[t]);
    CountUpdate(s.pcs, IsReader, t, s'.pcs[t]);
  }

  /** A writer that has the lock is alone with the data. */
  lemma WriterIsAlone(s: State, t: nat)
    requires CountInv(s) && t < |s.pcs| && IsWriter(s.pcs[t])
    ensures s.readers == -1
    ensures forall u: nat :: u < |s.pcs| && u != t ==> !IsWriter(s.pcs[u]) && !IsReader(s.pcs[u])
  {
    CountNone(s.pcs, IsWriter);
    CountNone(s.pcs, IsReader);
    forall u: nat | u < |s.pcs| && u != t
      ensures !IsWriter(s.pcs[u])
    {
      if IsWriter(s.pcs[u]) {
        CountOne(s.pcs, IsWriter, t, u);
      }
    }
  }

  /** A step of a thread that has the lock for writing: nobody else has a stake in the data. */
  lemma WriterKeepsLocal(s: State, s': State, t: nat, fails: bool)
    requires Inv(s) && Step(s, s', t, fails) && IsWriter(s.pcs[t])
    ensures LocalInv(s')
  {
    WriterIsAlone(s, t);
    assert LocalAt(s, t);
    match s.pcs[t] {
      case WHold(v, done) =>
        if done < |v| {
          assert s'.data[..done + 1] == s.data[..done] + [v[done]] == v[..done + 1];
        } else {
          assert s.data == s.data[..done] == v[..done] == v;
        }
      case UStore =>
    }
    forall u: nat | u < |s'.pcs| && u != t
      ensures LocalAt(s', u)
    {
      assert LocalAt(s, u);
    }
  }

  lemma OthersKeepLocal(s: State, s': State, t: nat, fails: bool)
    requires Inv(s) && Step(s, s', t, fails) && !IsWriter(s.pcs[t])
    ensures LocalInv(s')
  {
    OwnStepKeepsLocal(s, s', t, fails);
    OthersPoints(s, s', t, fails);
    forall u: nat | u < |s'.pcs| && u != t
      ensures LocalAt(s', u)
    {
      LocalStays(s, s', u);
    }
  }

  lemma OthersPoints(s: State, s': State, t: nat, fails: bool)
    requires Step(s, s', t, fails)
    ensures |s'.pcs| == |s.pcs| && s'.values == s.values
    ensures forall u :: 0 <= u < |s.pcs| && u != t ==> s'.pcs[u] == s.pcs[u]
  {
  }

  lemma LocalStays(s: State, s': State, u: nat)
    requires LocalInv(s) && u < |s.pcs| == |s'.pcs| && s'.pcs[u] == s.pcs[u]
    requires s'.data == s.data && s'.values == s.values
    ensures LocalAt(s', u)
  {
    assert LocalAt(s, u);
  }

  lemma OwnStepKeepsLocal(s: State, s': State, t: nat, fails: bool)
    requires Inv(s) && Step(s, s', t, fails) && !IsWriter(s.pcs[t])
    ensures s'.data == s.data && s.values <= s'.values && forall v :: v in s'.values ==> |v| == |s'.data|
    ensures LocalAt(s', t)
    ensures forall i :: 0 <= i < |s'.seen| ==> s'.seen[i] in s'.values
  {
    assert LocalAt(s, t);
    CountAll(s.pcs, IsReader);
    if s.pcs[t].RHold? {
      ReaderCopies(s, t);
    }
  }

  /** A reader copies a prefix of the data, and in the end the data. */
  lemma ReaderCopies(s: State, t: nat)
    requires Inv(s) && t < |s.pcs| && s.pcs[t].RHold?
    ensures var copy := s.pcs[t].copy;
            if |copy| < |s.data| then copy + [s.data[|copy|]] <= s.data else copy in s.values
  {
    assert LocalAt(s, t);
    CountNone(s.pcs, IsReader);
    var copy := s.pcs[t].copy;
    if |copy| < |s.data| {
      assert copy + [s.data[|copy|]] <= s.data;
    } else {
      assert copy == s.data;
    }
  }

  lemma StepKeepsData(s: State, s': State, t: nat, fails: bool)
    requires Inv(s) && Step(s, s', t, fails)
    ensures DataInv(s')
  {
    assert LocalAt(s, t);
    CountNone(s.pcs, IsReader);
    if IsWriter(s.pcs[t]) {
      WriterIsAlone(s, t);
    }
  }

  lemma StepKeepsInv(s: State, s': State, t: nat, fails: bool)
    requires Inv(s) && Step(s, s', t, fails)
    ensures Inv(s')
  {
    if s.pcs[t].RLoad? || s.pcs[t].RCas? || s.pcs[t].RHold? || s.pcs[t].SSub? {
      ReaderKeepsCount(s, s', t, fails);
    } else {
      WriterKeepsCount(s, s', t, fails);
    }
    if IsWriter(s.pcs[t]) {
      WriterKeepsLocal(s, s', t, fails);
    } else {
      OthersKeepLocal(s, s', t, fails);
    }
    StepKeepsData(s, s', t, fails);
  }

  lemma AlwaysInv(run: seq<State>, k: nat)
    requires IsRun(Init, Next, run) && k < |run|
    ensures Inv(run[k])
  {
    forall s | Init(s)
      ensures Inv(s)
    {
      InitInv(s);
    }
    forall s, s' | Inv(s) && Next(s, s')
      ensures Inv(s')
    {
      var t: nat, fails :| Step(s, s', t, fails);
      StepKeepsInv(s, s', t, fails);
    }
    Invariance(Init, Next, Inv, run, k);
  }

  // ----- The theorems -----

  /** The atomic is -1 exactly when one writer has the lock and no reader, and otherwise counts the readers. */
  ghost predicate IsExact(s: State) {
    && (s.readers == -1 <==> Count(s.pcs, IsWriter) == 1)
    && Count(s.pcs, IsWriter) <= 1
    && (s.readers == -1 ==> Count(s.pcs, IsReader) == 0)
    && (s.readers != -1 ==> Count(s.pcs, IsReader) == s.readers)
  }

  lemma CounterIsExact(run: seq<State>, k: nat)
    requires IsRun(Init, Next, run) && k < |run| && |run[k].pcs| <= MAX_INT
    ensures IsExact(run[k])
  {
    AlwaysInv(run, k);
    CountAll(run[k].pcs, IsReader);
  }

  /** However many threads there are, a writer that has the lock shares it with no one. */
  lemma Exclusion(run: seq<State>, k: nat, t: nat, u: nat)
    requires IsRun(Init, Next, run) && k < |run|
    requires t < |run[k].pcs| && u < |run[k].pcs| && t != u && IsWriter(run[k].pcs[t])
    ensures !IsWriter(run[k].pcs[u]) && !IsReader(run[k].pcs[u])
  {
    AlwaysInv(run, k);
    WriterIsAlone(run[k], t);
  }

  /** However many threads there are, no reader ever gets a copy that mixes two values. */
  lemma NoTornRead(run: seq<State>, k: nat, i: nat)
    requires IsRun(Init, Next, run) && k < |run| && i < |run[k].seen|
    ensures run[k].seen[i] in run[k].values
  {
    AlwaysInv(run, k);
  }

  // ----- What a thread has done when it leaves a call -----

  /** The program points of `lock`. */
  predicate InLock(pc: Pc) {
    pc.WLoad? || pc.WCas?
  }

  /** The program points of `lock_shared`. */
  predicate InLockShared(pc: Pc) {
    pc.RLoad? || pc.RCas?
  }

  lemma OthersStay(s: State, s': State, t: nat, fails: bool, v: nat)
    requires Step(s, s', t, fails) && v < |s.pcs|
    ensures |s'.pcs| == |s.pcs| && (v != t ==> s'.pcs[v] == s.pcs[v])
  {
  }

  /** `lock` is left only with the lock, which was free, and the client still has its value, none of it written. */
  lemma LockTakes(s: State, s': State, t: nat, fails: bool, v: nat)
    requires Step(s, s', t, fails) && v < |s.pcs| && InLock(s.pcs[v])
    ensures |s'.pcs| == |s.pcs|
    ensures || (InLock(s'.pcs[v]) && s'.pcs[v].value == s.pcs[v].value)
            || (v == t && s'.pcs[v] == WHold(s.pcs[v].value, 0) && s.readers == 0 && s'.readers == -1)
  {
    OthersStay(s, s', t, fails, v);
  }

  /** The client goes on writing its value until the data are that value, and only then unlocks. */
  lemma WriterWrites(s: State, s': State, t: nat, fails: bool, v: nat)
    requires LocalInv(s) && Step(s, s', t, fails) && v < |s.pcs|
    ensures |s'.pcs| == |s.pcs|
    ensures s.pcs[v].WHold? ==>
              || (s'.pcs[v].WHold? && s'.pcs[v].value == s.pcs[v].value && (v == t ==> s'.pcs[v].done == s.pcs[v].done + 1))
              || (v == t && s'.pcs[v].UStore? && s'.data == s.data == s.pcs[v].value)
    ensures s.pcs[v].UStore? ==> s'.pcs[v].UStore? || (v == t && s'.pcs[v].Idle? && s'.readers == 0)
  {
    OthersStay(s, s', t, fails, v);
    assert LocalAt(s, v);
  }

  /** `lock_shared` is left only with the lock, which no writer had: the thread itself has counted itself. */
  lemma LockSharedTakes(s: State, s': State, t: nat, fails: bool, v: nat)
    requires LocalInv(s) && Step(s, s', t, fails) && v < |s.pcs| && InLockShared(s.pcs[v])
    ensures |s'.pcs| == |s.pcs|
    ensures || InLockShared(s'.pcs[v])
            || (v == t && s'.pcs[v] == RHold([]) && s.readers >= 0 && s'.readers == Wrap(s.readers + 1))
  {
    OthersStay(s, s', t, fails, v);
    assert LocalAt(s, v);
  }

  /** The client goes on copying until its copy is the data, and only then unlocks. */
  lemma ReaderReads(s: State, s': State, t: nat, fails: bool, v: nat)
    requires LocalInv(s) && Step(s, s', t, fails) && v < |s.pcs|
    ensures |s'.pcs| == |s.pcs|
    ensures s.pcs[v].RHold? ==>
              || (s'.pcs[v].RHold? && (v == t ==> |s'.pcs[v].copy| == |s.pcs[v].copy| + 1))
              || (v == t && s'.pcs[v].SSub? && s'.seen == s.seen + [s.data])
    ensures s.pcs[v].SSub? ==> s'.pcs[v].SSub? || (v == t && s'.pcs[v].Idle? && s'.readers == Wrap(s.readers - 1))
  {
    OthersStay(s, s', t, fails, v);
    assert LocalAt(s, v);
    if s.pcs[v].RHold? && |s.pcs[v].copy| >= |s.data| {
      assert s.pcs[v].copy == s.data;
    }
  }

  /** Nothing else changes the atomic, and nobody but a writer that has the lock the data. */
  lemma NothingElse(s: State, s': State, t: nat, fails: bool)
    requires Step(s, s', t, fails)
    ensures |s'.pcs| == |s.pcs| && s'.values == s.values
    ensures s'.readers != s.readers ==> IsWriter(s.pcs[t]) != IsWriter(s'.pcs[t]) || IsReader(s.pcs[t]) != IsReader(s'.pcs[t])
    ensures s'.data != s.data ==> IsWriter(s.pcs[t])
  {
  }

  /** A thread outside a call may call, and any compare-and-swap may fail for no reason. */
  lemma CallsBegin(s: State, s': State, t: nat, fails: bool)
    requires Step(s, s', t, fails)
    ensures |s'.pcs| == |s.pcs|
    ensures s.pcs[t].Idle? ==> s'.pcs[t].RLoad? || (s'.pcs[t].WLoad? && s'.pcs[t].value in s.values)
    ensures s.pcs[t].WCas? ==> Step(s, Go(s, t, WLoad(s.pcs[t].value)), t, true)
    ensures s.pcs[t].RCas? ==> Step(s, Go(s, t, RLoad), t, true)
  {
  }

  /** A free lock is had for writing in two steps that do not fail for no reason. */
  lemma FreeLockIsTaken(s: State, a: State, b: State, t: nat)
    requires t < |s.pcs| && s.pcs[t].WLoad? && s.readers == 0 && Step(s, a, t, false) && Step(a, b, t, false)
    ensures t < |b.pcs| && IsWriter(b.pcs[t]) && b.readers == -1
  {
  }

  /** And one without writer for reading. */
  lemma SharedLockIsTaken(s: State, a: State, b: State, t: nat)
    requires t < |s.pcs| && s.pcs[t].RLoad? && s.readers >= 0 && Step(s, a, t, false) && Step(a, b, t, false)
    ensures t < |b.pcs| && IsReader(b.pcs[t]) && b.readers == Wrap(s.readers + 1)
  {
  }

  /** Thread `v` is between the call of `lock` with `value` and the end of its `unlock`. */
  predicate IsWriting(s: State, v: nat, value: string) {
    v < |s.pcs| && ((InLock(s.pcs[v]) || s.pcs[v].WHold?) && s.pcs[v].value == value)
  }

  lemma NextWrites(s: State, s': State, v: nat, value: string)
    requires LocalInv(s) && Next(s, s') && IsWriting(s, v, value) && !IsWriting(s', v, value)
    ensures v < |s'.pcs| && s'.pcs[v].UStore? && s'.data == value
  {
    var t: nat, fails :| Step(s, s', t, fails);
    if InLock(s.pcs[v]) {
      LockTakes(s, s', t, fails, v);
    } else {
      WriterWrites(s, s', t, fails, v);
    }
  }

  lemma RunWrites(run: seq<State>, k: nat, v: nat, value: string)
    requires IsRun(Init, Next, run) && k + 1 < |run|
    requires IsWriting(run[k], v, value) && !IsWriting(run[k + 1], v, value)
    ensures IsWritten(run[k + 1], v, value)
  {
    AlwaysInv(run, k);
    assert Next(run[k + 1 - 1], run[k + 1]);
    NextWrites(run[k], run[k + 1], v, value);
  }

  /** The value has been written, and `unlock` is about to store zero. */
  predicate IsWritten(s: State, v: nat, value: string) {
    v < |s.pcs| && s.pcs[v].UStore? && s.data == value
  }

  /** So a client that has called `lock` with a value and is no longer writing has written it, whole. */
  lemma WriteIsDone(run: seq<State>, i: nat, j: nat, v: nat, value: string)
    requires IsRun(Init, Next, run) && i <= j < |run| && IsWriting(run[i], v, value) && !IsWriting(run[j], v, value)
    ensures exists k :: i < k <= j && IsWritten(run[k], v, value)
  {
    var k := LastBefore(run, (s: State) => IsWriting(s, v, value), i, j);
    RunWrites(run, k, v, value);
  }

  // ----- With more readers than a 32-bit integer counts, the counter is no longer their number -----

  ghost predicate ReadingUpTo(s: State, n: nat) {
    && n <= |s.pcs| && s.readers == Wrap(n)
    && Count(s.pcs, IsReader) == n
    && forall t :: n <= t < |s.pcs| ==> s.pcs[t] == Idle
  }

  lemma StartReading(s: State, n: nat) returns (a: State, b: State, s': State)
    requires ReadingUpTo(s, n) && n < |s.pcs| && n <= MAX_INT
    ensures Next(s, a) && Next(a, b) && Next(b, s')
    ensures ReadingUpTo(s', n + 1) && |s'.pcs| == |s.pcs|
  {
    a := Go(s, n, RLoad);
    b := Go(a, n, RCas(s.readers));
    s' := Go(b, n, RHold([])).(readers := Wrap(s.readers + 1));
    assert Step(s, a, n, false) && Step(a, b, n, false) && Step(b, s', n, false) by {
      WrapMore(n);
    }
    ReadsToo(s, s', n);
  }

  lemma ReadsToo(s: State, s': State, n: nat)
    requires ReadingUpTo(s, n) && n < |s.pcs| && n <= MAX_INT
    requires s'.pcs == s.pcs[n := RHold([])] && s'.readers == Wrap(s.readers + 1)
    ensures ReadingUpTo(s', n + 1)
  {
    WrapMore(n);
    CountUpdate(s.pcs, IsReader, n, RHold([]));
  }

  /** The first `n` threads take the lock for reading one after the other. */
  lemma {:induction false} ReadAll(s: State, n: nat) returns (run: seq<State>)
    requires Init(s) && n <= |s.pcs| && n <= MAX_INT + 1
    ensures IsRun(Init, Next, run) && run[0] == s
    ensures ReadingUpTo(run[|run| - 1], n) && |run[|run| - 1].pcs| == |s.pcs|
  {
    if n == 0 {
      run := [s];
      CountNone(s.pcs, IsReader);
    } else {
      var before := ReadAll(s, n - 1);
      var a, b, s' := StartReading(before[|before| - 1], n - 1);
      Extend(Init, Next, before, a);
      Extend(Init, Next, before + [a], b);
      Extend(Init, Next, before + [a] + [b], s');
      run := before + [a] + [b] + [s'];
    }
  }

  /** No thread is about to add one to the greatest 32-bit integer. */
  ghost predicate AdditionsFit(s: State) {
    forall t: nat :: t < |s.pcs| && s.pcs[t].RCas? ==> s.pcs[t].expected + 1 <= MAX_INT
  }

  /**
   Exactly when `expected + 1` overflows in no run, which the language leaves undefined: fewer than 2 to
   the 31 threads.
   */
  lemma NoOverflowIffFewThreads(s: State)
    requires Init(s)
    ensures |s.pcs| < 0x8000_0000 <==>
            forall run :: IsRun(Init, Next, run) && run[0] == s ==> AdditionsFit(run[|run| - 1])
  {
    if |s.pcs| <= MAX_INT {
      forall run | IsRun(Init, Next, run) && run[0] == s
        ensures AdditionsFit(run[|run| - 1])
      {
        Constancy(Init, Next, (s: State) => |s.pcs|, run, |run| - 1);
        AlwaysInv(run, |run| - 1);
        var last: State := run[|run| - 1];
        forall t: nat | t < |last.pcs| && last.pcs[t].RCas?
          ensures last.pcs[t].expected < |s.pcs|
        {
          assert LocalAt(last, t);
        }
      }
    } else {
      var run := OverflowRun(s);
    }
  }

  /** One thread more looks at the counter of `MAX_INT` readers. */
  lemma OverflowRun(s: State) returns (run: seq<State>)
    requires Init(s) && |s.pcs| > MAX_INT
    ensures IsRun(Init, Next, run) && run[0] == s && !AdditionsFit(run[|run| - 1])
  {
    var before := ReadAll(s, MAX_INT);
    var last := before[|before| - 1];
    var a := Go(last, MAX_INT, RLoad);
    var b := Go(a, MAX_INT, RCas(MAX_INT));
    assert Step(last, a, MAX_INT, false) && Step(a, b, MAX_INT, false);
    Extend(Init, Next, before, a);
    Extend(Init, Next, before + [a], b);
    run := before + [a] + [b];
    assert b.pcs[MAX_INT].expected == MAX_INT;
  }

  /**
   If the addition wraps around instead, as `fetch_sub` does: exactly when the count is right in every
   run, fewer than 2 to the 31 threads.
   */
  lemma ExactIffFewThreads(s: State)
    requires Init(s)
    ensures |s.pcs| < 0x8000_0000 <==>
            forall run :: IsRun(Init, Next, run) && run[0] == s ==> IsExact(run[|run| - 1])
  {
    if |s.pcs| <= MAX_INT {
      forall run | IsRun(Init, Next, run) && run[0] == s
        ensures IsExact(run[|run| - 1])
      {
        Constancy(Init, Next, (s: State) => |s.pcs|, run, |run| - 1);
        CounterIsExact(run, |run| - 1);
      }
    } else {
      var run := ReadAll(s, MAX_INT + 1);
      assert !IsExact(run[|run| - 1]);
    }
  }
}
