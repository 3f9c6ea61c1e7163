/**
 The ticket lock over two atomic 32-bit unsigned counters that wrap around.  Every access to a
 counter is a step of its own, so `unlock` is a load and a separate store.
 */
module TicketLock {
  import opened Counting
  import opened Runs

  const MODULUS: int := 0x1_0000_0000

  datatype Pc = Idle | Spin(me: int) | Hold | Store(newTurn: int)

  /**
   `takes` lists the threads in the order of their `fetch_add`, so that a position in it is a ticket
   that never wraps; `grants` lists them in the order in which they got the lock, and `released`
   counts the unlocks.
   */
  datatype State = State(turn: int, ticket: int, pcs: seq<Pc>, takes: seq<nat>, grants: seq<nat>, released: nat)

  function Go(s: State, t: nat, pc: Pc): State
    requires t < |s.pcs|
  {
    s.(pcs := s.pcs[t := pc])
  }

  function After(s: State, t: nat): State
    requires t < |s.pcs|
  {
    match s.pcs[t]
    case Idle => Go(s, t, Spin(s.ticket)).(ticket := (s.ticket + 1) % MODULUS, takes := s.takes + [t])
    case Spin(me) => if me == s.turn then Go(s, t, Hold).(grants := s.grants + [t]) else s
    case Hold => Go(s, t, Store(s.turn))
    case Store(newTurn) => Go(s, t, Idle).(turn := (newTurn + 1) % MODULUS, released := s.released + 1)
  }

  ghost predicate Step(s: State, s': State, t: nat) {
    t < |s.pcs| && s' == After(s, t)
  }

  ghost predicate Next(s: State, s': State) {
    exists t: nat :: Step(s, s', t)
  }

  ghost predicate Init(s: State) {
    && s.turn == 0 && s.ticket == 0
    && s.takes == [] && s.grants == [] && s.released == 0
    && forall t :: 0 <= t < |s.pcs| ==> s.pcs[t] == Idle
  }

  // ----- The lock itself: one method call is one step of the calling thread -----

  class Ticketlock {
    var turn: int
    var ticket: int
    var pcs: seq<Pc>
    ghost var takes: seq<nat>
    ghost var grants: seq<nat>
    ghost var released: nat

    ghost function Snap(): State
      reads this
    {
      State(turn, ticket, pcs, takes, grants, released)
    }

    constructor (threads: nat)
      ensures Init(Snap()) && FewInv(Snap()) && |pcs| == threads
    {
      turn, ticket := 0, 0;
      pcs := seq(threads, i => Idle);
      takes, grants, released := [], [], 0;
    }

    method Lock(t: nat)
      requires t < |pcs| && (pcs[t].Idle? || pcs[t].Spin?)
      requires FewInv(Snap())
      modifies this
      ensures FewInv(Snap()) && Step(old(Snap()), Snap(), t)
    {
      match pcs[t] {
        case Idle =>
          var me := ticket;
          ticket := (ticket + 1) % MODULUS;
          pcs := pcs[t := Spin(me)];
          takes := takes + [t];
        case Spin(me) =>
          if me == turn {
            pcs := pcs[t := Hold];
            grants := grants + [t];
          }
      }
      FewStepKeepsInv(old(Snap()), Snap(), t);
    }

    method Unlock(t: nat)
      requires t < |pcs| && (pcs[t].Hold? || pcs[t].Store?)
      requires FewInv(Snap())
      modifies this
      ensures FewInv(Snap()) && Step(old(Snap()), Snap(), t)
    {
      match pcs[t] {
        case Hold =>
          pcs := pcs[t := Store(turn)];
        case Store(newTurn) =>
          turn := (newTurn + 1) % MODULUS;
          pcs := pcs[t := Idle];
          released := released + 1;
      }
      FewStepKeepsInv(old(Snap()), Snap(), t);
    }
  }

  // ----- What every step keeps, for at most `MODULUS` threads -----

  predicate Holds(pc: Pc) {
    pc.Hold? || pc.Store?
  }

  /** The threads that have taken a ticket and not unlocked, in the order of their tickets. */
  ghost function Queue(s: State): seq<nat>
    requires s.released <= |s.takes|
  {
    s.takes[s.released..]
  }

  ghost predicate QueueInv(s: State) {
    && s.released <= |s.takes|
    && s.turn == s.released % MODULUS && s.ticket == |s.takes| % MODULUS
    && Distinct(Queue(s))
    && (forall i :: 0 <= i < |Queue(s)| ==> Queue(s)[i] < |s.pcs|)
    && (forall t: nat :: t < |s.pcs| ==> (t in Queue(s) <==> !s.pcs[t].Idle?))
  }

  /** The thread at place `i` of the queue has the ticket `released + i`; only the first may hold. */
  ghost predicate TicketInv(s: State)
    requires QueueInv(s)
  {
    forall i :: 0 <= i < |Queue(s)| ==>
      var pc := s.pcs[Queue(s)[i]];
      || pc == Spin((s.released + i) % MODULUS)
      || (i == 0 && (pc == Hold || pc == Store(s.turn)))
  }

  ghost predicate HeldBy(s: State, t: nat) {
    t < |s.pcs| && Holds(s.pcs[t])
  }

  ghost function Granted(s: State): nat
    requires QueueInv(s)
  {
    s.released + if |Queue(s)| > 0 && HeldBy(s, Queue(s)[0]) then 1 else 0
  }

  ghost predicate Inv(s: State) {
    QueueInv(s) && TicketInv(s) && s.grants == s.takes[..Granted(s)]
  }

  /** Of `MODULUS` tickets in a row no two are the same. */
  lemma SameResidue(a: nat, i: nat)
    requires i < MODULUS && (a + i) % MODULUS == a % MODULUS
    ensures i == 0
  {
  }

  /** In the queue, only the first thread's ticket is the one that is called. */
  lemma CalledIsFirst(s: State, t: nat)
    requires Inv(s) && |s.pcs| <= MODULUS && t < |s.pcs|
    requires s.pcs[t] == Spin(s.turn) || Holds(s.pcs[t])
    ensures |Queue(s)| > 0 && Queue(s)[0] == t
  {
    assert t in Queue(s);
    var i :| 0 <= i < |Queue(s)| && Queue(s)[i] == t;
    Pigeonhole(Queue(s), |s.pcs|);
    if s.pcs[t] == Spin(s.turn) {
      SameResidue(s.released, i);
    }
  }

  lemma NextResidue(a: int)
    ensures (a % MODULUS + 1) % MODULUS == (a + 1) % MODULUS
  {
  }

  lemma TakeExtendsQueue(s: State, s': State, t: nat)
    requires QueueInv(s) && Step(s, s', t) && s.pcs[t].Idle?
    ensures QueueInv(s') && Queue(s') == Queue(s) + [t]
  {
    NextResidue(|s.takes|);
    assert Queue(s') == Queue(s) + [t];
    assert t !in Queue(s);
  }

  lemma TakeKeepsTickets(s: State, s': State, t: nat)
    requires QueueInv(s) && TicketInv(s) && Step(s, s', t) && s.pcs[t].Idle?
    requires QueueInv(s') && Queue(s') == Queue(s) + [t]
    ensures TicketInv(s')
  {
    var n := |Queue(s)|;
    forall i | 0 <= i < |Queue(s')|
      ensures var pc := s'.pcs[Queue(s')[i]];
              || pc == Spin((s'.released + i) % MODULUS)
              || (i == 0 && (pc == Hold || pc == Store(s'.turn)))
    {
      if i == n {
        assert s'.pcs[t] == Spin(|s.takes| % MODULUS);
      } else {
        assert Queue(s')[i] == Queue(s)[i] != t;
      }
    }
  }

  lemma TakeKeepsGranted(s: State, s': State, t: nat)
    requires QueueInv(s) && QueueInv(s') && Step(s, s', t) && s.pcs[t].Idle?
    requires Queue(s') == Queue(s) + [t]
    ensures Granted(s') == Granted(s)
  {
    if Queue(s) == [] {
      assert Queue(s')[0] == t;
    } else {
      assert Queue(s')[0] == Queue(s)[0] != t;
    }
  }

  lemma TakeKeepsInv(s: State, s': State, t: nat)
    requires Inv(s) && Step(s, s', t) && s.pcs[t].Idle?
    ensures Inv(s')
  {
    TakeExtendsQueue(s, s', t);
    TakeKeepsTickets(s, s', t);
    TakeKeepsGranted(s, s', t);
    PrefixKept(s.takes, t, Granted(s));
  }

  lemma PrefixKept(q: seq<nat>, t: nat, n: nat)
    requires n <= |q|
    ensures (q + [t])[..n] == q[..n]
  {
  }

  lemma SpinKeepsInv(s: State, s': State, t: nat)
    requires Inv(s) && |s.pcs| <= MODULUS && Step(s, s', t) && s.pcs[t].Spin?
    ensures Inv(s')
  {
    if s' != s {
      CalledIsFirst(s, t);
      assert Queue(s') == Queue(s);
    }
  }

  lemma LoadKeepsInv(s: State, s': State, t: nat)
    requires Inv(s) && |s.pcs| <= MODULUS && Step(s, s', t) && s.pcs[t].Hold?
    ensures Inv(s')
  {
    CalledIsFirst(s, t);
    assert Queue(s') == Queue(s);
  }

  lemma StoreShortensQueue(s: State, s': State, t: nat)
    requires Inv(s) && |s.pcs| <= MODULUS && Step(s, s', t) && s.pcs[t].Store?
    ensures QueueInv(s') && Queue(s)[0] == t && Queue(s') == Queue(s)[1..] && Granted(s) == s.released + 1
  {
    CalledIsFirst(s, t);
    NextResidue(s.released);
    assert Queue(s') == Queue(s)[1..];
    assert Queue(s) == [t] + Queue(s');
  }

  /** The thread that stores leaves the queue, and the others keep their tickets. */
  lemma StoreKeepsTickets(s: State, s': State, t: nat)
    requires QueueInv(s) && TicketInv(s) && QueueInv(s') && Step(s, s', t) && s.pcs[t].Store?
    requires |Queue(s)| > 0 && Queue(s)[0] == t && Queue(s') == Queue(s)[1..]
    ensures forall i :: 0 <= i < |Queue(s')| ==> s'.pcs[Queue(s')[i]] == Spin((s'.released + i) % MODULUS)
  {
    forall i | 0 <= i < |Queue(s')|
      ensures s'.pcs[Queue(s')[i]] == Spin((s'.released + i) % MODULUS)
    {
      assert Queue(s')[i] == Queue(s)[i + 1] != Queue(s)[0];
      assert s.released + (i + 1) == s'.released + i;
    }
  }

  lemma StoreKeepsInv(s: State, s': State, t: nat)
    requires Inv(s) && |s.pcs| <= MODULUS && Step(s, s', t) && s.pcs[t].Store?
    ensures Inv(s')
  {
    StoreShortensQueue(s, s', t);
    StoreKeepsTickets(s, s', t);
    assert Granted(s') == s'.released;
  }

  lemma StepKeepsInv(s: State, s': State, t: nat)
    requires Inv(s) && |s.pcs| <= MODULUS && Step(s, s', t)
    ensures Inv(s') && |s'.pcs| == |s.pcs|
  {
    match s.pcs[t]
    case Idle => TakeKeepsInv(s, s', t);
    case Spin(_) => SpinKeepsInv(s, s', t);
    case Hold => LoadKeepsInv(s, s', t);
    case Store(_) => StoreKeepsInv(s, s', t);
  }

  ghost predicate FewInv(s: State) {
    |s.pcs| <= MODULUS ==> Inv(s)
  }

  lemma FewStepKeepsInv(s: State, s': State, t: nat)
    requires FewInv(s) && Step(s, s', t)
    ensures FewInv(s')
  {
    if |s.pcs| <= MODULUS {
      StepKeepsInv(s, s', t);
    }
  }

  lemma AlwaysInv(run: seq<State>, k: nat)
    requires IsRun(Init, Next, run) && k < |run| && |run[k].pcs| <= MODULUS
    ensures Inv(run[k])
  {
    forall s, s' | FewInv(s) && Next(s, s')
      ensures FewInv(s')
    {
      var t: nat :| Step(s, s', t);
      FewStepKeepsInv(s, s', t);
    }
    Invariance(Init, Next, FewInv, run, k);
  }

  // ----- The theorems -----

  /** At most one thread holds the lock, also between the load and the store of its `unlock`. */
  lemma Exclusion(run: seq<State>, k: nat, t: nat, u: nat)
    requires IsRun(Init, Next, run) && k < |run| && |run[k].pcs| <= MODULUS
    requires HeldBy(run[k], t) && HeldBy(run[k], u)
    ensures t == u
  {
    AlwaysInv(run, k);
    CalledIsFirst(run[k], t);
    CalledIsFirst(run[k], u);
  }

  /** The lock is granted in the order of the `fetch_add`s, and never taken from its holder. */
  lemma GrantsFollowTickets(run: seq<State>, k: nat)
    requires IsRun(Init, Next, run) && k < |run| && |run[k].pcs| <= MODULUS
    ensures run[k].grants <= run[k].takes
    ensures run[k].released <= |run[k].grants| <= run[k].released + 1
  {
    AlwaysInv(run, k);
  }

  // ----- Progress -----

  /** The first of the queue never spins in vain: its ticket is the one that is called. */
  lemma FirstCanStep(s: State)
    requires Inv(s) && Queue(s) != []
    ensures Queue(s)[0] < |s.pcs| && After(s, Queue(s)[0]).pcs != s.pcs
  {
    var t := Queue(s)[0];
    assert s.pcs[t] == Spin(s.released % MODULUS) || s.pcs[t] == Hold || s.pcs[t] == Store(s.turn);
    assert After(s, t).pcs[t] != s.pcs[t];
  }

  /** While some thread is in a call or holds the lock, the first of the queue has a step that changes the state. */
  lemma Progress(run: seq<State>, k: nat) returns (t: nat, s': State)
    requires IsRun(Init, Next, run) && k < |run| && |run[k].pcs| <= MODULUS
    requires exists u :: 0 <= u < |run[k].pcs| && !run[k].pcs[u].Idle?
    ensures run[k].released < |run[k].takes| && t == run[k].takes[run[k].released]
    ensures Step(run[k], s', t) && s' != run[k]
  {
    AlwaysInv(run, k);
    var u: nat :| u < |run[k].pcs| && !run[k].pcs[u].Idle?;
    assert u in Queue(run[k]);
    FirstCanStep(run[k]);
    t := Queue(run[k])[0];
    s' := After(run[k], t);
  }

  /** The steps that the first of the queue has left until it has unlocked. */
  function StepsLeft(pc: Pc): nat {
    match pc
    case Idle => 0
    case Store(_) => 1
    case Hold => 2
    case Spin(_) => 3
  }

  /** The steps until place `i` holds the lock, where `first` is the program point of the first. */
  function StepsTo(i: nat, first: Pc): int {
    if i == 0 then (if Holds(first) then 0 else 1) else 3 * (i - 1) + StepsLeft(first) + 1
  }

  /** A step of the first thread brings place `i` one step nearer to the lock. */
  lemma FirstStepServes(s: State, s': State, i: nat)
    requires Inv(s) && |s.pcs| <= MODULUS && i < |Queue(s)| && StepsTo(i, s.pcs[Queue(s)[0]]) > 0
    requires s' == After(s, Queue(s)[0])
    ensures Inv(s') && Next(s, s') && |s'.pcs| == |s.pcs|
    ensures var j := if s.pcs[Queue(s)[0]].Store? then i - 1 else i;
            && 0 <= j < |Queue(s')| && Queue(s')[j] == Queue(s)[i]
            && StepsTo(j, s'.pcs[Queue(s')[0]]) < StepsTo(i, s.pcs[Queue(s)[0]])
  {
    var first := Queue(s)[0];
    FirstCanStep(s);
    assert Step(s, s', first);
    StepKeepsInv(s, s', first);
    if s.pcs[first].Store? {
      StoreShortensQueue(s, s', first);
      StoreKeepsTickets(s, s', first);
    } else {
      assert Queue(s') == Queue(s);
    }
  }

  lemma {:induction false} ServePlace(run: seq<State>, i: nat) returns (longer: seq<State>)
    requires IsRun(Init, Next, run) && Inv(run[|run| - 1]) && |run[|run| - 1].pcs| <= MODULUS
    requires i < |Queue(run[|run| - 1])|
    ensures IsRun(Init, Next, longer) && run <= longer && HeldBy(longer[|longer| - 1], Queue(run[|run| - 1])[i])
    ensures |longer| <= |run| + StepsTo(i, run[|run| - 1].pcs[Queue(run[|run| - 1])[0]])
    decreases StepsTo(i, run[|run| - 1].pcs[Queue(run[|run| - 1])[0]])
  {
    var s := run[|run| - 1];
    var first := s.pcs[Queue(s)[0]];
    if StepsTo(i, first) == 0 {
      longer := run;
    } else {
      var s' := After(s, Queue(s)[0]);
      FirstStepServes(s, s', i);
      Extend(Init, Next, run, s');
      longer := ServePlace(run + [s'], if first.Store? then i - 1 else i);
    }
  }

  /**
   A waiting thread at place `i` of the queue needs at most `3 * i + 1` steps, of those in front of it
   and its own, to get the lock.
   */
  lemma EveryTicketIsServed(run: seq<State>, t: nat) returns (longer: seq<State>)
    requires IsRun(Init, Next, run) && |run[|run| - 1].pcs| <= MODULUS
    requires t < |run[|run| - 1].pcs| && run[|run| - 1].pcs[t].Spin?
    ensures IsRun(Init, Next, longer) && run <= longer && HeldBy(longer[|longer| - 1], t)
    ensures var s := run[|run| - 1];
            s.released <= |s.takes| && exists i: nat :: i < |Queue(s)| && Queue(s)[i] == t && |longer| <= |run| + 3 * i + 1
  {
    AlwaysInv(run, |run| - 1);
    var s := run[|run| - 1];
    assert t in Queue(s);
    var i: nat :| i < |Queue(s)| && Queue(s)[i] == t;
    longer := ServePlace(run, i);
  }

  // ----- What a thread has done when it leaves a call -----

  /** `lock` begins with a ticket that nobody else gets, and keeps it until the thread has the lock. */
  lemma LockTakes(s: State, s': State, t: nat, v: nat)
    requires Step(s, s', t) && v < |s.pcs|
    ensures |s'.pcs| == |s.pcs|
    ensures s.pcs[v].Idle? ==>
              || (v != t && s'.pcs[v].Idle?)
              || (v == t && s'.pcs[v] == Spin(s.ticket) && s'.ticket == (s.ticket + 1) % MODULUS
                  && s'.takes == s.takes + [v])
    ensures s.pcs[v].Spin? ==>
              || s'.pcs[v] == s.pcs[v]
              || (v == t && s.pcs[v].me == s.turn && s'.pcs[v].Hold? && s'.grants == s.grants + [v])
  {
  }

  /** A thread keeps the lock until it has called the next ticket, and that is the end of its `unlock`. */
  lemma UnlockCallsNext(s: State, s': State, t: nat, v: nat)
    requires Inv(s) && |s.pcs| <= MODULUS && Step(s, s', t) && v < |s.pcs| && Holds(s.pcs[v])
    ensures |s'.pcs| == |s.pcs|
    ensures || Holds(s'.pcs[v])
            || (v == t && s'.pcs[v].Idle? && s'.turn == (s.turn + 1) % MODULUS && s'.released == s.released + 1)
  {
    CalledIsFirst(s, v);
  }

  /** Nothing else changes the two counters. */
  lemma NothingElse(s: State, s': State, t: nat)
    requires Step(s, s', t)
    ensures |s'.pcs| == |s.pcs|
    ensures s'.ticket != s.ticket ==> s.pcs[t].Idle? && s'.pcs[t].Spin?
    ensures s'.turn != s.turn ==> Holds(s.pcs[t]) && s'.pcs[t].Idle?
  {
  }

  // ----- Refinement of a first-in-first-out lock with no counters at all -----

  datatype Fifo = Fifo(queue: seq<nat>, held: bool)

  ghost predicate FifoStep(f: Fifo, f': Fifo, t: nat) {
    || (t !in f.queue && f' == f.(queue := f.queue + [t]))
    || (|f.queue| > 0 && t == f.queue[0] && !f.held && f' == f.(held := true))
    || (|f.queue| > 0 && t == f.queue[0] && f.held && f' == Fifo(f.queue[1..], false))
  }

  ghost function Abstract(s: State): Fifo
    requires QueueInv(s)
  {
    Fifo(Queue(s), |Queue(s)| > 0 && HeldBy(s, Queue(s)[0]))
  }

  /** Every step of the ticket lock is one of the queue lock, or changes nothing there. */
  lemma RefinesFifo(s: State, s': State, t: nat)
    requires Inv(s) && Inv(s') && |s.pcs| <= MODULUS && Step(s, s', t)
    ensures FifoStep(Abstract(s), Abstract(s'), t) || Abstract(s') == Abstract(s)
    ensures s.pcs[t].Idle? || (s.pcs[t].Spin? && s' != s) || s.pcs[t].Store? ==>
              FifoStep(Abstract(s), Abstract(s'), t)
  {
    match s.pcs[t]
    case Idle =>
      assert Queue(s') == Queue(s) + [t];
      TakeKeepsGranted(s, s', t);
      assert t !in Queue(s);
    case Spin(_) =>
      if s' != s {
        CalledIsFirst(s, t);
        assert Queue(s') == Queue(s);
      }
    case Hold =>
      assert Queue(s') == Queue(s);
    case Store(_) =>
      StoreShortensQueue(s, s', t);
      CalledIsFirst(s, t);
      NextDoesNotHold(s, s', t);
  }

  lemma NextDoesNotHold(s: State, s': State, t: nat)
    requires Inv(s) && Inv(s') && |s.pcs| <= MODULUS && Step(s, s', t) && s.pcs[t].Store?
    requires Queue(s') == Queue(s)[1..] && Queue(s)[0] == t
    ensures |Queue(s')| > 0 ==> !HeldBy(s', Queue(s')[0])
  {
    if |Queue(s')| > 0 && HeldBy(s', Queue(s')[0]) {
      assert Queue(s')[0] == Queue(s)[1] != t;
      CalledIsFirst(s, Queue(s')[0]);
    }
  }

  /** So every run of the ticket lock, without its steps that change nothing there, is a run of the queue lock. */
  lemma RunRefinesFifo(run: seq<State>, k: nat, t: nat)
    requires IsRun(Init, Next, run) && k + 1 < |run| && |run[0].pcs| <= MODULUS && Step(run[k], run[k + 1], t)
    ensures QueueInv(run[k]) && QueueInv(run[k + 1])
    ensures FifoStep(Abstract(run[k]), Abstract(run[k + 1]), t) || Abstract(run[k + 1]) == Abstract(run[k])
    ensures k == 0 ==> Abstract(run[k]) == Fifo([], false)
  {
    Constancy(Init, Next, (s: State) => |s.pcs|, run, k);
    Constancy(Init, Next, (s: State) => |s.pcs|, run, k + 1);
    AlwaysInv(run, k);
    AlwaysInv(run, k + 1);
    RefinesFifo(run[k], run[k + 1], t);
  }

  // ----- With one thread more than there are tickets, the lock fails -----

  ghost predicate TakenUpTo(s: State, n: nat) {
    && n <= |s.pcs| && s.turn == 0 && s.ticket == n % MODULUS
    && (forall t: nat :: t < n ==> s.pcs[t] == Spin(t % MODULUS))
    && (forall t: nat :: n <= t < |s.pcs| ==> s.pcs[t] == Idle)
  }

  /** The first `n` threads take their tickets one after the other. */
  lemma {:induction false} TakeAll(s: State, n: nat) returns (run: seq<State>)
    requires Init(s) && n <= |s.pcs|
    ensures IsRun(Init, Next, run) && run[0] == s
    ensures TakenUpTo(run[|run| - 1], n) && |run[|run| - 1].pcs| == |s.pcs|
  {
    if n == 0 {
      run := [s];
    } else {
      var before := TakeAll(s, n - 1);
      var last := before[|before| - 1];
      NextTakes(last, n - 1);
      Extend(Init, Next, before, After(last, n - 1));
      run := before + [After(last, n - 1)];
    }
  }

  lemma NextTakes(s: State, n: nat)
    requires n < |s.pcs| && TakenUpTo(s, n)
    ensures Next(s, After(s, n)) && TakenUpTo(After(s, n), n + 1) && |After(s, n).pcs| == |s.pcs|
  {
    NextResidue(n);
    assert Step(s, After(s, n), n);
  }

  /** The thread whose ticket is the first one come round again gets the lock together with the first. */
  lemma TooManyThreads(s: State) returns (run: seq<State>)
    requires Init(s) && |s.pcs| > MODULUS
    ensures IsRun(Init, Next, run) && run[0] == s
    ensures HeldBy(run[|run| - 1], 0) && HeldBy(run[|run| - 1], MODULUS)
  {
    var before := TakeAll(s, MODULUS + 1);
    var last := before[|before| - 1];
    var first := After(last, 0);
    assert Step(last, first, 0);
    var both := After(first, MODULUS);
    assert Step(first, both, MODULUS);
    Extend(Init, Next, before, first);
    Extend(Init, Next, before + [first], both);
    run := before + [first] + [both];
  }

  ghost predicate Excludes(s: State) {
    forall t: nat, u: nat :: HeldBy(s, t) && HeldBy(s, u) ==> t == u
  }

  /** Exactly when the lock excludes: no more threads than there are tickets. */
  lemma ExclusionIffEnoughTickets(s: State)
    requires Init(s)
    ensures |s.pcs| <= 0x1_0000_0000 <==>
            forall run :: IsRun(Init, Next, run) && run[0] == s ==> Excludes(run[|run| - 1])
  {
    if |s.pcs| <= MODULUS {
      forall run | IsRun(Init, Next, run) && run[0] == s
        ensures Excludes(run[|run| - 1])
      {
        Constancy(Init, Next, (s: State) => |s.pcs|, run, |run| - 1);
        var last := run[|run| - 1];
        forall t: nat, u: nat | HeldBy(last, t) && HeldBy(last, u)
          ensures t == u
        {
          Exclusion(run, |run| - 1, t, u);
        }
      }
    } else {
      var run := TooManyThreads(s);
    }
  }
}
