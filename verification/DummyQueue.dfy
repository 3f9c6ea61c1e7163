/**
 The two-lock queue `threadsafe_queue_with_dummy_node`: a singly linked list whose last node is a
 dummy, with one mutex for the head and one for the tail.  Pushes and pops run at the same time.
 Every assignment to a field and every acquisition of a mutex is a step of its own; the release of
 the last mutex is taken together with the last assignment.
 */
module DummyQueue {
  import opened QueueHistory
  import opened Runs
  import opened Wrappers

  /** Nodes are named by their address; a freed address may be used again. */
  datatype Node<T> = Node(data: Option<T>, next: Option<nat>)

  datatype Pc<T> =
    | Idle
      // push(e) with the node that it has allocated
    | PWant(e: T, node: nat) | PData(e: T, node: nat) | PLink(e: T, node: nat) | PTail(e: T, node: nat)
      // try_pop(), first with the head mutex wanted, then with the tail mutex wanted
    | QWant | QTail | QCompare
    | QData | QNext(ret: Option<T>) | QHead(ret: Option<T>, next: Option<nat>)

  /**
   `chain` lists the nodes from head to tail; `pushed` and `popped` list the values in the order in
   which `push` moved the tail and `try_pop` moved the head.
   */
  datatype State<T> = State(
    heap: map<nat, Node<T>>, head: nat, tail: nat,
    headMutex: Option<nat>, tailMutex: Option<nat>, pcs: seq<Pc<T>>,
    chain: seq<nat>, pushed: seq<T>, popped: seq<Option<T>>)

  /** The program points at which a thread has the tail mutex. */
  predicate HasTail<T>(pc: Pc<T>) {
    pc.PData? || pc.PLink? || pc.PTail? || pc.QCompare?
  }

  /** The program points of `push` after it has allocated its node. */
  predicate HasNode<T>(pc: Pc<T>) {
    pc.PWant? || pc.PData? || pc.PLink? || pc.PTail?
  }

  /** The program points at which a thread has the head mutex. */
  predicate HasHead<T>(pc: Pc<T>) {
    pc.QTail? || pc.QCompare? || pc.QData? || pc.QNext? || pc.QHead?
  }

  function Go<T>(s: State<T>, t: nat, pc: Pc<T>): State<T>
    requires t < |s.pcs|
  {
    s.(pcs := s.pcs[t := pc])
  }

  /** The thread is not blocked on a mutex. */
  predicate Unblocked<T>(s: State<T>, t: nat)
    requires t < |s.pcs|
  {
    && (s.pcs[t].PWant? || s.pcs[t].QTail? ==> s.tailMutex == None)
    && (s.pcs[t].QWant? ==> s.headMutex == None)
  }

  /** The nodes that the thread's next step reads or writes have not been freed. */
  predicate Safe<T>(s: State<T>, t: nat)
    requires t < |s.pcs|
  {
    match s.pcs[t]
    case PData(_, _) => s.tail in s.heap
    case PLink(_, _) => s.tail in s.heap
    case QData => s.head in s.heap
    case QNext(_) => s.head in s.heap
    case QHead(_, next) => s.head in s.heap && next.Some?
    case _ => true
  }

  /** What a thread does next once it is in a call; the values of `push` come from its start. */
  function After<T>(s: State<T>, t: nat): State<T>
    requires t < |s.pcs| && Safe(s, t)
  {
    match s.pcs[t]
    case Idle => s
    case PWant(e, node) => Go(s, t, PData(e, node)).(tailMutex := Some(t))
    case PData(e, node) =>
      Go(s, t, PLink(e, node)).(heap := s.heap[s.tail := s.heap[s.tail].(data := Some(e))])
    case PLink(e, node) =>
      Go(s, t, PTail(e, node)).(heap := s.heap[s.tail := s.heap[s.tail].(next := Some(node))])
    case PTail(e, node) =>
      Go(s, t, Idle).(tail := node, tailMutex := None, chain := s.chain + [node], pushed := s.pushed + [e])
    case QWant => Go(s, t, QTail).(headMutex := Some(t))
    case QTail => Go(s, t, QCompare).(tailMutex := Some(t))
    case QCompare =>
      if s.head == s.tail then Go(s, t, Idle).(tailMutex := None, headMutex := None)
      else Go(s, t, QData).(tailMutex := None)
    case QData =>
      Go(s, t, QNext(s.heap[s.head].data)).(heap := s.heap[s.head := s.heap[s.head].(data := None)])
    case QNext(ret) =>
      Go(s, t, QHead(ret, s.heap[s.head].next)).(heap := s.heap[s.head := s.heap[s.head].(next := None)])
    case QHead(ret, next) =>
      Go(s, t, Idle).(
        heap := s.heap - {s.head}, head := next.value, headMutex := None,
        chain := if s.chain == [] then [] else s.chain[1..], popped := s.popped + [ret])
  }

  ghost predicate Step<T(!new)>(s: State<T>, s': State<T>, t: nat) {
    && t < |s.pcs|
    && Unblocked(s, t)
    && if s.pcs[t].Idle? then s' == Go(s, t, QWant) || exists e, node :: StartsPush(s, s', t, e, node)
       else Safe(s, t) && s' == After(s, t)
  }

  /** `push` allocates its node, which holds a copy of the value of its own, before it locks. */
  predicate StartsPush<T(==)>(s: State<T>, s': State<T>, t: nat, e: T, node: nat)
    requires t < |s.pcs|
  {
    node !in s.heap && s' == Go(s, t, PWant(e, node)).(heap := s.heap[node := Node(Some(e), None)])
  }

  ghost predicate Next<T(!new)>(s: State<T>, s': State<T>) {
    exists t: nat :: Step(s, s', t)
  }

  ghost predicate Init<T>(s: State<T>) {
    && s.head == s.tail && s.heap == map[s.head := Node(None, None)]
    && s.headMutex == None && s.tailMutex == None
    && s.chain == [s.head] && s.pushed == [] && s.popped == []
    && forall t :: 0 <= t < |s.pcs| ==> s.pcs[t] == Idle
  }

  // ----- The queue itself: one method call is one step of the calling thread -----

  class Queue<T(==, !new)> {
    var heap: map<nat, Node<T>>
    var head: nat
    var tail: nat
    var headMutex: Option<nat>
    var tailMutex: Option<nat>
    var pcs: seq<Pc<T>>
    var chain: seq<nat>
    var pushed: seq<T>
    var popped: seq<Option<T>>

    ghost function Snap(): State<T>
      reads this
    {
      State(heap, head, tail, headMutex, tailMutex, pcs, chain, pushed, popped)
    }

    constructor (threads: nat)
      ensures Init(Snap()) && Inv(Snap()) && |pcs| == threads
    {
      heap := map[0 := Node(None, None)];
      head, tail := 0, 0;
      headMutex, tailMutex := None, None;
      pcs := seq(threads, i => Idle);
      chain, pushed, popped := [0], [], [];
    }

    method Push(t: nat, e: T, address: nat)
      requires t < |pcs| && (pcs[t].Idle? || HasNode(pcs[t]))
      requires Unblocked(Snap(), t) && (pcs[t].Idle? ==> address !in heap)
      requires Inv(Snap())
      modifies this
      ensures Inv(Snap()) && Step(old(Snap()), Snap(), t)
      ensures old(pcs[t]).Idle? ==> pcs[t] == PWant(e, address)
    {
      match pcs[t] {
        case Idle =>
          heap := heap[address := Node(Some(e), None)];
          pcs := pcs[t := PWant(e, address)];
          assert StartsPush(old(Snap()), Snap(), t, e, address);
        case PWant(v, node) =>
          tailMutex, pcs := Some(t), pcs[t := PData(v, node)];
        case PData(v, node) =>
          heap := heap[tail := heap[tail].(data := Some(v))];
          pcs := pcs[t := PLink(v, node)];
        case PLink(v, node) =>
          heap := heap[tail := heap[tail].(next := Some(node))];
          pcs := pcs[t := PTail(v, node)];
        case PTail(v, node) =>
          tail := node;
          tailMutex, pcs := None, pcs[t := Idle];
          chain, pushed := chain + [node], pushed + [v];
      }
      StepKeepsInv(old(Snap()), Snap(), t);
    }

    method TryPop(t: nat)
      requires t < |pcs| && (pcs[t].Idle? || pcs[t].QWant? || HasHead(pcs[t]))
      requires Unblocked(Snap(), t)
      requires Inv(Snap())
      modifies this
      ensures Inv(Snap()) && Step(old(Snap()), Snap(), t)
      ensures old(pcs[t]).Idle? ==> pcs[t].QWant?
    {
      match pcs[t] {
        case Idle =>
          pcs := pcs[t := QWant];
        case QWant =>
          headMutex, pcs := Some(t), pcs[t := QTail];
        case QTail =>
          tailMutex, pcs := Some(t), pcs[t := QCompare];
        case QCompare =>
          tailMutex := None;
          if head == tail {
            headMutex, pcs := None, pcs[t := Idle];
          } else {
            pcs := pcs[t := QData];
          }
        case QData =>
          pcs := pcs[t := QNext(heap[head].data)];
          heap := heap[head := heap[head].(data := None)];
        case QNext(ret) =>
          pcs := pcs[t := QHead(ret, heap[head].next)];
          heap := heap[head := heap[head].(next := None)];
        case QHead(ret, next) =>
          heap := heap - {head};
          head := next.value;
          headMutex, pcs := None, pcs[t := Idle];
          chain, popped := if chain == [] then [] else chain[1..], popped + [ret];
      }
      StepKeepsInv(old(Snap()), Snap(), t);
    }
  }

  // ----- What every step keeps -----

  /** The thread with the head mutex; `Idle` if there is none. */
  ghost function Popper<T>(s: State<T>): Pc<T> {
    if s.headMutex.Some? && s.headMutex.value < |s.pcs| then s.pcs[s.headMutex.value] else Idle
  }

  /** The thread with the tail mutex; `Idle` if there is none. */
  ghost function Pusher<T>(s: State<T>): Pc<T> {
    if s.tailMutex.Some? && s.tailMutex.value < |s.pcs| then s.pcs[s.tailMutex.value] else Idle
  }

  ghost predicate HeadMutexInv<T>(s: State<T>) {
    && (forall t :: 0 <= t < |s.pcs| ==> (HasHead(s.pcs[t]) <==> s.headMutex == Some(t)))
    && (s.headMutex.Some? ==> s.headMutex.value < |s.pcs|)
  }

  ghost predicate TailMutexInv<T>(s: State<T>) {
    && (forall t :: 0 <= t < |s.pcs| ==> (HasTail(s.pcs[t]) <==> s.tailMutex == Some(t)))
    && (s.tailMutex.Some? ==> s.tailMutex.value < |s.pcs|)
  }

  ghost predicate MutexInv<T>(s: State<T>) {
    HeadMutexInv(s) && TailMutexInv(s)
  }

  ghost predicate ShapeInv<T>(s: State<T>) {
    && |s.chain| >= 1 && s.chain[0] == s.head && s.chain[|s.chain| - 1] == s.tail
    && (forall i, j :: 0 <= i < j < |s.chain| ==> s.chain[i] != s.chain[j])
    && (forall i :: 0 <= i < |s.chain| ==> s.chain[i] in s.heap)
  }

  /**
   The node at place `i` leads to the next one and holds the next value to be popped after `i` more,
   but for what a pop has already moved out of the first node.
   */
  ghost predicate NodeInv<T>(s: State<T>, i: int)
    requires ShapeInv(s) && 0 <= i < |s.chain| - 1 && |s.pushed| == |s.popped| + |s.chain| - 1
  {
    var node := s.heap[s.chain[i]];
    && node.next == (if i == 0 && Popper(s).QHead? then None else Some(s.chain[i + 1]))
    && node.data ==
       if i == 0 && (Popper(s).QNext? || Popper(s).QHead?) then None else Some(s.pushed[|s.popped| + i])
  }

  /** The list is linked from head to tail and holds, in order, what has been pushed and not popped. */
  ghost predicate ListInv<T>(s: State<T>)
    requires ShapeInv(s)
  {
    && |s.pushed| == |s.popped| + |s.chain| - 1
    && (forall i :: 0 <= i < |s.popped| ==> s.popped[i] == Some(s.pushed[i]))
    && (forall i :: 0 <= i < |s.chain| - 1 ==> NodeInv(s, i))
    && s.heap[s.tail].next == if Pusher(s).PTail? then Some(Pusher(s).node) else None
  }

  /** A pop that has found the queue not empty owns the first of at least two nodes. */
  ghost predicate PopInv<T>(s: State<T>)
    requires ShapeInv(s) && ListInv(s)
  {
    match Popper(s)
    case QData => |s.chain| >= 2
    case QNext(ret) => |s.chain| >= 2 && ret == Some(s.pushed[|s.popped|])
    case QHead(ret, next) => |s.chain| >= 2 && ret == Some(s.pushed[|s.popped|]) && next == Some(s.chain[1])
    case _ => true
  }

  /** Each push under way has a fresh node of its own. */
  ghost predicate PushInv<T>(s: State<T>)
    requires ShapeInv(s)
  {
    && (forall t :: 0 <= t < |s.pcs| && HasNode(s.pcs[t]) ==>
          && s.pcs[t].node in s.heap && s.pcs[t].node !in s.chain
          && s.heap[s.pcs[t].node] == Node(Some(s.pcs[t].e), None))
    && (forall t, u :: 0 <= t < u < |s.pcs| && HasNode(s.pcs[t]) && HasNode(s.pcs[u]) ==>
          s.pcs[t].node != s.pcs[u].node)
    && (Pusher(s).PLink? || Pusher(s).PTail? ==> s.heap[s.tail].data == Some(Pusher(s).e))
  }

  ghost predicate Inv<T>(s: State<T>) {
    MutexInv(s) && ShapeInv(s) && ListInv(s) && PopInv(s) && PushInv(s)
  }

  lemma StepKeepsHeadMutex<T(!new)>(s: State<T>, s': State<T>, t: nat)
    requires HeadMutexInv(s) && Step(s, s', t)
    ensures HeadMutexInv(s')
  {
  }

  lemma StepKeepsTailMutex<T(!new)>(s: State<T>, s': State<T>, t: nat)
    requires TailMutexInv(s) && Step(s, s', t)
    ensures TailMutexInv(s')
  {
  }

  lemma StartKeepsInv<T(!new)>(s: State<T>, s': State<T>, t: nat)
    requires Inv(s) && MutexInv(s') && Step(s, s', t) && s.pcs[t].Idle?
    ensures Inv(s')
  {
    assert s'.headMutex == s.headMutex != Some(t) && s'.tailMutex == s.tailMutex != Some(t);
    forall i | 0 <= i < |s'.chain| - 1
      ensures NodeInv(s', i)
    {
      assert NodeInv(s, i);
    }
  }

  lemma PushLockKeepsInv<T(!new)>(s: State<T>, s': State<T>, t: nat)
    requires Inv(s) && MutexInv(s') && Step(s, s', t) && s.pcs[t].PWant?
    ensures Inv(s')
  {
    forall i | 0 <= i < |s'.chain| - 1
      ensures NodeInv(s', i)
    {
      assert NodeInv(s, i);
    }
  }

  /** What a pop does before it moves the head is nothing to the pushes under way. */
  lemma PopKeepsPush<T(!new)>(s: State<T>, s': State<T>, t: nat)
    requires Inv(s) && MutexInv(s') && ShapeInv(s') && Step(s, s', t)
    requires s.pcs[t].QWant? || s.pcs[t].QTail? || s.pcs[t].QData? || s.pcs[t].QNext?
    ensures PushInv(s')
  {
  }

  lemma PopLockKeepsInv<T(!new)>(s: State<T>, s': State<T>, t: nat)
    requires Inv(s) && MutexInv(s') && Step(s, s', t) && (s.pcs[t].QWant? || s.pcs[t].QTail?)
    ensures Inv(s')
  {
    PopKeepsPush(s, s', t);
    forall i | 0 <= i < |s'.chain| - 1
      ensures NodeInv(s', i)
    {
      assert NodeInv(s, i);
    }
  }

  lemma CompareKeepsInv<T(!new)>(s: State<T>, s': State<T>, t: nat)
    requires Inv(s) && MutexInv(s') && Step(s, s', t) && s.pcs[t].QCompare?
    ensures Inv(s')
  {
    forall i | 0 <= i < |s'.chain| - 1
      ensures NodeInv(s', i)
    {
      assert NodeInv(s, i);
    }
  }

  lemma PushWriteKeepsInv<T(!new)>(s: State<T>, s': State<T>, t: nat)
    requires Inv(s) && MutexInv(s') && Step(s, s', t) && (s.pcs[t].PData? || s.pcs[t].PLink?)
    ensures Inv(s')
  {
    forall i | 0 <= i < |s'.chain| - 1
      ensures NodeInv(s', i)
    {
      assert NodeInv(s, i);
    }
  }

  lemma PushTailKeepsInv<T(!new)>(s: State<T>, s': State<T>, t: nat)
    requires Inv(s) && MutexInv(s') && Step(s, s', t) && s.pcs[t].PTail?
    ensures Inv(s')
  {
    forall i | 0 <= i < |s'.chain| - 1
      ensures NodeInv(s', i)
    {
      if i < |s.chain| - 1 {
        assert NodeInv(s, i);
      }
    }
  }

  lemma PopTakeKeepsInv<T(!new)>(s: State<T>, s': State<T>, t: nat)
    requires Inv(s) && MutexInv(s') && Step(s, s', t) && (s.pcs[t].QData? || s.pcs[t].QNext?)
    ensures Inv(s')
  {
    PopKeepsPush(s, s', t);
    assert NodeInv(s, 0);
    forall i | 0 <= i < |s'.chain| - 1
      ensures NodeInv(s', i)
    {
      assert NodeInv(s, i);
    }
  }

  lemma PopHeadKeepsInv<T(!new)>(s: State<T>, s': State<T>, t: nat)
    requires Inv(s) && MutexInv(s') && Step(s, s', t) && s.pcs[t].QHead?
    ensures Inv(s')
  {
    forall i | 0 <= i < |s'.chain| - 1
      ensures NodeInv(s', i)
    {
      assert NodeInv(s, i + 1);
    }
  }

  lemma StepKeepsInv<T(!new)>(s: State<T>, s': State<T>, t: nat)
    requires Inv(s) && Step(s, s', t)
    ensures Inv(s')
  {
    StepKeepsHeadMutex(s, s', t);
    StepKeepsTailMutex(s, s', t);
    match s.pcs[t]
    case Idle => StartKeepsInv(s, s', t);
    case PWant(_, _) => PushLockKeepsInv(s, s', t);
    case QWant => PopLockKeepsInv(s, s', t);
    case QTail => PopLockKeepsInv(s, s', t);
    case QCompare => CompareKeepsInv(s, s', t);
    case PData(_, _) => PushWriteKeepsInv(s, s', t);
    case PLink(_, _) => PushWriteKeepsInv(s, s', t);
    case PTail(_, _) => PushTailKeepsInv(s, s', t);
    case QData => PopTakeKeepsInv(s, s', t);
    case QNext(_) => PopTakeKeepsInv(s, s', t);
    case QHead(_, _) => PopHeadKeepsInv(s, s', t);
  }

  lemma AlwaysInv<T(!new)>(run: seq<State<T>>, k: nat)
    requires IsRun(Init<T>, Next<T>, run) && k < |run|
    ensures Inv(run[k])
  {
    forall s: State<T>, s' | Inv(s) && Next(s, s')
      ensures Inv(s')
    {
      var t: nat :| Step(s, s', t);
      StepKeepsInv(s, s', t);
    }
    Invariance(Init<T>, Next<T>, Inv<T>, run, k);
  }

  // ----- The theorems -----

  /** What has been pushed and not popped, in order. */
  ghost function Contents<T>(s: State<T>): seq<T>
    requires |s.popped| <= |s.pushed|
  {
    s.pushed[|s.popped|..]
  }

  /** First in, first out: the pops have returned the first values pushed, none of them null. */
  lemma Fifo<T(!new)>(run: seq<State<T>>, k: nat)
    requires IsRun(Init<T>, Next<T>, run) && k < |run|
    ensures |run[k].popped| <= |run[k].pushed|
    ensures forall i :: 0 <= i < |run[k].popped| ==> run[k].popped[i] == Some(run[k].pushed[i])
  {
    AlwaysInv(run, k);
  }

  /**
   When no pop is under way, the contents are the data of the nodes from the head up to and without
   the tail, whatever the dummy's own data are and however far a push has come.
   */
  lemma ListHoldsContents<T(!new)>(run: seq<State<T>>, k: nat, i: nat)
    requires IsRun(Init<T>, Next<T>, run) && k < |run| && run[k].headMutex == None
    requires i < |run[k].chain| - 1
    ensures var s := run[k];
            && s.chain[0] == s.head && s.chain[|s.chain| - 1] == s.tail
            && s.chain[i] in s.heap
            && |s.popped| <= |s.pushed| && |Contents(s)| == |s.chain| - 1
            && s.heap[s.chain[i]] == Node(Some(Contents(s)[i]), Some(s.chain[i + 1]))
  {
    AlwaysInv(run, k);
    assert NodeInv(run[k], i);
  }

  /** A pop finds head and tail equal, and returns null, exactly when the queue is empty. */
  lemma NullIffEmpty<T(!new)>(run: seq<State<T>>, k: nat, t: nat)
    requires IsRun(Init<T>, Next<T>, run) && k < |run|
    requires t < |run[k].pcs| && run[k].pcs[t].QCompare?
    ensures |run[k].popped| <= |run[k].pushed|
    ensures run[k].head == run[k].tail <==> Contents(run[k]) == []
  {
    AlwaysInv(run, k);
  }

  /** No step of any run reads or writes a node that has been freed. */
  lemma NoFreedNodeIsUsed<T(!new)>(run: seq<State<T>>, k: nat, t: nat)
    requires IsRun(Init<T>, Next<T>, run) && k < |run| && t < |run[k].pcs|
    ensures Safe(run[k], t)
  {
    AlwaysInv(run, k);
  }

  /** The node that a pop takes apart without the tail mutex is not the one a push is writing. */
  lemma EndsAreApart<T(!new)>(run: seq<State<T>>, k: nat, t: nat, u: nat)
    requires IsRun(Init<T>, Next<T>, run) && k < |run| && t < |run[k].pcs| && u < |run[k].pcs|
    requires run[k].pcs[t].QData? || run[k].pcs[t].QNext? || run[k].pcs[t].QHead?
    requires run[k].pcs[u].PData? || run[k].pcs[u].PLink? || run[k].pcs[u].PTail?
    ensures run[k].head != run[k].tail
  {
    AlwaysInv(run, k);
  }

  /** Each step is one of a queue without nodes or locks: `push` and `try_pop` take effect at once. */
  lemma RefinesQueue<T(!new)>(s: State<T>, s': State<T>, t: nat)
    requires Inv(s) && Inv(s') && Step(s, s', t)
    ensures match s.pcs[t]
            case PTail(e, _) => Contents(s') == Contents(s) + [e]
            case QHead(ret, _) =>
              Contents(s) != [] && ret == Some(Contents(s)[0]) && Contents(s') == Contents(s)[1..]
            case QCompare => Contents(s') == Contents(s) && (s'.pcs[t].Idle? <==> Contents(s) == [])
            case _ => Contents(s') == Contents(s)
  {
  }

  /** So every run of the queue is one of a sequence of values at which pushes and pops take effect at once. */
  lemma RunRefinesQueue<T(!new)>(run: seq<State<T>>, k: nat, t: nat)
    requires IsRun(Init<T>, Next<T>, run) && k + 1 < |run| && Step(run[k], run[k + 1], t)
    ensures |run[k].popped| <= |run[k].pushed| && |run[k + 1].popped| <= |run[k + 1].pushed|
    ensures var was, now := Contents(run[k]), Contents(run[k + 1]);
            match run[k].pcs[t]
            case PTail(e, _) => now == was + [e]
            case QHead(ret, _) => was != [] && ret == Some(was[0]) && now == was[1..]
            case QCompare => now == was && (run[k + 1].pcs[t].Idle? <==> was == [])
            case _ => now == was
  {
    AlwaysInv(run, k);
    AlwaysInv(run, k + 1);
    RefinesQueue(run[k], run[k + 1], t);
  }

  /** The two mutexes never block everyone: while there is a call, some call can go on. */
  lemma NoDeadlock<T(!new)>(run: seq<State<T>>, k: nat, t: nat) returns (u: nat)
    requires IsRun(Init<T>, Next<T>, run) && k < |run|
    requires t < |run[k].pcs| && !run[k].pcs[t].Idle?
    ensures u < |run[k].pcs| && !run[k].pcs[u].Idle? && Unblocked(run[k], u)
  {
    AlwaysInv(run, k);
    var s := run[k];
    u := t;
    if s.pcs[u].QWant? && s.headMutex.Some? {
      u := s.headMutex.value;
    }
    if (s.pcs[u].PWant? || s.pcs[u].QTail?) && s.tailMutex.Some? {
      u := s.tailMutex.value;
    }
  }

  // ----- What a thread has done when it leaves a call -----

  /** The program points of `try_pop`. */
  predicate InPop<T>(pc: Pc<T>) {
    pc.QWant? || HasHead(pc)
  }

  /** What `try_pop` returns from this program point: null unless it has come to move the head. */
  function Result<T>(pc: Pc<T>): Option<T> {
    if pc.QHead? then pc.ret else None
  }

  lemma OthersStay<T(!new)>(s: State<T>, s': State<T>, t: nat, v: nat)
    requires Step(s, s', t) && v < |s.pcs|
    ensures |s'.pcs| == |s.pcs| && (v != t ==> s'.pcs[v] == s.pcs[v])
  {
  }

  /** `push` keeps its argument and its node until it has put that argument, and nothing else, at the end. */
  lemma PushAppends<T(!new)>(s: State<T>, s': State<T>, t: nat, v: nat)
    requires Inv(s) && Step(s, s', t) && v < |s.pcs| && HasNode(s.pcs[v])
    ensures |s'.pcs| == |s.pcs| && |s'.popped| <= |s'.pushed|
    ensures || (HasNode(s'.pcs[v]) && s'.pcs[v].e == s.pcs[v].e && s'.pcs[v].node == s.pcs[v].node)
            || (v == t && s'.pcs[v].Idle? && s'.tail == s.pcs[v].node && s'.pushed == s.pushed + [s.pcs[v].e]
                && Contents(s') == Contents(s) + [s.pcs[v].e])
  {
    OthersStay(s, s', t, v);
  }

  /** `try_pop` goes on until it returns null from an empty queue, or the first value, which is then out. */
  lemma PopTakes<T(!new)>(s: State<T>, s': State<T>, t: nat, v: nat)
    requires Inv(s) && Step(s, s', t) && v < |s.pcs| && InPop(s.pcs[v])
    ensures |s'.pcs| == |s.pcs| && |s'.popped| <= |s'.pushed|
    ensures || InPop(s'.pcs[v])
            || (v == t && s'.pcs[v].Idle?
                && if Contents(s) == []
                   then Result(s.pcs[v]) == None && s'.popped == s.popped && Contents(s') == []
                   else Result(s.pcs[v]) == Some(Contents(s)[0]) && s'.popped == s.popped + [Some(Contents(s)[0])]
                        && Contents(s') == Contents(s)[1..])
  {
    OthersStay(s, s', t, v);
  }

  /** Nothing else changes what is in the queue. */
  lemma NothingElse<T(!new)>(s: State<T>, s': State<T>, t: nat)
    requires Inv(s) && Step(s, s', t)
    ensures |s'.pcs| == |s.pcs|
    ensures (s'.pushed == s.pushed && s'.popped == s.popped) || (!s.pcs[t].Idle? && s'.pcs[t].Idle?)
  {
  }

  /** How many steps of its own a thread in a call has left at most. */
  function StepsLeft<T>(pc: Pc<T>): nat {
    match pc
    case Idle => 0
    case PWant(_, _) => 4
    case PData(_, _) => 3
    case PLink(_, _) => 2
    case PTail(_, _) => 1
    case QWant => 6
    case QTail => 5
    case QCompare => 4
    case QData => 3
    case QNext(_) => 2
    case QHead(_, _) => 1
  }

  /** A thread outside a call may call, and no call goes round in circles. */
  lemma CallsAdvance<T(!new)>(s: State<T>, s': State<T>, t: nat)
    requires Step(s, s', t)
    ensures t < |s'.pcs|
    ensures if s.pcs[t].Idle? then s'.pcs[t].QWant? || s'.pcs[t].PWant? else StepsLeft(s'.pcs[t]) < StepsLeft(s.pcs[t])
  {
  }

  // ----- Nothing leaks -----

  ghost predicate IsPushed<T>(s: State<T>, a: nat) {
    exists t :: 0 <= t < |s.pcs| && HasNode(s.pcs[t]) && s.pcs[t].node == a
  }

  /** Every allocated node is in the list or is about to be. */
  ghost predicate NoLeak<T>(s: State<T>) {
    forall a :: a in s.heap ==> a in s.chain || IsPushed(s, a)
  }

  lemma PushedStays<T(!new)>(s: State<T>, s': State<T>, t: nat, a: nat)
    requires Inv(s) && Step(s, s', t) && IsPushed(s, a)
    ensures IsPushed(s', a) || a in s'.chain
  {
    var v: nat :| v < |s.pcs| && HasNode(s.pcs[v]) && s.pcs[v].node == a;
    PushAppends(s, s', t, v);
    if HasNode(s'.pcs[v]) {
      assert s'.pcs[v].node == a;
    } else {
      assert s'.tail == s'.chain[|s'.chain| - 1];
    }
  }

  lemma ChainStays<T(!new)>(s: State<T>, s': State<T>, t: nat, a: nat)
    requires Inv(s) && Step(s, s', t) && a in s.chain && a in s'.heap
    ensures a in s'.chain
  {
    if a == s.chain[0] {
    } else {
      assert a in s.chain[1..];
    }
  }

  lemma StepLeaksNothing<T(!new)>(s: State<T>, s': State<T>, t: nat)
    requires Inv(s) && NoLeak(s) && Step(s, s', t)
    ensures NoLeak(s')
  {
    forall a | a in s'.heap
      ensures a in s'.chain || IsPushed(s', a)
    {
      if a !in s.heap {
        assert HasNode(s'.pcs[t]) && s'.pcs[t].node == a;
      } else if a in s.chain {
        ChainStays(s, s', t, a);
      } else {
        PushedStays(s, s', t, a);
      }
    }
  }

  ghost predicate Tidy<T(!new)>(s: State<T>) {
    Inv(s) && NoLeak(s)
  }

  /** Between calls the allocated nodes are exactly those of the list: the popped ones have been freed. */
  lemma NothingLeaks<T(!new)>(run: seq<State<T>>, k: nat, a: nat)
    requires IsRun(Init<T>, Next<T>, run) && k < |run|
    requires forall t :: 0 <= t < |run[k].pcs| ==> run[k].pcs[t].Idle?
    ensures a in run[k].heap <==> a in run[k].chain
  {
    forall s: State<T>, s' | Tidy(s) && Next(s, s')
      ensures Tidy(s')
    {
      var t: nat :| Step(s, s', t);
      StepKeepsInv(s, s', t);
      StepLeaksNothing(s, s', t);
    }
    Invariance(Init<T>, Next<T>, Tidy<T>, run, k);
  }

  // ----- The calls as the history of a queue -----

  /** With this step, thread `t` has come to the end of its call. */
  predicate Ends<T(==)>(s: State<T>, s': State<T>, t: nat, event: Event<T>) {
    && t < |s.pcs| == |s'.pcs| && s'.pcs[t].Idle?
    && ((HasNode(s.pcs[t]) && event == Put(s.pcs[t].e)) || (InPop(s.pcs[t]) && event == Got(Result(s.pcs[t]))))
  }

  ghost function Events<T(!new)>(s: State<T>, s': State<T>): seq<Event<T>> {
    if t: nat, event :| Ends(s, s', t, event) then [event] else []
  }

  /** The calls of a run, with their arguments and results, in the order in which they end. */
  ghost function History<T(!new)>(run: seq<State<T>>): seq<Event<T>> {
    if |run| < 2 then []
    else History(run[..|run| - 1]) + Events(run[|run| - 2], run[|run| - 1])
  }

  lemma EndOnQueue<T(!new)>(s: State<T>, s': State<T>, t: nat, v: nat, event: Event<T>)
    requires Inv(s) && Step(s, s', t) && Ends(s, s', v, event)
    ensures |s'.popped| <= |s'.pushed|
    ensures match event
            case Put(e) => Contents(s') == Contents(s) + [e]
            case Got(ret) =>
              if Contents(s) == [] then ret == None && Contents(s') == []
              else ret == Some(Contents(s)[0]) && Contents(s') == Contents(s)[1..]
  {
    if event.Put? {
      PushAppends(s, s', t, v);
    } else {
      PopTakes(s, s', t, v);
    }
  }

  lemma NoEnd<T(!new)>(s: State<T>, s': State<T>, t: nat)
    requires Inv(s) && Step(s, s', t)
    requires forall v: nat, event :: !Ends(s, s', v, event)
    ensures |s'.popped| <= |s'.pushed| && Contents(s') == Contents(s)
  {
    NothingElse(s, s', t);
    if !s.pcs[t].Idle? && s'.pcs[t].Idle? {
      assert Ends(s, s', t, if HasNode(s.pcs[t]) then Put(s.pcs[t].e) else Got(Result(s.pcs[t])));
    }
  }

  lemma HistoryStep<T(!new)>(s: State<T>, s': State<T>, t: nat, h: seq<Event<T>>)
    requires Inv(s) && Step(s, s', t) && Replay(h) == Some(Contents(s))
    ensures |s'.popped| <= |s'.pushed| && Replay(h + Events(s, s')) == Some(Contents(s'))
  {
    if v: nat, event :| Ends(s, s', v, event) {
      var e: Event<T> := Events(s, s')[0];
      var w: nat :| Ends(s, s', w, e);
      EndOnQueue(s, s', t, w, e);
      OneMore(h, e);
    } else {
      NoEnd(s, s', t);
      assert h + Events(s, s') == h;
    }
  }

  /**
   The queue is linearizable: in the order in which the calls end, their arguments and results are those of
   a queue that executes them one after the other, and what it then contains is in the list.
   */
  lemma {:induction false} RunIsHistory<T(!new)>(run: seq<State<T>>)
    requires IsRun(Init<T>, Next<T>, run)
    ensures var s := run[|run| - 1];
            |s.popped| <= |s.pushed| && Replay(History(run)) == Some(Contents(s))
  {
    if |run| == 1 {
    } else {
      var n := |run| - 1;
      RunIsHistory(run[..n]);
      AlwaysInv(run, n - 1);
      assert Next(run[n - 1], run[n]);
      var t: nat :| Step(run[n - 1], run[n], t);
      HistoryStep(run[n - 1], run[n], t, History(run[..n]));
    }
  }

  /** First in, first out, over the arguments and results of the calls. */
  lemma FifoOfCalls<T(!new)>(run: seq<State<T>>)
    requires IsRun(Init<T>, Next<T>, run)
    ensures var s := run[|run| - 1];
            |s.popped| <= |s.pushed| && Puts(History(run)) == Gets(History(run)) + Contents(s)
  {
    RunIsHistory(run);
    FirstInFirstOut(History(run));
  }
}
