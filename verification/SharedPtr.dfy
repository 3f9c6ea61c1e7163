/**
 The hand-written reference-counted pointers `X::shared_ptr<T>` and `X::shared_ptr<T[]>`, used by
 threads that own distinct handles.  Every access to a counter, every deletion and every assignment
 to a handle is a step of its own.  The two fields of a handle are assigned in one step, which loses
 nothing: only the thread that owns the handle reads them.
 */
module SharedPtr {
  import opened Counting
  import opened Runs
  import opened Wrappers

  /**
   A handle with its two fields and the thread that owns it.  `counted` says that the handle is one
   of those that its counter counts: it has been incremented for the handle and not decremented.
   */
  datatype Handle = Handle(ptr: Option<nat>, rf: Option<nat>, owner: nat, counted: bool)

  /** A counter, and the object that was wrapped when it was allocated, if that was not null. */
  datatype Block = Block(count: int, obj: Option<nat>)

  /** What comes after `release`. */
  datatype Cont = Assign(src: nat) | Destroy

  datatype Pc =
    | Idle
      // release() of handle h
    | Decrement(h: nat, k: Cont) | DeleteObject(h: nat, b: nat, k: Cont) | DeleteCounter(h: nat, b: nat, k: Cont)
      // copy construction and copy assignment
    | Set(h: nat, src: nat) | Increment(h: nat, src: nat)
      // destruction
    | End(h: nat)

  /**
   `objects` are allocated and not deleted; `deleted` and `freed` list the objects and counters that
   have been deleted.  Only `shared_ptr<T>` has a move constructor: `moves` is false for `shared_ptr<T[]>`.
   `clean` says that so far no object has been wrapped twice and no copy of a null handle has begun.
   */
  datatype State = State(
    handles: map<nat, Handle>, blocks: map<nat, Block>, objects: set<nat>,
    deleted: seq<nat>, freed: seq<nat>, pcs: seq<Pc>, moves: bool, clean: bool)

  predicate Owns(s: State, t: nat, h: nat) {
    h in s.handles && s.handles[h].owner == t
  }

  function Go(s: State, t: nat, pc: Pc): State
    requires t < |s.pcs|
  {
    s.(pcs := s.pcs[t := pc])
  }

  function AfterRelease(h: nat, k: Cont): Pc {
    match k
    case Assign(src) => Set(h, src)
    case Destroy => End(h)
  }

  predicate Deleting(pc: Pc) {
    pc.DeleteObject? || pc.DeleteCounter?
  }

  predicate IsNew(s: State, obj: Option<nat>) {
    obj.Some? ==> obj.value !in s.objects && obj.value !in s.deleted
  }

  /** Construction from a raw pointer, possibly null. */
  predicate Wrap(s: State, s': State, t: nat, h: nat, b: nat, obj: Option<nat>)
    requires t < |s.pcs|
  {
    && h !in s.handles && b !in s.blocks && b !in s.freed
    && s' == s.(handles := s.handles[h := Handle(obj, Some(b), t, true)],
                blocks := s.blocks[b := Block(1, obj)],
                objects := if obj.Some? then s.objects + {obj.value} else s.objects,
                clean := s.clean && IsNew(s, obj))
  }

  /** Copy construction: the fields are copied first. */
  predicate Copy(s: State, s': State, t: nat, h: nat, src: nat)
    requires t < |s.pcs|
  {
    && h !in s.handles && Owns(s, t, src)
    && s' == Go(s, t, Increment(h, src)).(
               handles := s.handles[h := Handle(s.handles[src].ptr, s.handles[src].rf, t, false)],
               clean := s.clean && s.handles[src].rf.Some?)
  }

  /** Move construction: the source is left with null fields. */
  predicate Move(s: State, s': State, t: nat, h: nat, src: nat)
    requires t < |s.pcs|
  {
    && s.moves && h !in s.handles && Owns(s, t, src)
    && s' == s.(handles := s.handles[h := s.handles[src]][src := Handle(None, None, t, false)])
  }

  predicate StartAssign(s: State, s': State, t: nat, h: nat, src: nat)
    requires t < |s.pcs|
  {
    && Owns(s, t, h) && Owns(s, t, src)
    && s' == if h == src then s
             else Go(s, t, Decrement(h, Assign(src))).(clean := s.clean && s.handles[src].rf.Some?)
  }

  predicate StartDestroy(s: State, s': State, t: nat, h: nat)
    requires t < |s.pcs|
  {
    Owns(s, t, h) && s' == Go(s, t, Decrement(h, Destroy))
  }

  /** A thread hands a handle to another one. */
  predicate Give(s: State, s': State, t: nat, h: nat, u: nat)
    requires t < |s.pcs|
  {
    && Owns(s, t, h) && u < |s.pcs|
    && s' == s.(handles := s.handles[h := s.handles[h].(owner := u)])
  }

  /** The memory that the thread's next step reads or writes is allocated. */
  predicate Safe(s: State, t: nat)
    requires t < |s.pcs|
  {
    match s.pcs[t]
    case Idle => true
    case Decrement(h, _) => h in s.handles && (s.handles[h].rf.Some? ==> s.handles[h].rf.value in s.blocks)
    case DeleteObject(h, _, _) => h in s.handles && (s.handles[h].ptr.Some? ==> s.handles[h].ptr.value in s.objects)
    case DeleteCounter(h, b, _) => b in s.blocks
    case Set(h, src) => h in s.handles && src in s.handles
    case Increment(h, _) => h in s.handles && s.handles[h].rf.Some? && s.handles[h].rf.value in s.blocks
    case End(h) => h in s.handles
  }

  function After(s: State, t: nat): State
    requires t < |s.pcs| && Safe(s, t)
  {
    match s.pcs[t]
    case Idle => s
    case Decrement(h, k) =>
      var handle := s.handles[h];
      if handle.rf.None? then Go(s, t, AfterRelease(h, k))
      else
        var b := handle.rf.value;
        var count := s.blocks[b].count - 1;
        Go(s, t, if count == 0 then DeleteObject(h, b, k) else AfterRelease(h, k)).(
          blocks := s.blocks[b := s.blocks[b].(count := count)],
          handles := s.handles[h := handle.(counted := false)])
    case DeleteObject(h, b, k) =>
      var ptr := s.handles[h].ptr;
      if ptr.None? then Go(s, t, DeleteCounter(h, b, k))
      else
        Go(s, t, DeleteCounter(h, b, k)).(objects := s.objects - {ptr.value}, deleted := s.deleted + [ptr.value])
    case DeleteCounter(h, b, k) =>
      Go(s, t, AfterRelease(h, k)).(blocks := s.blocks - {b}, freed := s.freed + [b])
    case Set(h, src) =>
      Go(s, t, Increment(h, src)).(
        handles := s.handles[h := Handle(s.handles[src].ptr, s.handles[src].rf, s.handles[h].owner, false)])
    case Increment(h, _) =>
      var b := s.handles[h].rf.value;
      Go(s, t, Idle).(
        blocks := s.blocks[b := s.blocks[b].(count := s.blocks[b].count + 1)],
        handles := s.handles[h := s.handles[h].(counted := true)])
    case End(h) => Go(s, t, Idle).(handles := s.handles - {h})
  }

  ghost predicate Begin(s: State, s': State, t: nat)
    requires t < |s.pcs|
  {
    || (exists h, b, obj :: Wrap(s, s', t, h, b, obj))
    || (exists h, src :: Copy(s, s', t, h, src))
    || (exists h, src :: Move(s, s', t, h, src))
    || (exists h, src :: StartAssign(s, s', t, h, src))
    || (exists h :: StartDestroy(s, s', t, h))
    || (exists h, u :: Give(s, s', t, h, u))
  }

  ghost predicate Step(s: State, s': State, t: nat) {
    && t < |s.pcs|
    && if s.pcs[t].Idle? then Begin(s, s', t) else Safe(s, t) && s' == After(s, t)
  }

  ghost predicate Next(s: State, s': State) {
    exists t: nat :: Step(s, s', t)
  }

  ghost predicate Init(s: State) {
    && s.handles == map[] && s.blocks == map[] && s.objects == {}
    && s.deleted == [] && s.freed == [] && s.clean
    && forall t :: 0 <= t < |s.pcs| ==> s.pcs[t] == Idle
  }

  // ----- The memory that the handles share: one method call is one step of the calling thread -----

  class Memory {
    var handles: map<nat, Handle>
    var blocks: map<nat, Block>
    var objects: set<nat>
    var pcs: seq<Pc>
    ghost var deleted: seq<nat>
    ghost var freed: seq<nat>
    const moves: bool
    ghost var clean: bool

    ghost function Snap(): State
      reads this
    {
      State(handles, blocks, objects, deleted, freed, pcs, moves, clean)
    }

    constructor (threads: nat, moves: bool)
      ensures Init(Snap()) && Inv(Snap()) && |pcs| == threads && this.moves == moves
    {
      handles, blocks, objects := map[], map[], {};
      pcs := seq(threads, i => Idle);
      deleted, freed, clean := [], [], true;
      this.moves := moves;
    }

    method Construct(t: nat, h: nat, ptr: Option<nat>, b: nat)
      requires t < |pcs| && pcs[t].Idle? && h !in handles && b !in blocks && b !in freed
      requires Inv(Snap())
      modifies this
      ensures (clean ==> Inv(Snap())) && Step(old(Snap()), Snap(), t)
    {
      clean := IsNew(Snap(), ptr);
      blocks := blocks[b := Block(1, ptr)];
      if ptr.Some? {
        objects := objects + {ptr.value};
      }
      handles := handles[h := Handle(ptr, Some(b), t, true)];
      assert Wrap(old(Snap()), Snap(), t, h, b, ptr);
      CleanStepKeepsInv(old(Snap()), Snap(), t);
    }

    method CopyConstruct(t: nat, h: nat, src: nat)
      requires t < |pcs| && pcs[t].Idle? && h !in handles && Owns(Snap(), t, src)
      requires Inv(Snap())
      modifies this
      ensures |pcs| == |old(pcs)| && pcs[t] == Increment(h, src)
      ensures (clean ==> Inv(Snap())) && Step(old(Snap()), Snap(), t)
    {
      clean := handles[src].rf.Some?;
      handles := handles[h := Handle(handles[src].ptr, handles[src].rf, t, false)];
      pcs := pcs[t := Increment(h, src)];
      assert Copy(old(Snap()), Snap(), t, h, src);
      CleanStepKeepsInv(old(Snap()), Snap(), t);
    }

    method MoveConstruct(t: nat, h: nat, src: nat)
      requires t < |pcs| && pcs[t].Idle? && moves && h !in handles && Owns(Snap(), t, src)
      requires Inv(Snap())
      modifies this
      ensures Inv(Snap()) && Step(old(Snap()), Snap(), t)
    {
      handles := handles[h := handles[src]];
      handles := handles[src := Handle(None, None, t, false)];
      assert Move(old(Snap()), Snap(), t, h, src);
      CleanStepKeepsInv(old(Snap()), Snap(), t);
    }

    method CopyAssign(t: nat, h: nat, src: nat)
      requires t < |pcs| && pcs[t].Idle? && Owns(Snap(), t, h) && Owns(Snap(), t, src)
      requires Inv(Snap())
      modifies this
      ensures |pcs| == |old(pcs)| && (clean ==> Inv(Snap())) && Step(old(Snap()), Snap(), t)
      ensures pcs[t] == if h == src then Idle else Decrement(h, Assign(src))
    {
      if h != src {
        clean := handles[src].rf.Some?;
        pcs := pcs[t := Decrement(h, Assign(src))];
      }
      assert StartAssign(old(Snap()), Snap(), t, h, src);
      CleanStepKeepsInv(old(Snap()), Snap(), t);
    }

    method Destroy(t: nat, h: nat)
      requires t < |pcs| && pcs[t].Idle? && Owns(Snap(), t, h)
      requires Inv(Snap())
      modifies this
      ensures |pcs| == |old(pcs)| && pcs[t] == Decrement(h, Cont.Destroy)
      ensures Inv(Snap()) && Step(old(Snap()), Snap(), t)
    {
      pcs := pcs[t := Decrement(h, Cont.Destroy)];
      assert StartDestroy(old(Snap()), Snap(), t, h);
      CleanStepKeepsInv(old(Snap()), Snap(), t);
    }

    /** First step of `release`: the null test and the atomic decrement. */
    method DropCount(t: nat)
      requires t < |pcs| && pcs[t].Decrement?
      requires Inv(Snap())
      modifies this
      ensures Inv(Snap()) && Step(old(Snap()), Snap(), t)
    {
      InvIsSafe(Snap(), t);
      SafelyDropCount(t);
      CleanStepKeepsInv(old(Snap()), Snap(), t);
    }

    method SafelyDropCount(t: nat)
      requires t < |pcs| && pcs[t].Decrement? && Safe(Snap(), t)
      modifies this
      ensures Step(old(Snap()), Snap(), t)
    {
      var h, k, rf := pcs[t].h, pcs[t].k, handles[pcs[t].h].rf;
      pcs := pcs[t := AfterRelease(h, k)];
      if rf.Some? {
        var b := rf.value;
        blocks := blocks[b := blocks[b].(count := blocks[b].count - 1)];
        handles := handles[h := handles[h].(counted := false)];
        if blocks[b].count == 0 {
          pcs := pcs[t := DeleteObject(h, b, k)];
        }
      }
    }

    /** Second step of `release` of the last handle: the object is deleted. */
    method FreeObject(t: nat)
      requires t < |pcs| && pcs[t].DeleteObject?
      requires Inv(Snap())
      modifies this
      ensures Inv(Snap()) && Step(old(Snap()), Snap(), t)
    {
      InvIsSafe(Snap(), t);
      var ptr := handles[pcs[t].h].ptr;
      if ptr.Some? {
        objects := objects - {ptr.value};
        deleted := deleted + [ptr.value];
      }
      pcs := pcs[t := DeleteCounter(pcs[t].h, pcs[t].b, pcs[t].k)];
      CleanStepKeepsInv(old(Snap()), Snap(), t);
    }

    /** Third step of `release` of the last handle: the counter is deleted. */
    method FreeCounter(t: nat)
      requires t < |pcs| && pcs[t].DeleteCounter?
      requires Inv(Snap())
      modifies this
      ensures Inv(Snap()) && Step(old(Snap()), Snap(), t)
    {
      var b := pcs[t].b;
      InvIsSafe(Snap(), t);
      blocks := blocks - {b};
      freed := freed + [b];
      pcs := pcs[t := AfterRelease(pcs[t].h, pcs[t].k)];
      CleanStepKeepsInv(old(Snap()), Snap(), t);
    }

    /** The steps that follow `release` or the copy of the fields. */
    method Finish(t: nat)
      requires t < |pcs| && (pcs[t].Set? || pcs[t].Increment? || pcs[t].End?)
      requires Inv(Snap())
      modifies this
      ensures Inv(Snap()) && Step(old(Snap()), Snap(), t)
    {
      InvIsSafe(Snap(), t);
      match pcs[t] {
        case Set(h, src) =>
          handles := handles[h := Handle(handles[src].ptr, handles[src].rf, handles[h].owner, false)];
          pcs := pcs[t := Increment(h, src)];
        case Increment(h, src) =>
          var b := handles[h].rf.value;
          blocks := blocks[b := blocks[b].(count := blocks[b].count + 1)];
          handles := handles[h := handles[h].(counted := true)];
          pcs := pcs[t := Idle];
        case End(h) =>
          handles := handles - {h};
          pcs := pcs[t := Idle];
      }
      CleanStepKeepsInv(old(Snap()), Snap(), t);
    }
  }

  // ----- What every step keeps -----

  /** The handles that counter `b` counts. */
  ghost function Holders(s: State, b: nat): set<nat> {
    set h | h in s.handles && s.handles[h].counted && s.handles[h].rf == Some(b)
  }

  /** The thread is between the decrement of `h` and the next increment for it. */
  predicate Uncounts(pc: Pc, h: nat) {
    match pc
    case DeleteObject(g, _, _) => g == h
    case DeleteCounter(g, _, _) => g == h
    case Set(g, _) => g == h
    case Increment(g, _) => g == h
    case End(g) => g == h
    case _ => false
  }

  predicate Deletes(pc: Pc, b: nat) {
    Deleting(pc) && pc.b == b
  }

  ghost predicate HasDeleter(s: State, b: nat) {
    exists t :: 0 <= t < |s.pcs| && Deletes(s.pcs[t], b)
  }

  /** The thread has deleted the object of counter `b` and is about to delete the counter. */
  predicate AtCounter(pc: Pc, b: nat) {
    pc.DeleteCounter? && pc.b == b
  }

  ghost predicate ObjectIsDeleted(s: State, b: nat) {
    exists t :: 0 <= t < |s.pcs| && AtCounter(s.pcs[t], b)
  }

  ghost predicate HandleInv(s: State, h: nat)
    requires h in s.handles
  {
    var handle := s.handles[h];
    && handle.owner < |s.pcs|
    && (handle.counted ==>
          handle.rf.Some? && handle.rf.value in s.blocks && handle.ptr == s.blocks[handle.rf.value].obj)
    && (!handle.counted && handle.rf.Some? ==> Uncounts(s.pcs[handle.owner], h))
    && (!s.moves ==> handle.rf.Some?)
  }

  /** The source of a copy is another counted handle of the same thread. */
  ghost predicate SourceInv(s: State, t: nat, h: nat, src: nat) {
    src != h && Owns(s, t, src) && s.handles[src].counted
  }

  ghost predicate ContInv(s: State, t: nat, h: nat, k: Cont) {
    k.Assign? ==> SourceInv(s, t, h, k.src)
  }

  ghost predicate ThreadInv(s: State, t: nat)
    requires t < |s.pcs|
  {
    match s.pcs[t]
    case Idle => true
    case Decrement(h, k) =>
      Owns(s, t, h) && (s.handles[h].rf.Some? ==> s.handles[h].counted) && ContInv(s, t, h, k)
    case DeleteObject(h, b, k) =>
      && Owns(s, t, h) && !s.handles[h].counted && ContInv(s, t, h, k)
      && b in s.blocks && s.blocks[b].count == 0 && s.handles[h].ptr == s.blocks[b].obj
    case DeleteCounter(h, b, k) =>
      Owns(s, t, h) && !s.handles[h].counted && ContInv(s, t, h, k) && b in s.blocks && s.blocks[b].count == 0
    case Set(h, src) => Owns(s, t, h) && !s.handles[h].counted && SourceInv(s, t, h, src)
    case Increment(h, src) =>
      && Owns(s, t, h) && !s.handles[h].counted && SourceInv(s, t, h, src)
      && s.handles[h].rf == s.handles[src].rf && s.handles[h].ptr == s.handles[src].ptr
    case End(h) => Owns(s, t, h) && !s.handles[h].counted
  }

  /** The counter is exact, and at zero exactly while one thread deletes it. */
  ghost predicate BlockInv(s: State, b: nat)
    requires b in s.blocks
  {
    && s.blocks[b].count == |Holders(s, b)|
    && (s.blocks[b].count == 0 <==> HasDeleter(s, b))
    && b !in s.freed
  }

  /** The object of a counter is allocated until the thread that deletes the counter has deleted it. */
  ghost predicate ObjectInv(s: State, b: nat)
    requires b in s.blocks
  {
    s.blocks[b].obj.Some? ==>
      var o := s.blocks[b].obj.value;
      if ObjectIsDeleted(s, b) then o in s.deleted else o in s.objects
  }

  ghost predicate HasCounter(s: State, o: nat) {
    exists b :: b in s.blocks && s.blocks[b].obj == Some(o)
  }

  /** Nothing is deleted twice, and what is allocated belongs to one counter. */
  ghost predicate MemoryInv(s: State) {
    && Distinct(s.deleted) && Distinct(s.freed)
    && (forall o :: o in s.objects ==> o !in s.deleted)
    && (forall o :: o in s.objects ==> HasCounter(s, o))
    && (forall a, b :: a in s.blocks && b in s.blocks && s.blocks[a].obj == s.blocks[b].obj != None ==> a == b)
  }

  ghost predicate OneDeleter(s: State) {
    forall t, u, b :: 0 <= t < |s.pcs| && 0 <= u < |s.pcs| && Deletes(s.pcs[t], b) && Deletes(s.pcs[u], b) ==> t == u
  }

  ghost predicate BlocksInv(s: State) {
    forall b :: b in s.blocks ==> BlockInv(s, b) && ObjectInv(s, b)
  }

  ghost predicate Inv(s: State) {
    && s.clean
    && (forall h :: h in s.handles ==> HandleInv(s, h))
    && (forall t: nat :: t < |s.pcs| ==> ThreadInv(s, t))
    && BlocksInv(s) && MemoryInv(s) && OneDeleter(s)
  }

  lemma InitInv(s: State)
    requires Init(s)
    ensures Inv(s)
  {
  }

  // ----- One thread's step leaves the others alone -----

  /** A step of thread `t` that touches no handle of another thread and no counter that one relies on. */
  ghost predicate Frame(s: State, s': State, t: nat) {
    && t < |s.pcs| == |s'.pcs| && s'.moves == s.moves
    && (forall u :: 0 <= u < |s.pcs| && u != t ==> s'.pcs[u] == s.pcs[u])
    && (forall h :: h in s.handles && s.handles[h].owner != t ==> h in s'.handles && s'.handles[h] == s.handles[h])
    && (forall h :: h in s'.handles && s'.handles[h].owner != t ==> h in s.handles && s'.handles[h] == s.handles[h])
    && (forall b :: b in s.blocks && Holders(s, b) != {} ==> b in s'.blocks && s'.blocks[b].obj == s.blocks[b].obj)
    && (forall u, b :: 0 <= u < |s.pcs| && u != t && Deletes(s.pcs[u], b) && b in s.blocks ==>
          b in s'.blocks && s'.blocks[b] == s.blocks[b])
  }

  lemma CountedHandleKept(s: State, s': State, t: nat, h: nat)
    requires Inv(s) && Frame(s, s', t) && h in s.handles && h in s'.handles && s'.handles[h] == s.handles[h]
    requires s.handles[h].counted || s.handles[h].rf.None? || s.handles[h].owner != t
    ensures HandleInv(s', h)
  {
    assert HandleInv(s, h);
    if s.handles[h].counted {
      assert h in Holders(s, s.handles[h].rf.value);
    }
  }

  lemma OtherThreadKept(s: State, s': State, t: nat, u: nat)
    requires Inv(s) && Frame(s, s', t) && u < |s'.pcs| && u != t
    ensures ThreadInv(s', u)
  {
    assert ThreadInv(s, u);
    if s.pcs[u].DeleteObject? || s.pcs[u].DeleteCounter? {
      assert Deletes(s.pcs[u], s.pcs[u].b);
    }
  }

  /** A step on one handle of `t` and on a counter that no other thread deletes. */
  lemma CounterFrame(s: State, s': State, t: nat, h: nat, b: nat)
    requires t < |s.pcs| == |s'.pcs| && s'.pcs == s.pcs[t := s'.pcs[t]] && s'.moves == s.moves
    requires Owns(s, t, h) && Owns(s', t, h) && s'.handles == s.handles[h := s'.handles[h]]
    requires b in s.blocks && b in s'.blocks
    requires s'.blocks == s.blocks[b := s'.blocks[b]] && s'.blocks[b].obj == s.blocks[b].obj
    requires s'.blocks[b] == s.blocks[b] || forall u :: 0 <= u < |s.pcs| && u != t ==> !Deletes(s.pcs[u], b)
    ensures Frame(s, s', t)
  {
  }

  /** The step leaves handle `h` as it was, and its thread was not at work on it. */
  ghost predicate Untouched(s: State, s': State, t: nat, h: nat)
    requires t < |s.pcs|
  {
    h in s.handles && h in s'.handles && s'.handles[h] == s.handles[h] && !Uncounts(s.pcs[t], h)
  }

  /** What is left to prove of a step of `t` is its own program point and the handles it works on. */
  lemma RestKept(s: State, s': State, t: nat, touched: set<nat>)
    requires Inv(s) && Frame(s, s', t)
    requires forall h :: h in s'.handles && s'.handles[h].owner == t && h !in touched ==> Untouched(s, s', t, h)
    requires ThreadInv(s', t)
    requires forall h :: h in touched && h in s'.handles ==> HandleInv(s', h)
    ensures forall u: nat :: u < |s'.pcs| ==> ThreadInv(s', u)
    ensures forall h :: h in s'.handles ==> HandleInv(s', h)
  {
    forall u: nat | u < |s'.pcs|
      ensures ThreadInv(s', u)
    {
      if u != t {
        OtherThreadKept(s, s', t, u);
      }
    }
    forall h | h in s'.handles
      ensures HandleInv(s', h)
    {
      if h !in touched {
        if s'.handles[h].owner == t {
          assert Untouched(s, s', t, h);
        }
        assert HandleInv(s, h);
        CountedHandleKept(s, s', t, h);
      }
    }
  }

  /** The threads that delete counter `b`, and how far they are, are the same. */
  ghost predicate SameDeleter(s: State, s': State, b: nat) {
    && |s'.pcs| == |s.pcs|
    && forall u :: 0 <= u < |s.pcs| ==>
         Deletes(s'.pcs[u], b) == Deletes(s.pcs[u], b) && AtCounter(s'.pcs[u], b) == AtCounter(s.pcs[u], b)
  }

  lemma SameDeleterKept(s: State, s': State, b: nat)
    requires SameDeleter(s, s', b)
    ensures HasDeleter(s', b) == HasDeleter(s, b) && ObjectIsDeleted(s', b) == ObjectIsDeleted(s, b)
  {
    if HasDeleter(s, b) {
      var u :| 0 <= u < |s.pcs| && Deletes(s.pcs[u], b);
      assert Deletes(s'.pcs[u], b);
    }
    if ObjectIsDeleted(s, b) {
      var u :| 0 <= u < |s.pcs| && AtCounter(s.pcs[u], b);
      assert AtCounter(s'.pcs[u], b);
    }
  }

  /** A step that changes neither counter `b`, nor its holders, nor its deleter, nor its object. */
  ghost predicate SameBlock(s: State, s': State, b: nat) {
    && b in s.blocks && b in s'.blocks && s'.blocks[b] == s.blocks[b]
    && |Holders(s', b)| == |Holders(s, b)| && SameDeleter(s, s', b)
    && (b in s'.freed ==> b in s.freed)
    && (s.blocks[b].obj.Some? ==>
          var o := s.blocks[b].obj.value;
          (o in s.objects ==> o in s'.objects) && (o in s.deleted ==> o in s'.deleted))
  }

  lemma SameBlockKept(s: State, s': State, b: nat)
    requires Inv(s) && SameBlock(s, s', b)
    ensures BlockInv(s', b) && ObjectInv(s', b)
  {
    SameDeleterKept(s, s', b);
    assert BlockInv(s, b) && ObjectInv(s, b);
  }

  lemma CounterKept(s: State, s': State, o: nat)
    requires HasCounter(s, o)
    requires forall b :: b in s.blocks && s.blocks[b].obj == Some(o) ==> b in s'.blocks && s'.blocks[b].obj == Some(o)
    ensures HasCounter(s', o)
  {
    var b :| b in s.blocks && s.blocks[b].obj == Some(o);
    assert b in s'.blocks && s'.blocks[b].obj == Some(o);
  }

  /** A step of a thread that deletes nothing, that leaves the memory and the numbers of holders alone. */
  ghost predicate Quiet(s: State, s': State, t: nat) {
    && s'.blocks == s.blocks && s'.objects == s.objects && s'.deleted == s.deleted && s'.freed == s.freed
    && t < |s.pcs| == |s'.pcs| && s'.pcs == s.pcs[t := s'.pcs[t]] && !Deleting(s.pcs[t]) && !Deleting(s'.pcs[t])
    && (forall b :: b in s.blocks ==> |Holders(s', b)| == |Holders(s, b)|)
  }

  lemma QuietKeepsMemory(s: State, s': State, t: nat)
    requires Inv(s) && Quiet(s, s', t)
    ensures BlocksInv(s') && MemoryInv(s') && OneDeleter(s')
  {
    forall b | b in s'.blocks
      ensures BlockInv(s', b) && ObjectInv(s', b)
    {
      SameBlockKept(s, s', b);
    }
    forall o | o in s'.objects
      ensures HasCounter(s', o)
    {
      CounterKept(s, s', o);
    }
    assert forall v, b :: 0 <= v < |s'.pcs| && Deletes(s'.pcs[v], b) ==> Deletes(s.pcs[v], b);
  }

  lemma SameHolders(s: State, s': State)
    requires forall h :: h in s.handles && s.handles[h].counted ==>
      h in s'.handles && s'.handles[h].counted && s'.handles[h].rf == s.handles[h].rf
    requires forall h :: h in s'.handles && s'.handles[h].counted ==>
      h in s.handles && s.handles[h].counted && s'.handles[h].rf == s.handles[h].rf
    ensures forall b :: Holders(s', b) == Holders(s, b)
  {
  }

  /** Only handle `h` changes, and it is counted by no counter but `b`. */
  ghost predicate OnlyHolder(s: State, s': State, h: nat, b: nat) {
    && (h in s.handles && s.handles[h].counted ==> s.handles[h].rf == Some(b))
    && (h in s'.handles && s'.handles[h].counted ==> s'.handles[h].rf == Some(b))
    && (forall g :: g != h && g in s.handles ==> g in s'.handles && s'.handles[g] == s.handles[g])
    && (forall g :: g != h && g in s'.handles ==> g in s.handles)
  }

  lemma OtherHolders(s: State, s': State, h: nat, b: nat, c: nat)
    requires OnlyHolder(s, s', h, b) && b != c
    ensures Holders(s', c) == Holders(s, c)
  {
  }

  lemma OnlyHolderCounted(s: State, s': State, h: nat, b: nat)
    requires OnlyHolder(s, s', h, b)
    ensures Holders(s, b) - {h} == Holders(s', b) - {h}
  {
  }

  // ----- Every kind of step keeps the invariant -----

  lemma WrapKeepsInv(s: State, s': State, t: nat, h: nat, b: nat, obj: Option<nat>)
    requires Inv(s) && t < |s.pcs| && s.pcs[t].Idle? && Wrap(s, s', t, h, b, obj) && IsNew(s, obj)
    ensures Inv(s')
  {
    NewCounterKeepsMemory(s, s', t, h, b, obj);
    WrapFrame(s, s', t, h, b, obj);
    RestKept(s, s', t, {h});
  }

  lemma WrapFrame(s: State, s': State, t: nat, h: nat, b: nat, obj: Option<nat>)
    requires Inv(s) && t < |s.pcs| && Wrap(s, s', t, h, b, obj)
    ensures Frame(s, s', t)
  {
  }

  lemma NewCounterKeepsOther(s: State, s': State, t: nat, h: nat, b: nat, obj: Option<nat>, c: nat)
    requires Inv(s) && t < |s.pcs| && Wrap(s, s', t, h, b, obj) && IsNew(s, obj) && c in s.blocks
    ensures BlockInv(s', c) && ObjectInv(s', c)
    ensures obj.Some? ==> s.blocks[c].obj != obj
  {
    assert ObjectInv(s, c);
    OtherHolders(s, s', h, b, c);
    SameBlockKept(s, s', c);
  }

  lemma NewCounterKeepsMemory(s: State, s': State, t: nat, h: nat, b: nat, obj: Option<nat>)
    requires Inv(s) && t < |s.pcs| && s.pcs[t].Idle? && Wrap(s, s', t, h, b, obj) && IsNew(s, obj)
    ensures BlocksInv(s') && MemoryInv(s')
  {
    NoHandleOnFreeCounter(s, b);
    OnlyHolderCounted(s, s', h, b);
    assert h in Holders(s', b);
    assert Holders(s', b) == {h};
    SameDeleterKept(s, s', b);
    forall c | c in s.blocks
      ensures BlockInv(s', c) && ObjectInv(s', c)
      ensures obj.Some? ==> s.blocks[c].obj != obj
    {
      NewCounterKeepsOther(s, s', t, h, b, obj, c);
    }
    forall o | o in s'.objects
      ensures HasCounter(s', o)
    {
      if o in s.objects {
        CounterKept(s, s', o);
      } else {
        assert s'.blocks[b].obj == Some(o);
      }
    }
  }

  lemma NoHandleOnFreeCounter(s: State, b: nat)
    requires Inv(s) && b !in s.blocks
    ensures Holders(s, b) == {} && !HasDeleter(s, b) && !ObjectIsDeleted(s, b)
  {
    forall h | h in s.handles
      ensures h !in Holders(s, b)
    {
      assert HandleInv(s, h);
    }
    forall t: nat | t < |s.pcs|
      ensures !Deletes(s.pcs[t], b)
    {
      assert ThreadInv(s, t);
    }
  }

  lemma CopyKeepsInv(s: State, s': State, t: nat, h: nat, src: nat)
    requires Inv(s) && t < |s.pcs| && s.pcs[t].Idle? && Copy(s, s', t, h, src) && s.handles[src].rf.Some?
    ensures Inv(s')
  {
    assert BlocksInv(s') && MemoryInv(s') && OneDeleter(s') by {
      SameHolders(s, s');
      QuietKeepsMemory(s, s', t);
    }
    assert HandleInv(s, src);
    CopyFrame(s, s', t, h, src);
    RestKept(s, s', t, {h});
  }

  lemma CopyFrame(s: State, s': State, t: nat, h: nat, src: nat)
    requires t < |s.pcs| && s.pcs[t].Idle? && Copy(s, s', t, h, src)
    ensures Frame(s, s', t)
  {
  }

  lemma MoveKeepsInv(s: State, s': State, t: nat, h: nat, src: nat)
    requires Inv(s) && t < |s.pcs| && s.pcs[t].Idle? && Move(s, s', t, h, src)
    ensures Inv(s')
  {
    MoveKeepsCounts(s, s', t, h, src);
    QuietKeepsMemory(s, s', t);
    assert HandleInv(s, src);
    RestKept(s, s', t, {h, src});
  }

  lemma MoveKeepsCounts(s: State, s': State, t: nat, h: nat, src: nat)
    requires t < |s.pcs| && Move(s, s', t, h, src)
    ensures forall b :: |Holders(s', b)| == |Holders(s, b)|
  {
    forall b
      ensures |Holders(s', b)| == |Holders(s, b)|
    {
      MoveKeepsCount(s, s', t, h, src, b);
    }
  }

  lemma MoveKeepsCount(s: State, s': State, t: nat, h: nat, src: nat, b: nat)
    requires t < |s.pcs| && Move(s, s', t, h, src)
    ensures |Holders(s', b)| == |Holders(s, b)|
  {
    forall g
      ensures g in Holders(s', b) <==> if g == h then src in Holders(s, b) else g != src && g in Holders(s, b)
    {
      MovedHolder(s, s', t, h, src, b, g);
    }
    SwapMember(Holders(s, b), Holders(s', b), src, h);
  }

  lemma MovedHolder(s: State, s': State, t: nat, h: nat, src: nat, b: nat, g: nat)
    requires t < |s.pcs| && Move(s, s', t, h, src)
    ensures g in Holders(s', b) <==> if g == h then src in Holders(s, b) else g != src && g in Holders(s, b)
  {
  }

  lemma SwapMember(was: set<nat>, now: set<nat>, src: nat, h: nat)
    requires forall g :: g in now <==> if g == h then src in was else g != src && g in was
    requires h !in was
    ensures |now| == |was|
  {
    if src in was {
      assert now == was - {src} + {h};
    } else {
      assert now == was;
    }
  }

  lemma StartKeepsInv(s: State, s': State, t: nat, h: nat, k: Cont)
    requires Inv(s) && t < |s.pcs| && s.pcs[t].Idle? && Owns(s, t, h)
    requires k.Assign? ==> Owns(s, t, k.src) && k.src != h && s.handles[k.src].rf.Some?
    requires s' == Go(s, t, Decrement(h, k))
    ensures Inv(s')
  {
    SameHolders(s, s');
    QuietKeepsMemory(s, s', t);
    assert HandleInv(s, h);
    if k.Assign? {
      assert HandleInv(s, k.src);
    }
    RestKept(s, s', t, {});
  }

  lemma GiveKeepsInv(s: State, s': State, t: nat, h: nat, u: nat)
    requires Inv(s) && t < |s.pcs| && s.pcs[t].Idle? && Give(s, s', t, h, u)
    ensures Inv(s')
  {
    assert BlocksInv(s') && MemoryInv(s') && OneDeleter(s') by {
      SameHolders(s, s');
      QuietKeepsMemory(s, s', t);
    }
    forall g | g in s'.handles
      ensures HandleInv(s', g)
    {
      assert HandleInv(s, g);
    }
    forall v: nat | v < |s'.pcs|
      ensures ThreadInv(s', v)
    {
      GiveKeepsThread(s, s', t, h, u, v);
    }
  }

  lemma GiveKeepsThread(s: State, s': State, t: nat, h: nat, u: nat, v: nat)
    requires t < |s.pcs| && s.pcs[t].Idle? && Give(s, s', t, h, u) && v < |s.pcs| && ThreadInv(s, v)
    ensures ThreadInv(s', v)
  {
  }

  lemma NoCounterKeepsInv(s: State, s': State, t: nat)
    requires Inv(s) && t < |s.pcs| && s.pcs[t].Decrement? && Safe(s, t) && s' == After(s, t)
    requires s.handles[s.pcs[t].h].rf.None?
    ensures Inv(s')
  {
    assert ThreadInv(s, t);
    assert HandleInv(s, s.pcs[t].h);
    SameHolders(s, s');
    QuietKeepsMemory(s, s', t);
    RestKept(s, s', t, {});
  }

  lemma DecrementKeepsInv(s: State, s': State, t: nat)
    requires Inv(s) && t < |s.pcs| && s.pcs[t].Decrement? && Safe(s, t) && s' == After(s, t)
    requires s.handles[s.pcs[t].h].rf.Some?
    ensures Inv(s')
  {
    assert ThreadInv(s, t);
    assert HandleInv(s, s.pcs[t].h);
    DecrementKeepsMemory(s, s', t, s.pcs[t].h, s.handles[s.pcs[t].h].rf.value);
    OneDeleterKept(s, s', t);
    CounterFrame(s, s', t, s.pcs[t].h, s.handles[s.pcs[t].h].rf.value);
    RestKept(s, s', t, {s.pcs[t].h});
  }

  lemma OneDeleterKept(s: State, s': State, t: nat)
    requires OneDeleter(s) && t < |s.pcs| == |s'.pcs| && s'.pcs == s.pcs[t := s'.pcs[t]]
    requires Deleting(s'.pcs[t]) && !Deletes(s.pcs[t], s'.pcs[t].b) ==> !HasDeleter(s, s'.pcs[t].b)
    ensures OneDeleter(s')
  {
  }

  lemma DecrementKeepsCounter(s: State, s': State, t: nat, h: nat, b: nat)
    requires Inv(s) && t < |s.pcs| && s.pcs[t].Decrement? && s.pcs[t].h == h && Safe(s, t) && s' == After(s, t)
    requires s.handles[h].rf == Some(b) && s.handles[h].counted
    ensures BlockInv(s', b) && ObjectInv(s', b) && !HasDeleter(s, b)
  {
    assert h in Holders(s, b);
    assert BlockInv(s, b) && ObjectInv(s, b);
    OnlyHolderCounted(s, s', h, b);
    assert Holders(s', b) == Holders(s, b) - {h};
    DecrementOutcome(s, s', t, h, b);
    OnlyDeleter(s, s', t, b);
  }

  /** The counter goes down by one, and at zero the thread goes on to delete. */
  lemma DecrementOutcome(s: State, s': State, t: nat, h: nat, b: nat)
    requires t < |s.pcs| && s.pcs[t].Decrement? && s.pcs[t].h == h && Safe(s, t) && s' == After(s, t)
    requires s.handles[h].rf == Some(b)
    ensures s'.pcs == s.pcs[t := s'.pcs[t]] && !s'.pcs[t].DeleteCounter?
    ensures b in s'.blocks && s'.blocks[b] == s.blocks[b].(count := s.blocks[b].count - 1)
    ensures Deletes(s'.pcs[t], b) <==> s'.blocks[b].count == 0
    ensures s'.objects == s.objects && s'.deleted == s.deleted && s'.freed == s.freed
  {
  }

  /** Where no thread deletes counter `b`, after a step of `t` only `t` may. */
  lemma OnlyDeleter(s: State, s': State, t: nat, b: nat)
    requires t < |s.pcs| == |s'.pcs| && s'.pcs == s.pcs[t := s'.pcs[t]] && !HasDeleter(s, b)
    ensures Deletes(s'.pcs[t], b) <==> HasDeleter(s', b)
    ensures !s'.pcs[t].DeleteCounter? ==> !ObjectIsDeleted(s', b)
  {
    assert forall u :: 0 <= u < |s.pcs| && AtCounter(s.pcs[u], b) ==> Deletes(s.pcs[u], b);
  }

  lemma DecrementKeepsOther(s: State, s': State, t: nat, h: nat, b: nat, c: nat)
    requires Inv(s) && t < |s.pcs| && s.pcs[t].Decrement? && s.pcs[t].h == h && Safe(s, t) && s' == After(s, t)
    requires s.handles[h].rf == Some(b) && s.handles[h].counted && c in s'.blocks && c != b
    ensures BlockInv(s', c) && ObjectInv(s', c)
  {
    OtherHolders(s, s', h, b, c);
    SameBlockKept(s, s', c);
  }

  lemma DecrementKeepsMemory(s: State, s': State, t: nat, h: nat, b: nat)
    requires Inv(s) && t < |s.pcs| && s.pcs[t].Decrement? && s.pcs[t].h == h && Safe(s, t) && s' == After(s, t)
    requires s.handles[h].rf == Some(b) && s.handles[h].counted
    ensures BlocksInv(s') && MemoryInv(s') && !HasDeleter(s, b)
  {
    DecrementKeepsCounter(s, s', t, h, b);
    forall c | c in s'.blocks && c != b
      ensures BlockInv(s', c) && ObjectInv(s', c)
    {
      DecrementKeepsOther(s, s', t, h, b, c);
    }
    forall o | o in s'.objects
      ensures HasCounter(s', o)
    {
      CounterKept(s, s', o);
    }
  }

  lemma DeleteObjectKeepsInv(s: State, s': State, t: nat)
    requires Inv(s) && t < |s.pcs| && s.pcs[t].DeleteObject? && Safe(s, t) && s' == After(s, t)
    ensures Inv(s')
  {
    assert ThreadInv(s, t);
    assert HandleInv(s, s.pcs[t].h);
    DeleteObjectKeepsMemory(s, s', t, s.pcs[t].b);
    DeleteObjectFrame(s, s', t);
    RestKept(s, s', t, {s.pcs[t].h});
  }

  lemma DeleteObjectFrame(s: State, s': State, t: nat)
    requires t < |s.pcs| && s.pcs[t].DeleteObject? && Safe(s, t) && s' == After(s, t) && ThreadInv(s, t)
    ensures Frame(s, s', t)
  {
    CounterFrame(s, s', t, s.pcs[t].h, s.pcs[t].b);
  }

  lemma DeleteObjectKeepsOther(s: State, s': State, t: nat, b: nat, c: nat)
    requires Inv(s) && t < |s.pcs| && s.pcs[t].DeleteObject? && s.pcs[t].b == b && Safe(s, t) && s' == After(s, t)
    requires c in s'.blocks && c != b
    ensures BlockInv(s', c) && ObjectInv(s', c)
  {
    assert ThreadInv(s, t);
    SameHolders(s, s');
    SameBlockKept(s, s', c);
  }

  lemma DeleteObjectKeepsMemory(s: State, s': State, t: nat, b: nat)
    requires Inv(s) && t < |s.pcs| && s.pcs[t].DeleteObject? && s.pcs[t].b == b && Safe(s, t) && s' == After(s, t)
    ensures BlocksInv(s') && MemoryInv(s') && OneDeleter(s')
  {
    assert ThreadInv(s, t);
    SameHolders(s, s');
    assert Deletes(s.pcs[t], b) && Deletes(s'.pcs[t], b) && AtCounter(s'.pcs[t], b);
    assert HasDeleter(s', b) && ObjectIsDeleted(s', b);
    assert BlockInv(s, b) && ObjectInv(s, b);
    assert !ObjectIsDeleted(s, b);
    forall c | c in s'.blocks && c != b
      ensures BlockInv(s', c) && ObjectInv(s', c)
    {
      DeleteObjectKeepsOther(s, s', t, b, c);
    }
    forall o | o in s'.objects
      ensures HasCounter(s', o)
    {
      CounterKept(s, s', o);
    }
  }

  lemma DeleteCounterKeepsInv(s: State, s': State, t: nat)
    requires Inv(s) && t < |s.pcs| && s.pcs[t].DeleteCounter? && Safe(s, t) && s' == After(s, t)
    ensures Inv(s')
  {
    assert ThreadInv(s, t);
    assert BlockInv(s, s.pcs[t].b);
    assert Holders(s, s.pcs[t].b) == {};
    DeleteCounterKeepsMemory(s, s', t, s.pcs[t].b);
    RestKept(s, s', t, {s.pcs[t].h});
  }

  lemma DeleteCounterKeepsMemory(s: State, s': State, t: nat, b: nat)
    requires Inv(s) && t < |s.pcs| && s.pcs[t].DeleteCounter? && s.pcs[t].b == b && Safe(s, t) && s' == After(s, t)
    ensures BlocksInv(s') && MemoryInv(s') && OneDeleter(s')
  {
    assert ThreadInv(s, t);
    SameHolders(s, s');
    assert Deletes(s.pcs[t], b) && AtCounter(s.pcs[t], b);
    assert ObjectIsDeleted(s, b) && BlockInv(s, b) && ObjectInv(s, b);
    forall c | c in s'.blocks
      ensures BlockInv(s', c) && ObjectInv(s', c)
    {
      SameBlockKept(s, s', c);
    }
    forall o | o in s'.objects
      ensures HasCounter(s', o)
    {
      CounterKept(s, s', o);
    }
  }

  lemma SetKeepsInv(s: State, s': State, t: nat)
    requires Inv(s) && t < |s.pcs| && s.pcs[t].Set? && Safe(s, t) && s' == After(s, t)
    ensures Inv(s')
  {
    assert ThreadInv(s, t);
    assert HandleInv(s, s.pcs[t].src);
    SameHolders(s, s');
    QuietKeepsMemory(s, s', t);
    RestKept(s, s', t, {s.pcs[t].h});
  }

  lemma IncrementKeepsInv(s: State, s': State, t: nat)
    requires Inv(s) && t < |s.pcs| && s.pcs[t].Increment? && Safe(s, t) && s' == After(s, t)
    ensures Inv(s')
  {
    assert ThreadInv(s, t);
    var h, src := s.pcs[t].h, s.pcs[t].src;
    assert HandleInv(s, src);
    IncrementKeepsMemory(s, s', t, h, src);
    CounterFrame(s, s', t, h, s.handles[h].rf.value);
    RestKept(s, s', t, {h});
  }

  lemma IncrementKeepsCounter(s: State, s': State, t: nat, h: nat, src: nat)
    requires Inv(s) && t < |s.pcs| && s.pcs[t] == Increment(h, src) && Safe(s, t) && s' == After(s, t)
    ensures var b := s.handles[h].rf.value; BlockInv(s', b) && ObjectInv(s', b) && !HasDeleter(s, b)
  {
    assert ThreadInv(s, t);
    var b := s.handles[h].rf.value;
    assert src in Holders(s, b);
    assert BlockInv(s, b) && ObjectInv(s, b);
    OnlyHolderCounted(s, s', h, b);
    assert h in Holders(s', b);
    assert Holders(s', b) == Holders(s, b) + {h};
    SameDeleterKept(s, s', b);
  }

  lemma IncrementKeepsMemory(s: State, s': State, t: nat, h: nat, src: nat)
    requires Inv(s) && t < |s.pcs| && s.pcs[t] == Increment(h, src) && Safe(s, t) && s' == After(s, t)
    ensures BlocksInv(s') && MemoryInv(s') && OneDeleter(s') && !HasDeleter(s, s.handles[h].rf.value)
  {
    assert ThreadInv(s, t);
    var b := s.handles[h].rf.value;
    IncrementKeepsCounter(s, s', t, h, src);
    OneDeleterKept(s, s', t);
    forall c | c in s'.blocks && c != b
      ensures BlockInv(s', c) && ObjectInv(s', c)
    {
      OtherHolders(s, s', h, b, c);
      SameBlockKept(s, s', c);
    }
    forall o | o in s'.objects
      ensures HasCounter(s', o)
    {
      CounterKept(s, s', o);
    }
  }

  lemma EndKeepsInv(s: State, s': State, t: nat)
    requires Inv(s) && t < |s.pcs| && s.pcs[t].End? && Safe(s, t) && s' == After(s, t)
    ensures Inv(s')
  {
    assert ThreadInv(s, t);
    SameHolders(s, s');
    QuietKeepsMemory(s, s', t);
    RestKept(s, s', t, {s.pcs[t].h});
  }

  lemma StepKeepsInv(s: State, s': State, t: nat)
    requires Inv(s) && Step(s, s', t) && s'.clean
    ensures Inv(s')
  {
    match s.pcs[t]
    case Idle =>
      if h, b, obj :| Wrap(s, s', t, h, b, obj) {
        WrapKeepsInv(s, s', t, h, b, obj);
      } else if h, src :| Copy(s, s', t, h, src) {
        CopyKeepsInv(s, s', t, h, src);
      } else if h, src :| Move(s, s', t, h, src) {
        MoveKeepsInv(s, s', t, h, src);
      } else if h, src :| StartAssign(s, s', t, h, src) {
        if h != src {
          StartKeepsInv(s, s', t, h, Assign(src));
        }
      } else if h :| StartDestroy(s, s', t, h) {
        StartKeepsInv(s, s', t, h, Destroy);
      } else {
        var h, u :| Give(s, s', t, h, u);
        GiveKeepsInv(s, s', t, h, u);
      }
    case Decrement(h, _) =>
      if s.handles[h].rf.None? {
        NoCounterKeepsInv(s, s', t);
      } else {
        DecrementKeepsInv(s, s', t);
      }
    case DeleteObject(_, _, _) => DeleteObjectKeepsInv(s, s', t);
    case DeleteCounter(_, _, _) => DeleteCounterKeepsInv(s, s', t);
    case Set(_, _) => SetKeepsInv(s, s', t);
    case Increment(_, _) => IncrementKeepsInv(s, s', t);
    case End(_) => EndKeepsInv(s, s', t);
  }

  ghost predicate CleanInv(s: State) {
    s.clean ==> Inv(s)
  }

  lemma CleanStepKeepsInv(s: State, s': State, t: nat)
    requires CleanInv(s) && Step(s, s', t)
    ensures CleanInv(s')
  {
    if s'.clean {
      StepKeepsInv(s, s', t);
    }
  }

  lemma AlwaysInv(run: seq<State>, k: nat)
    requires IsRun(Init, Next, run) && k < |run| && run[k].clean
    ensures Inv(run[k])
  {
    forall s | Init(s)
      ensures CleanInv(s)
    {
      InitInv(s);
    }
    forall s, s' | CleanInv(s) && Next(s, s')
      ensures CleanInv(s')
    {
      var t: nat :| Step(s, s', t);
      CleanStepKeepsInv(s, s', t);
    }
    Invariance(Init, Next, CleanInv, run, k);
  }

  /** Idle threads may hand their handles to any thread, in any state. */
  lemma HandlesMayBeGiven(s: State, t: nat, h: nat, u: nat)
    requires t < |s.pcs| && s.pcs[t].Idle? && Owns(s, t, h) && u < |s.pcs|
    ensures Step(s, s.(handles := s.handles[h := s.handles[h].(owner := u)]), t)
  {
    assert Give(s, s.(handles := s.handles[h := s.handles[h].(owner := u)]), t, h, u);
  }

  // ----- The theorems -----

  /** Handle `h` refers to counter `b` and its owner is not between a decrement and an increment for it. */
  predicate IsLive(s: State, h: nat, b: nat) {
    && h in s.handles && s.handles[h].rf == Some(b)
    && s.handles[h].owner < |s.pcs| && !Uncounts(s.pcs[s.handles[h].owner], h)
  }

  lemma CountedIffLive(s: State, h: nat, b: nat)
    requires Inv(s)
    ensures h in Holders(s, b) <==> IsLive(s, h, b)
  {
    if h in s.handles {
      assert HandleInv(s, h);
      assert ThreadInv(s, s.handles[h].owner);
    }
  }

  /** Every counter equals the number of live handles on it, and no counter has been freed. */
  lemma CountIsExact(run: seq<State>, k: nat, b: nat)
    requires IsRun(Init, Next, run) && k < |run| && run[k].clean && b in run[k].blocks
    ensures run[k].blocks[b].count == |set h | h in run[k].handles && IsLive(run[k], h, b)|
    ensures b !in run[k].freed
  {
    var s := run[k];
    AlwaysInv(run, k);
    assert BlockInv(s, b);
    forall h
      ensures h in Holders(s, b) <==> IsLive(s, h, b)
    {
      CountedIffLive(s, h, b);
    }
    assert Holders(s, b) == set h | h in s.handles && IsLive(s, h, b);
  }

  /** What a live handle refers to has been neither freed nor deleted. */
  lemma LiveHandleIsUsable(run: seq<State>, k: nat, h: nat, b: nat)
    requires IsRun(Init, Next, run) && k < |run| && run[k].clean && IsLive(run[k], h, b)
    ensures var s := run[k];
            && b in s.blocks && b !in s.freed && s.blocks[b].count > 0 && s.blocks[b].obj == s.handles[h].ptr
            && (s.handles[h].ptr.Some? ==> s.handles[h].ptr.value in s.objects && s.handles[h].ptr.value !in s.deleted)
  {
    var s := run[k];
    AlwaysInv(run, k);
    CountedIffLive(s, h, b);
    assert HandleInv(s, h);
    assert BlockInv(s, b) && ObjectInv(s, b);
    assert forall t :: 0 <= t < |s.pcs| ==> !Deletes(s.pcs[t], b);
  }

  lemma InvIsSafe(s: State, t: nat)
    requires Inv(s) && t < |s.pcs|
    ensures Safe(s, t)
  {
    assert ThreadInv(s, t);
    match s.pcs[t]
    case Decrement(h, _) => assert HandleInv(s, h);
    case DeleteObject(_, b, _) =>
      assert ObjectInv(s, b);
      assert Deletes(s.pcs[t], b);
      if ObjectIsDeleted(s, b) {
        var u :| 0 <= u < |s.pcs| && AtCounter(s.pcs[u], b);
        assert Deletes(s.pcs[u], b);
      }
    case Increment(_, src) => assert HandleInv(s, src);
    case _ =>
  }

  /** No step of any thread reads or writes memory that has been freed, in any run. */
  lemma NoUseAfterFree(run: seq<State>, k: nat, t: nat)
    requires IsRun(Init, Next, run) && k < |run| && run[k].clean && t < |run[k].pcs|
    ensures Safe(run[k], t)
  {
    AlwaysInv(run, k);
    InvIsSafe(run[k], t);
  }

  /** No object and no counter is deleted twice, and nothing that is deleted is in use. */
  lemma NothingIsDeletedTwice(run: seq<State>, k: nat)
    requires IsRun(Init, Next, run) && k < |run| && run[k].clean
    ensures Distinct(run[k].deleted) && Distinct(run[k].freed)
    ensures forall o :: o in run[k].objects ==> o !in run[k].deleted
    ensures forall b :: b in run[k].blocks ==> b !in run[k].freed
  {
    AlwaysInv(run, k);
    forall b | b in run[k].blocks
      ensures b !in run[k].freed
    {
      assert BlockInv(run[k], b);
    }
  }

  ghost predicate AllIdle(s: State) {
    forall t :: 0 <= t < |s.pcs| ==> s.pcs[t] == Idle
  }

  ghost predicate HasHandle(s: State, b: nat) {
    exists h :: h in s.handles && s.handles[h].rf == Some(b)
  }

  ghost predicate HasOwner(s: State, o: nat) {
    exists h :: h in s.handles && s.handles[h].rf.Some? && s.handles[h].ptr == Some(o)
  }

  /** Between operations a counter is allocated exactly while some handle refers to it. */
  lemma CounterFreedWithLastHandle(run: seq<State>, k: nat, b: nat)
    requires IsRun(Init, Next, run) && k < |run| && run[k].clean && AllIdle(run[k])
    ensures b in run[k].blocks <==> HasHandle(run[k], b)
  {
    var s := run[k];
    AlwaysInv(run, k);
    if b in s.blocks {
      assert BlockInv(s, b);
      assert Holders(s, b) != {};
      var h :| h in Holders(s, b);
      assert s.handles[h].rf == Some(b);
    }
    if HasHandle(s, b) {
      var h :| h in s.handles && s.handles[h].rf == Some(b);
      assert HandleInv(s, h);
    }
  }

  /** Between operations an object is allocated exactly while some handle owns it: nothing leaks. */
  lemma ObjectDeletedWithLastHandle(run: seq<State>, k: nat, o: nat)
    requires IsRun(Init, Next, run) && k < |run| && run[k].clean && AllIdle(run[k])
    ensures o in run[k].objects <==> HasOwner(run[k], o)
  {
    var s := run[k];
    AlwaysInv(run, k);
    if o in s.objects {
      assert HasCounter(s, o);
      var b :| b in s.blocks && s.blocks[b].obj == Some(o);
      CounterFreedWithLastHandle(run, k, b);
      var h :| h in s.handles && s.handles[h].rf == Some(b);
      assert HandleInv(s, h);
      assert s.handles[h].ptr == Some(o);
    }
    if HasOwner(s, o) {
      var h :| h in s.handles && s.handles[h].rf.Some? && s.handles[h].ptr == Some(o);
      assert HandleInv(s, h);
      LiveHandleIsUsable(run, k, h, s.handles[h].rf.value);
    }
  }

  predicate WasWrapped(s: State, o: nat) {
    o in s.objects || o in s.deleted
  }

  lemma AfterKeepsWrapped(s: State, t: nat, o: nat)
    requires t < |s.pcs| && Safe(s, t) && WasWrapped(s, o)
    ensures WasWrapped(After(s, t), o)
  {
  }

  lemma BeginKeepsWrapped(s: State, s': State, t: nat, o: nat)
    requires t < |s.pcs| && Begin(s, s', t) && WasWrapped(s, o)
    ensures WasWrapped(s', o)
  {
  }

  lemma StepKeepsWrapped(s: State, s': State, t: nat, o: nat)
    requires Step(s, s', t) && WasWrapped(s, o)
    ensures WasWrapped(s', o)
  {
    if s.pcs[t].Idle? {
      BeginKeepsWrapped(s, s', t, o);
    } else {
      AfterKeepsWrapped(s, t, o);
    }
  }

  /** An object that was wrapped is allocated or deleted ever after. */
  lemma WrappedForever(run: seq<State>, i: nat, k: nat, o: nat)
    requires IsRun(Init, Next, run) && i <= k < |run| && WasWrapped(run[i], o)
    ensures WasWrapped(run[k], o)
  {
    forall s, s' | WasWrapped(s, o) && Next(s, s')
      ensures WasWrapped(s', o)
    {
      var t: nat :| Step(s, s', t);
      StepKeepsWrapped(s, s', t, o);
    }
    Persistence(Init, Next, (s: State) => WasWrapped(s, o), run, i, k);
  }

  /** Between operations, an object wrapped earlier in the run has been deleted exactly if no handle owns it. */
  lemma DeletedIffNoOwner(run: seq<State>, i: nat, k: nat, o: nat)
    requires IsRun(Init, Next, run) && i <= k < |run| && run[k].clean && o in run[i].objects && AllIdle(run[k])
    ensures o in run[k].deleted <==> !HasOwner(run[k], o)
  {
    WrappedForever(run, i, k, o);
    ObjectDeletedWithLastHandle(run, k, o);
    NothingIsDeletedTwice(run, k);
  }

  function StepsLeft(pc: Pc): nat {
    match pc
    case Idle => 0
    case Increment(_, _) => 1
    case End(_) => 1
    case Set(_, _) => 2
    case DeleteCounter(_, _, _) => 3
    case DeleteObject(_, _, _) => 4
    case Decrement(_, _) => 5
  }

  /** No operation waits: each step that a busy thread takes brings it nearer to the end of its operation. */
  lemma OperationsFinish(run: seq<State>, k: nat, t: nat)
    requires IsRun(Init, Next, run) && k < |run| && run[k].clean && t < |run[k].pcs| && !run[k].pcs[t].Idle?
    ensures exists s' :: Step(run[k], s', t) && t < |s'.pcs| && StepsLeft(s'.pcs[t]) < StepsLeft(run[k].pcs[t])
  {
    NoUseAfterFree(run, k, t);
    assert Step(run[k], After(run[k], t), t);
  }

  /** Without move construction no handle ever loses its counter, so `release` need not test for null. */
  lemma NeverNullWithoutMoves(run: seq<State>, k: nat, h: nat)
    requires IsRun(Init, Next, run) && k < |run| && run[k].clean && !run[k].moves && h in run[k].handles
    ensures run[k].handles[h].rf.Some?
  {
    AlwaysInv(run, k);
    assert HandleInv(run[k], h);
  }

  // ----- What makes a program unclean -----

  /** A copy is safe exactly when its source is not null. */
  lemma CopyIsSafeIff(run: seq<State>, k: nat, s': State, t: nat, h: nat, src: nat)
    requires IsRun(Init, Next, run) && k < |run| && run[k].clean
    requires t < |run[k].pcs| && run[k].pcs[t].Idle? && Copy(run[k], s', t, h, src)
    ensures Safe(s', t) <==> run[k].handles[src].rf.Some?
  {
    AlwaysInv(run, k);
    assert HandleInv(run[k], src);
  }

  /** The step leaves `h` null: it is moved from, or constructed by a move from a null handle. */
  ghost predicate Empties(s: State, s': State, h: nat) {
    exists t: nat, g ::
      t < |s.pcs| && (Move(s, s', t, g, h) || (Move(s, s', t, h, g) && s.handles[g].rf.None?))
  }

  /** The step sets `h`: it constructs the handle or assigns to it. */
  ghost predicate Sets(s: State, s': State, h: nat) {
    || h !in s.handles
    || exists t: nat, src :: t < |s.pcs| == |s'.pcs| && s.pcs[t] == Set(h, src) && s'.pcs[t] == Increment(h, src)
  }

  predicate IsNull(s: State, h: nat) {
    h in s.handles && s.handles[h].rf.None?
  }

  lemma MoveNull(s: State, s': State, t: nat, h: nat, src: nat, g: nat)
    requires t < |s.pcs| && Move(s, s', t, h, src) && g in s'.handles
    ensures IsNull(s', g) <==> Empties(s, s', g) || (IsNull(s, g) && !Sets(s, s', g))
  {
    if g == src {
      assert Move(s, s', t, h, g);
    } else if g == h && s.handles[src].rf.None? {
      assert Move(s, s', t, g, src);
    }
  }

  lemma NotAMove(s: State, s': State)
    requires s'.pcs != s.pcs || s'.blocks != s.blocks || s'.handles.Keys == s.handles.Keys
    ensures forall h :: !Empties(s, s', h)
  {
  }

  /** A thread at work changes its own program point, and the counter field of the handle it sets. */
  lemma AfterFields(s: State, s': State, t: nat, g: nat)
    requires t < |s.pcs| && !s.pcs[t].Idle? && Safe(s, t) && s' == After(s, t) && g in s'.handles
    ensures |s'.pcs| == |s.pcs| && s'.pcs == s.pcs[t := s'.pcs[t]] && s'.pcs[t] != s.pcs[t] && g in s.handles
    ensures if s.pcs[t].Set? && s.pcs[t].h == g
            then s'.pcs[t] == Increment(g, s.pcs[t].src) && s'.handles[g].rf == s.handles[s.pcs[t].src].rf
            else s'.handles[g].rf == s.handles[g].rf
  {
  }

  /** A step of `t` at work on one handle. */
  lemma AfterNull(s: State, s': State, t: nat, g: nat)
    requires t < |s.pcs| && !s.pcs[t].Idle? && Safe(s, t) && s' == After(s, t) && g in s'.handles
    requires s.pcs[t].Set? ==> s.handles[s.pcs[t].src].rf.Some?
    ensures IsNull(s', g) <==> Empties(s, s', g) || (IsNull(s, g) && !Sets(s, s', g))
  {
    AfterFields(s, s', t, g);
    NotAMove(s, s');
    assert s.pcs[t].Set? && s.pcs[t].h == g ==> s.pcs[t] == Set(g, s.pcs[t].src);
  }

  /** A step that creates at most handles with a counter, and leaves the others null or not. */
  lemma BeginNull(s: State, s': State, t: nat, g: nat)
    requires t < |s.pcs| == |s'.pcs| && s'.pcs == s.pcs[t := s'.pcs[t]] && s.pcs[t].Idle? && g in s'.handles
    requires s'.pcs != s.pcs || s'.blocks != s.blocks || s'.handles.Keys == s.handles.Keys
    requires if g in s.handles then s'.handles[g].rf == s.handles[g].rf else s'.handles[g].rf.Some?
    ensures IsNull(s', g) <==> Empties(s, s', g) || (IsNull(s, g) && !Sets(s, s', g))
  {
    NotAMove(s, s');
  }

  lemma BeginningNull(s: State, s': State, t: nat, g: nat)
    requires t < |s.pcs| && s.pcs[t].Idle? && Begin(s, s', t) && s'.clean && g in s'.handles
    ensures IsNull(s', g) <==> Empties(s, s', g) || (IsNull(s, g) && !Sets(s, s', g))
  {
    if h, src :| Move(s, s', t, h, src) {
      MoveNull(s, s', t, h, src, g);
    } else if h, b, obj :| Wrap(s, s', t, h, b, obj) {
      assert b in s'.blocks && b !in s.blocks;
      BeginNull(s, s', t, g);
    } else if h, src :| Copy(s, s', t, h, src) {
      assert s'.pcs[t] != s.pcs[t];
      BeginNull(s, s', t, g);
    } else {
      assert s'.handles.Keys == s.handles.Keys;
      BeginNull(s, s', t, g);
    }
  }

  lemma SourceIsNotNull(s: State, t: nat)
    requires Inv(s) && t < |s.pcs| && s.pcs[t].Set?
    ensures s.pcs[t].src in s.handles && s.handles[s.pcs[t].src].rf.Some?
  {
    assert ThreadInv(s, t);
    assert HandleInv(s, s.pcs[t].src);
  }

  lemma StepNull(s: State, s': State, t: nat, g: nat)
    requires Inv(s) && Step(s, s', t) && s'.clean && g in s'.handles
    ensures IsNull(s', g) <==> Empties(s, s', g) || (IsNull(s, g) && !Sets(s, s', g))
  {
    if s.pcs[t].Idle? {
      BeginningNull(s, s', t, g);
    } else {
      if s.pcs[t].Set? {
        SourceIsNotNull(s, t);
      }
      AfterNull(s, s', t, g);
    }
  }

  /** Before `run[k]` some step has emptied `h`, and no step since has set it. */
  ghost predicate MovedFrom(run: seq<State>, k: nat, h: nat)
    requires k < |run|
  {
    exists i: nat :: i < k && Empties(run[i], run[i + 1], h) && Unset(run, i, k, h)
  }

  ghost predicate Unset(run: seq<State>, i: nat, k: nat, h: nat)
    requires k < |run|
  {
    forall j: nat :: i < j < k ==> !Sets(run[j], run[j + 1], h)
  }

  lemma MovedFromStep(run: seq<State>, k: nat, h: nat)
    requires k + 1 < |run|
    ensures MovedFrom(run, k + 1, h) <==>
            Empties(run[k], run[k + 1], h) || (MovedFrom(run, k, h) && !Sets(run[k], run[k + 1], h))
  {
    if MovedFrom(run, k + 1, h) {
      var i: nat :| i < k + 1 && Empties(run[i], run[i + 1], h) && Unset(run, i, k + 1, h);
      assert i == k || Unset(run, i, k, h);
    } else {
      assert Unset(run, k, k + 1, h);
      assert forall i: nat :: i < k && Unset(run, i, k, h) && !Sets(run[k], run[k + 1], h) ==>
        Unset(run, i, k + 1, h);
    }
  }

  /** A handle is null exactly if it has been moved from and not been set since. */
  lemma {:induction false} NullIffMovedFrom(run: seq<State>, k: nat, h: nat)
    requires IsRun(Init, Next, run) && k < |run| && run[k].clean && h in run[k].handles
    ensures run[k].handles[h].rf.None? <==> MovedFrom(run, k, h)
  {
    if k == 0 {
    } else {
      assert Next(run[k - 1], run[k]);
      var t: nat :| Step(run[k - 1], run[k], t);
      AlwaysInv(run, k - 1);
      StepNull(run[k - 1], run[k], t, h);
      MovedFromStep(run, k - 1, h);
      if h in run[k - 1].handles {
        NullIffMovedFrom(run, k - 1, h);
      }
    }
  }

  /** So a copy is safe exactly when its source has not been moved from since it was set. */
  lemma CopyIsSafeIffNotMovedFrom(run: seq<State>, k: nat, s': State, t: nat, h: nat, src: nat)
    requires IsRun(Init, Next, run) && k < |run| && run[k].clean
    requires t < |run[k].pcs| && run[k].pcs[t].Idle? && Copy(run[k], s', t, h, src)
    ensures Safe(s', t) <==> !MovedFrom(run, k, src)
  {
    CopyIsSafeIff(run, k, s', t, h, src);
    NullIffMovedFrom(run, k, src);
  }

  /** `t` goes on alone to the end of its operation, and each of its accesses is to allocated memory. */
  ghost predicate FinishesSafely(s: State, t: nat)
    requires t < |s.pcs|
    decreases StepsLeft(s.pcs[t])
  {
    s.pcs[t].Idle? || (Safe(s, t) && FinishesSafely(After(s, t), t))
  }

  lemma AfterKeepsClean(s: State, t: nat)
    requires Inv(s) && t < |s.pcs| && !s.pcs[t].Idle? && Safe(s, t)
    ensures Inv(After(s, t)) && |After(s, t).pcs| == |s.pcs|
  {
    StepKeepsInv(s, After(s, t), t);
  }

  lemma {:induction false} CleanFinishesSafely(s: State, t: nat)
    requires Inv(s) && t < |s.pcs|
    ensures FinishesSafely(s, t)
    decreases StepsLeft(s.pcs[t])
  {
    InvIsSafe(s, t);
    if s.pcs[t].Idle? {
    } else {
      AfterKeepsClean(s, t);
      CleanFinishesSafely(After(s, t), t);
    }
  }

  /** The thread is assigning the null handle `src` to another one. */
  predicate AssignsNull(s: State, t: nat, src: nat)
    requires t < |s.pcs|
  {
    && src in s.handles && s.handles[src].rf.None?
    && match s.pcs[t]
       case Decrement(h, k) => k == Assign(src) && h != src
       case DeleteObject(h, _, k) => k == Assign(src) && h != src
       case DeleteCounter(h, _, k) => k == Assign(src) && h != src
       case Set(h, g) => g == src && h != src
       case Increment(h, g) => g == src && h != src && h in s.handles && s.handles[h].rf.None?
       case _ => false
  }

  lemma {:induction false} NullSourceFails(s: State, t: nat, src: nat)
    requires t < |s.pcs| && AssignsNull(s, t, src)
    ensures !FinishesSafely(s, t)
    decreases StepsLeft(s.pcs[t])
  {
    if !s.pcs[t].Increment? && Safe(s, t) {
      NullSourceFails(After(s, t), t, src);
    }
  }

  /** A copy assignment runs to its end safely exactly when it is to itself or its source is not null. */
  lemma AssignIsSafeIff(run: seq<State>, k: nat, s': State, t: nat, h: nat, src: nat)
    requires IsRun(Init, Next, run) && k < |run| && run[k].clean
    requires t < |run[k].pcs| && run[k].pcs[t].Idle? && StartAssign(run[k], s', t, h, src)
    ensures FinishesSafely(s', t) <==> h == src || run[k].handles[src].rf.Some?
  {
    AlwaysInv(run, k);
    if h == src {
    } else if run[k].handles[src].rf.Some? {
      StartKeepsInv(run[k], s', t, h, Assign(src));
      CleanFinishesSafely(s', t);
    } else {
      NullSourceFails(s', t, src);
    }
  }

  lemma AssignIsSafeIffNotMovedFrom(run: seq<State>, k: nat, s': State, t: nat, h: nat, src: nat)
    requires IsRun(Init, Next, run) && k < |run| && run[k].clean
    requires t < |run[k].pcs| && run[k].pcs[t].Idle? && StartAssign(run[k], s', t, h, src)
    ensures FinishesSafely(s', t) <==> h == src || !MovedFrom(run, k, src)
  {
    AssignIsSafeIff(run, k, s', t, h, src);
    NullIffMovedFrom(run, k, src);
  }

  // ----- Other threads do not help: they leave the handles of the thread alone, also in unclean runs -----

  /** The handles on which the thread works are its own. */
  ghost predicate WorksOnOwn(s: State, t: nat)
    requires t < |s.pcs|
  {
    match s.pcs[t]
    case Idle => true
    case Decrement(h, k) => Owns(s, t, h) && (k.Assign? ==> k.src != h && Owns(s, t, k.src))
    case DeleteObject(h, _, k) => Owns(s, t, h) && (k.Assign? ==> k.src != h && Owns(s, t, k.src))
    case DeleteCounter(h, _, k) => Owns(s, t, h) && (k.Assign? ==> k.src != h && Owns(s, t, k.src))
    case Set(h, src) => src != h && Owns(s, t, h) && Owns(s, t, src)
    case Increment(h, src) => src != h && Owns(s, t, h) && Owns(s, t, src)
    case End(h) => Owns(s, t, h)
  }

  ghost predicate OwnInv(s: State) {
    forall t: nat :: t < |s.pcs| ==> WorksOnOwn(s, t)
  }

  /** The step changes no other thread, and no handle of another thread. */
  ghost predicate OwnStep(s: State, s': State, t: nat) {
    && t < |s.pcs| == |s'.pcs|
    && (forall u :: 0 <= u < |s.pcs| && u != t ==> s'.pcs[u] == s.pcs[u])
    && (forall h :: h in s.handles && s.handles[h].owner != t ==> h in s'.handles && s'.handles[h] == s.handles[h])
  }

  lemma BeginOnOwn(s: State, s': State, t: nat)
    requires t < |s.pcs| && s.pcs[t].Idle? && Begin(s, s', t)
    ensures OwnStep(s, s', t) && WorksOnOwn(s', t)
  {
    if h, b, obj :| Wrap(s, s', t, h, b, obj) {
    } else if h, src :| Copy(s, s', t, h, src) {
    } else if h, src :| Move(s, s', t, h, src) {
    } else if h, src :| StartAssign(s, s', t, h, src) {
    } else if h :| StartDestroy(s, s', t, h) {
    } else {
      var h, u :| Give(s, s', t, h, u);
    }
  }

  lemma AfterOnOwn(s: State, t: nat)
    requires t < |s.pcs| && Safe(s, t) && WorksOnOwn(s, t)
    ensures OwnStep(s, After(s, t), t) && WorksOnOwn(After(s, t), t)
  {
  }

  lemma OtherOnOwn(s: State, s': State, t: nat, u: nat)
    requires OwnStep(s, s', t) && u < |s.pcs| && u != t && WorksOnOwn(s, u)
    ensures WorksOnOwn(s', u)
  {
  }

  lemma StepOnOwn(s: State, s': State, t: nat)
    requires OwnInv(s) && Step(s, s', t)
    ensures OwnStep(s, s', t) && OwnInv(s')
  {
    if s.pcs[t].Idle? {
      BeginOnOwn(s, s', t);
    } else {
      AfterOnOwn(s, t);
    }
    forall u: nat | u < |s.pcs| && u != t
      ensures WorksOnOwn(s', u)
    {
      OtherOnOwn(s, s', t, u);
    }
  }

  lemma AlwaysOwn(run: seq<State>, k: nat)
    requires IsRun(Init, Next, run) && k < |run|
    ensures OwnInv(run[k])
  {
    forall s, s' | OwnInv(s) && Next(s, s')
      ensures OwnInv(s')
    {
      var t: nat :| Step(s, s', t);
      StepOnOwn(s, s', t);
    }
    Invariance(Init, Next, OwnInv, run, k);
  }

  ghost predicate StillAssignsNull(s: State, t: nat, src: nat) {
    OwnInv(s) && t < |s.pcs| && AssignsNull(s, t, src) && Owns(s, t, src)
  }

  lemma StepKeepsAssigning(s: State, s': State, u: nat, t: nat, src: nat)
    requires StillAssignsNull(s, t, src) && Step(s, s', u)
    ensures StillAssignsNull(s', t, src)
  {
    StepOnOwn(s, s', u);
    assert WorksOnOwn(s, t);
  }

  /** Whatever the other threads do, the assignment of a null handle to another one never comes to its end. */
  lemma NullAssignNeverEnds(run: seq<State>, k: nat, j: nat, t: nat, h: nat, src: nat)
    requires IsRun(Init, Next, run) && k < j < |run|
    requires t < |run[k].pcs| && StartAssign(run[k], run[k + 1], t, h, src)
    requires h != src && run[k].handles[src].rf.None?
    ensures t < |run[j].pcs| && !run[j].pcs[t].Idle?
  {
    AlwaysOwn(run, k + 1);
    forall s, s' | StillAssignsNull(s, t, src) && Next(s, s')
      ensures StillAssignsNull(s', t, src)
    {
      var u: nat :| Step(s, s', u);
      StepKeepsAssigning(s, s', u, t, src);
    }
    Persistence(Init, Next, (s: State) => StillAssignsNull(s, t, src), run, k + 1, j);
  }

  // ----- What a thread has done when it leaves an operation -----

  /** The thread assigns `src` to `h`, or constructs `h` as a copy of it. */
  predicate IsCopying(s: State, t: nat, h: nat, src: nat) {
    && t < |s.pcs|
    && match s.pcs[t]
       case Decrement(g, k) => g == h && k == Assign(src)
       case DeleteObject(g, _, k) => g == h && k == Assign(src)
       case DeleteCounter(g, _, k) => g == h && k == Assign(src)
       case Set(g, from) => g == h && from == src
       case Increment(g, from) => g == h && from == src
       case _ => false
  }

  predicate IsDestroying(s: State, t: nat, h: nat) {
    && t < |s.pcs|
    && match s.pcs[t]
       case Decrement(g, k) => g == h && k.Destroy?
       case DeleteObject(g, _, k) => g == h && k.Destroy?
       case DeleteCounter(g, _, k) => g == h && k.Destroy?
       case End(g) => g == h
       case _ => false
  }

  /** Both handles refer to the same counter and object, are counted, and have the same owner. */
  predicate IsCopy(s: State, h: nat, src: nat) {
    && h in s.handles && src in s.handles
    && s.handles[h] == s.handles[src] && s.handles[h].counted
  }

  /** A thread at work changes no handle but the one it is working on. */
  lemma OtherHandlesStay(s: State, t: nat, g: nat)
    requires t < |s.pcs| && Safe(s, t) && (s.pcs[t].Idle? || g != s.pcs[t].h)
    ensures g in After(s, t).handles <==> g in s.handles
    ensures g in s.handles ==> After(s, t).handles[g] == s.handles[g]
  {
  }

  lemma OthersPoints(s: State, s': State, t: nat, v: nat)
    requires Step(s, s', t) && v < |s.pcs|
    ensures |s'.pcs| == |s.pcs| && (v != t ==> s'.pcs[v] == s.pcs[v])
  {
    if s.pcs[t].Idle? {
      BeginOnOwn(s, s', t);
    }
  }

  lemma OwnCopying(s: State, t: nat, h: nat, src: nat)
    requires Inv(s) && IsCopying(s, t, h, src) && Safe(s, t)
    ensures IsCopying(After(s, t), t, h, src) || HasCopied(After(s, t), t, h, src)
  {
    assert ThreadInv(s, t);
    if s.pcs[t].Increment? {
      assert HandleInv(s, src);
    }
  }

  /** Copying goes on until the target is a counted copy of the source. */
  lemma CopyingMakesCopy(s: State, s': State, t: nat, v: nat, h: nat, src: nat)
    requires Inv(s) && Step(s, s', t) && IsCopying(s, v, h, src)
    ensures IsCopying(s', v, h, src) || (v == t && HasCopied(s', v, h, src))
  {
    OthersPoints(s, s', t, v);
    if v == t {
      OwnCopying(s, t, h, src);
    }
  }

  /** Destruction goes on until the handle is gone. */
  lemma DestroyingRemoves(s: State, s': State, t: nat, v: nat, h: nat)
    requires Step(s, s', t) && IsDestroying(s, v, h)
    ensures IsDestroying(s', v, h) || (v == t && s'.pcs[v].Idle? && s'.handles == s.handles - {h})
  {
    OthersPoints(s, s', t, v);
  }

  /** Thread `t` is out of its operation, and `h` is a counted copy of `src`. */
  predicate HasCopied(s: State, t: nat, h: nat, src: nat) {
    t < |s.pcs| && s.pcs[t].Idle? && IsCopy(s, h, src)
  }

  lemma StaysUnclean(run: seq<State>, i: nat, j: nat)
    requires IsRun(Init, Next, run) && i <= j < |run| && run[j].clean
    ensures run[i].clean
  {
    if !run[i].clean {
      Persistence(Init, Next, (s: State) => !s.clean, run, i, j);
    }
  }

  lemma RunCopies(run: seq<State>, k: nat, j: nat, t: nat, h: nat, src: nat)
    requires IsRun(Init, Next, run) && k < j < |run| && run[j].clean
    requires IsCopying(run[k], t, h, src) && !IsCopying(run[k + 1], t, h, src)
    ensures HasCopied(run[k + 1], t, h, src)
  {
    StaysUnclean(run, k, j);
    AlwaysInv(run, k);
    assert Next(run[k + 1 - 1], run[k + 1]);
    var u: nat :| Step(run[k], run[k + 1], u);
    CopyingMakesCopy(run[k], run[k + 1], u, t, h, src);
  }

  /**
   So when a copy construction or an assignment that has begun is over, the target has been made a counted
   copy of the source, whatever other threads have done in between.
   */
  lemma CopyIsMade(run: seq<State>, i: nat, j: nat, t: nat, h: nat, src: nat)
    requires IsRun(Init, Next, run) && i <= j < |run| && run[j].clean
    requires IsCopying(run[i], t, h, src) && !IsCopying(run[j], t, h, src)
    ensures exists k :: i < k <= j && HasCopied(run[k], t, h, src)
  {
    var k := LastBefore(run, (s: State) => IsCopying(s, t, h, src), i, j);
    RunCopies(run, k, j, t, h, src);
  }

  lemma RunDestroys(run: seq<State>, k: nat, t: nat, h: nat)
    requires IsRun(Init, Next, run) && k + 1 < |run|
    requires IsDestroying(run[k], t, h) && !IsDestroying(run[k + 1], t, h)
    ensures IsGone(run[k + 1], t, h)
  {
    assert Next(run[k + 1 - 1], run[k + 1]);
    var u: nat :| Step(run[k], run[k + 1], u);
    DestroyingRemoves(run[k], run[k + 1], u, t, h);
  }

  predicate IsGone(s: State, t: nat, h: nat) {
    t < |s.pcs| && s.pcs[t].Idle? && h !in s.handles
  }

  /** And when a destruction that has begun is over, the handle has gone. */
  lemma DestructionIsDone(run: seq<State>, i: nat, j: nat, t: nat, h: nat)
    requires IsRun(Init, Next, run) && i <= j < |run| && IsDestroying(run[i], t, h) && !IsDestroying(run[j], t, h)
    ensures exists k :: i < k <= j && IsGone(run[k], t, h)
  {
    var k := LastBefore(run, (s: State) => IsDestroying(s, t, h), i, j);
    RunDestroys(run, k, t, h);
  }

  /** Both operations begin so; only an assignment to itself does nothing. */
  lemma CopyBegins(s: State, s': State, t: nat, h: nat, src: nat)
    requires t < |s.pcs| && (Copy(s, s', t, h, src) || StartAssign(s, s', t, h, src))
    ensures if h == src then s' == s else IsCopying(s', t, h, src)
    ensures forall g :: g in s.handles ==> g in s'.handles && s'.handles[g] == s.handles[g]
    ensures s'.blocks == s.blocks && s'.objects == s.objects
  {
  }

  lemma OneStep(run: seq<State>, t: nat, s: State) returns (longer: seq<State>)
    requires IsRun(Init, Next, run) && Step(run[|run| - 1], s, t)
    ensures IsRun(Init, Next, longer) && longer == run + [s]
  {
    Extend(Init, Next, run, s);
    longer := run + [s];
  }

  /** Construct a handle and move it to another one. */
  lemma ConstructAndMove(s: State) returns (run: seq<State>)
    requires Init(s) && s.moves && |s.pcs| > 0
    ensures IsRun(Init, Next, run) && |run| == 3 && run[0] == s
    ensures run[2] == s.(handles := map[0 := Handle(None, None, 0, false), 1 := Handle(None, Some(0), 0, true)],
                         blocks := map[0 := Block(1, None)])
  {
    var a := s.(handles := map[0 := Handle(None, Some(0), 0, true)], blocks := map[0 := Block(1, None)]);
    assert Wrap(s, a, 0, 0, 0, None);
    var b := a.(handles := a.handles[1 := a.handles[0]][0 := Handle(None, None, 0, false)]);
    assert Move(a, b, 0, 1, 0);
    run := OneStep([s], 0, a);
    run := OneStep(run, 0, b);
  }

  /** Copy the handle that was moved from: the increment would dereference null. */
  lemma MovedCopyIsUnsafe(s: State) returns (run: seq<State>)
    requires Init(s) && s.moves && |s.pcs| > 0
    ensures IsRun(Init, Next, run) && |run| == 4 && run[0] == s && |run[3].pcs| > 0 && !Safe(run[3], 0)
  {
    run := ConstructAndMove(s);
    var b := run[2];
    var c := Go(b, 0, Increment(2, 0)).(handles := b.handles[2 := Handle(None, None, 0, false)], clean := false);
    assert Copy(b, c, 0, 2, 0);
    run := OneStep(run, 0, c);
  }

  /** Assign the handle that was moved from: `release` succeeds, and then the increment would dereference null. */
  lemma MovedAssignIsUnsafe(s: State) returns (run: seq<State>)
    requires Init(s) && s.moves && |s.pcs| > 0
    ensures IsRun(Init, Next, run) && |run| == 4 && run[0] == s && |run[3].pcs| > 0
    ensures run[3].pcs[0] == Decrement(1, Assign(0)) && Safe(run[3], 0) && !FinishesSafely(run[3], 0)
  {
    run := ConstructAndMove(s);
    var c := Go(run[2], 0, Decrement(1, Assign(0))).(clean := false);
    assert StartAssign(run[2], c, 0, 1, 0);
    run := OneStep(run, 0, c);
    NullSourceFails(c, 0, 0);
  }

  // ----- What a second wrap makes of a program -----

  /** Nothing has been deleted twice, no thread is about to use freed memory, and no live handle's object is deleted. */
  ghost predicate Sound(s: State) {
    && Distinct(s.deleted)
    && (forall t: nat :: t < |s.pcs| ==> Safe(s, t))
    && (forall h, b :: IsLive(s, h, b) && s.handles[h].ptr.Some? ==> s.handles[h].ptr.value !in s.deleted)
  }

  /** `run[k]` begins the destruction of `h` by thread `t`, and the rest of the run is that destruction. */
  ghost predicate Destroys(run: seq<State>, k: nat, t: nat, h: nat) {
    && k + 1 < |run| && t < |run[k].pcs| && StartDestroy(run[k], run[k + 1], t, h)
    && forall i :: k < i < |run| - 1 ==> Step(run[i], run[i + 1], t)
  }

  /** Without handle `h`, the last on its counter. */
  function Without(s: State, h: nat): State
    requires h in s.handles && s.handles[h].rf.Some?
  {
    var handle := s.handles[h];
    var gone := if handle.ptr.Some? then [handle.ptr.value] else [];
    s.(handles := s.handles - {h}, blocks := s.blocks - {handle.rf.value},
       objects := if handle.ptr.Some? then s.objects - {handle.ptr.value} else s.objects,
       deleted := s.deleted + gone, freed := s.freed + [handle.rf.value])
  }

  /** `h` is a handle of the idle thread `t`, alone on its counter, and its object is allocated. */
  predicate IsAlone(s: State, t: nat, h: nat) {
    && t < |s.pcs| && s.pcs[t].Idle? && Owns(s, t, h) && s.handles[h].rf.Some?
    && s.handles[h].rf.value in s.blocks && s.blocks[s.handles[h].rf.value].count == 1
    && (s.handles[h].ptr.Some? ==> s.handles[h].ptr.value in s.objects)
  }

  /** Destroying a handle that is alone, up to the deletion of its object. */
  lemma StartAndDrop(run: seq<State>, t: nat, h: nat) returns (longer: seq<State>)
    requires IsRun(Init, Next, run)
    requires var s := run[|run| - 1];
             && t < |s.pcs| && s.pcs[t].Idle? && Owns(s, t, h) && s.handles[h].rf.Some?
             && s.handles[h].rf.value in s.blocks && s.blocks[s.handles[h].rf.value].count == 1
    ensures IsRun(Init, Next, longer) && |longer| == |run| + 2 && run <= longer && Destroys(longer, |run| - 1, t, h)
    ensures var s, b := run[|run| - 1], run[|run| - 1].handles[h].rf.value;
            longer[|longer| - 1] == Go(s, t, DeleteObject(h, b, Destroy)).(
                                      blocks := s.blocks[b := s.blocks[b].(count := 0)],
                                      handles := s.handles[h := s.handles[h].(counted := false)])
  {
    var s := run[|run| - 1];
    var a := Go(s, t, Decrement(h, Destroy));
    assert StartDestroy(s, a, t, h);
    longer := OneStep(run, t, a);
    longer := OneStep(longer, t, After(a, t));
  }

  /** From the deletion of the object on. */
  lemma Delete(run: seq<State>, t: nat) returns (longer: seq<State>)
    requires IsRun(Init, Next, run)
    requires var s := run[|run| - 1];
             && t < |s.pcs| && s.pcs[t].DeleteObject? && s.pcs[t].k.Destroy? && Safe(s, t)
             && s.pcs[t].b in s.blocks && s.handles[s.pcs[t].h].rf == Some(s.pcs[t].b)
    ensures IsRun(Init, Next, longer) && |longer| == |run| + 3 && run <= longer
    ensures forall i :: |run| <= i < |longer| ==> Step(longer[i - 1], longer[i], t)
    ensures longer[|longer| - 1] == Go(Without(run[|run| - 1], run[|run| - 1].pcs[t].h), t, Idle)
  {
    var a := After(run[|run| - 1], t);
    var b := After(a, t);
    var c := After(b, t);
    longer := OneStep(run, t, a);
    longer := OneStep(longer, t, b);
    longer := OneStep(longer, t, c);
  }

  lemma DestroyAlone(run: seq<State>, t: nat, h: nat) returns (longer: seq<State>)
    requires IsRun(Init, Next, run) && IsAlone(run[|run| - 1], t, h)
    ensures IsRun(Init, Next, longer) && |longer| == |run| + 5 && run <= longer && Destroys(longer, |run| - 1, t, h)
    ensures longer[|longer| - 1] == Without(run[|run| - 1], h)
  {
    var s := run[|run| - 1];
    longer := StartAndDrop(run, t, h);
    longer := Delete(longer, t);
    var d := longer[|longer| - 1];
    assert d.pcs == s.pcs && d.handles == s.handles - {h};
    assert d.blocks == s.blocks - {s.handles[h].rf.value};
  }

  /** Wrapping again an object that is allocated, and deleting it again, leaves another handle without its object. */
  lemma DeletedUnderOwner(s: State, d: State, o: nat)
    requires Inv(s) && o in s.objects && d.pcs == s.pcs && d.handles == s.handles && d.blocks == s.blocks
    requires o !in d.objects && o in d.deleted
    ensures !Sound(d)
  {
    assert HasCounter(s, o);
    var b :| b in s.blocks && s.blocks[b].obj == Some(o);
    assert BlockInv(s, b) && ObjectInv(s, b);
    if HasDeleter(s, b) {
      var u: nat :| u < |s.pcs| && Deletes(s.pcs[u], b);
      assert ThreadInv(s, u);
      assert !AtCounter(s.pcs[u], b);
      assert !Safe(d, u);
    } else {
      assert Holders(s, b) != {};
      var h :| h in Holders(s, b);
      assert HandleInv(s, h);
      CountedIffLive(s, h, b);
      assert IsLive(d, h, b);
    }
  }

  lemma CleanIsSound(run: seq<State>)
    requires IsRun(Init, Next, run) && run[|run| - 1].clean
    ensures Sound(run[|run| - 1])
  {
    var k := |run| - 1;
    NothingIsDeletedTwice(run, k);
    forall t: nat | t < |run[k].pcs|
      ensures Safe(run[k], t)
    {
      NoUseAfterFree(run, k, t);
    }
    forall h, b | IsLive(run[k], h, b) && run[k].handles[h].ptr.Some?
      ensures run[k].handles[h].ptr.value !in run[k].deleted
    {
      LiveHandleIsUsable(run, k, h, b);
    }
  }

  /**
   A raw pointer may be wrapped exactly if its object has not been wrapped before.  Otherwise the program is
   no longer sound once the new handle is destroyed again, which five steps of its thread do.
   */
  lemma WrapIsSoundIff(run: seq<State>, s': State, t: nat, h: nat, b: nat, obj: Option<nat>)
    returns (longer: seq<State>)
    requires IsRun(Init, Next, run) && run[|run| - 1].clean
    requires t < |run[|run| - 1].pcs| && run[|run| - 1].pcs[t].Idle? && Wrap(run[|run| - 1], s', t, h, b, obj)
    ensures IsRun(Init, Next, longer) && |longer| == |run| + 6 && run + [s'] <= longer && Destroys(longer, |run|, t, h)
    ensures longer[|longer| - 1].pcs == run[|run| - 1].pcs && longer[|longer| - 1].handles == run[|run| - 1].handles
    ensures Sound(longer[|longer| - 1]) <==> IsNew(run[|run| - 1], obj)
  {
    var s := run[|run| - 1];
    AlwaysInv(run, |run| - 1);
    longer := OneStep(run, t, s');
    longer := DestroyAlone(longer, t, h);
    var d := longer[|longer| - 1];
    assert d.handles == s.handles && d.blocks == s.blocks;
    if IsNew(s, obj) {
      CleanIsSound(longer);
    } else if obj.value in s.objects {
      DeletedUnderOwner(s, d, obj.value);
    } else {
      assert d.deleted == s.deleted + [obj.value];
      DeletedAgain(s.deleted, obj.value);
    }
  }

  lemma DeletedAgain(deleted: seq<nat>, o: nat)
    requires o in deleted
    ensures !Distinct(deleted + [o])
  {
    var i :| 0 <= i < |deleted| && deleted[i] == o;
    assert (deleted + [o])[i] == (deleted + [o])[|deleted|];
  }

  /** Wrap an object twice and destroy both handles: the object would be deleted a second time. */
  lemma DoubleWrapIsUnsafe(s: State) returns (run: seq<State>)
    requires Init(s) && |s.pcs| > 0
    ensures IsRun(Init, Next, run) && run[0] == s
    ensures var last := run[|run| - 1];
            && |last.pcs| > 0 && last.pcs[0].DeleteObject? && last.pcs[0].h in last.handles
            && last.deleted == [0] && last.handles[last.pcs[0].h].ptr == Some(0) && !Safe(last, 0)
  {
    var a := s.(handles := map[0 := Handle(Some(0), Some(0), 0, true)], blocks := map[0 := Block(1, Some(0))],
                objects := {0});
    assert Wrap(s, a, 0, 0, 0, Some(0));
    var b := a.(handles := a.handles[1 := Handle(Some(0), Some(1), 0, true)],
                blocks := a.blocks[1 := Block(1, Some(0))], clean := false);
    assert {0} + {0} == {0};
    assert Wrap(a, b, 0, 1, 1, Some(0));
    run := OneStep([s], 0, a);
    run := OneStep(run, 0, b);
    run := DestroyAlone(run, 0, 0);
    run := StartAndDrop(run, 0, 1);
  }
}
