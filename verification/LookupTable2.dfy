/**
 The rehashing table over intrusive lists, `threadsafe_lookup_table2`: rehashing hands the nodes
 themselves from the old buckets to the new ones.
 */
module LookupTable2 {
  import opened IntrusiveList
  import opened Primes
  import opened TableModel

  // ----- Lists that share no node -----

  /** Each node of each list is among `nodes` and in the list of its hash. */
  ghost predicate Placed<T>(lists: seq<seq<Node<T>>>, nodes: set<Node<T>>, hash: Hash<T>) {
    && |lists| > 0
    && forall i, k :: 0 <= i < |lists| && 0 <= k < |lists[i]| ==>
         lists[i][k] in nodes && hash(lists[i][k].data) % |lists| == i
  }

  /** The buckets are well-formed lists of the nodes in `lists`.  So no two of them share a node. */
  ghost predicate Separate<T>(
    bs: seq<List<T>>, lists: seq<seq<Node<T>>>, nodes: set<Node<T>>, hash: Hash<T>)
    reads bs, nodes
  {
    && |bs| == |lists| && Placed(lists, nodes, hash)
    && (forall i, j :: 0 <= i < j < |bs| ==> bs[i] != bs[j])
    && (forall i :: 0 <= i < |bs| ==> bs[i].nodes == lists[i] && bs[i].Valid())
  }

  lemma Apart<T>(lists: seq<seq<Node<T>>>, nodes: set<Node<T>>, hash: Hash<T>, i: nat, j: nat)
    requires Placed(lists, nodes, hash) && i < |lists| && j < |lists| && i != j
    ensures forall k :: 0 <= k < |lists[i]| ==> lists[i][k] in nodes && lists[i][k] !in lists[j]
  {
  }

  lemma PlacedWithoutFirst<T>(lists: seq<seq<Node<T>>>, nodes: set<Node<T>>, hash: Hash<T>, j: nat)
    requires Placed(lists, nodes, hash) && j < |lists|
    requires lists[j] != [] && lists[j][0] !in lists[j][1..]
    ensures Placed(lists[j := lists[j][1..]], nodes - {lists[j][0]}, hash)
  {
  }

  lemma PlacedWithLast<T>(lists: seq<seq<Node<T>>>, nodes: set<Node<T>>, hash: Hash<T>, j: nat, n: Node<T>)
    requires Placed(lists, nodes, hash) && j < |lists| && hash(n.data) % |lists| == j
    ensures Placed(lists[j := lists[j] + [n]], nodes + {n}, hash)
  {
  }

  lemma PlacedWithout<T>(lists: seq<seq<Node<T>>>, nodes: set<Node<T>>, hash: Hash<T>, j: nat, k: nat)
    requires Placed(lists, nodes, hash) && j < |lists| && k < |lists[j]|
    ensures Placed(lists[j := lists[j][..k] + lists[j][k + 1..]], nodes, hash)
  {
  }

  /** A list stays well-formed when neither it nor its nodes change. */
  twostate lemma ListKept<T>(b: List<T>)
    requires old(b.Valid())
    requires b.head == old(b.head) && b.tail == old(b.tail) && b.nodes == old(b.nodes)
    requires forall k :: 0 <= k < |b.nodes| ==>
      b.nodes[k].next == old(b.nodes[k].next) && b.nodes[k].prev == old(b.nodes[k].prev)
    ensures b.Valid()
  {
  }

  /** `push_back` of a node that is in none of the lists. */
  method PushNode<T>(
    bs: seq<List<T>>, ghost lists: seq<seq<Node<T>>>, ghost nodes: set<Node<T>>, hash: Hash<T>, j: nat, n: Node<T>)
    requires j < |bs| && Separate(bs, lists, nodes, hash)
    requires n !in nodes && n.next == null && n.prev == null && hash(n.data) % |bs| == j
    modifies bs[j], bs[j].nodes, n
    ensures Separate(bs, lists[j := lists[j] + [n]], nodes + {n}, hash)
  {
    assert n !in lists[j];
    PlacedWithLast(lists, nodes, hash, j, n);
    bs[j].PushBackNode(n);
    forall i | 0 <= i < |bs| && i != j
      ensures bs[i].nodes == lists[i] && bs[i].Valid()
    {
      Apart(lists, nodes, hash, i, j);
      ListKept(bs[i]);
    }
  }

  /** `pop_front`: the node is then in none of the lists. */
  method PopNode<T>(
    bs: seq<List<T>>, ghost lists: seq<seq<Node<T>>>, ghost nodes: set<Node<T>>, hash: Hash<T>, j: nat)
    returns (p: Node?<T>)
    requires j < |bs| && Separate(bs, lists, nodes, hash)
    modifies bs[j], bs[j].nodes
    ensures if lists[j] == [] then p == null && Separate(bs, lists, nodes, hash)
            else p == lists[j][0] && p.next == null && p.prev == null
                 && Separate(bs, lists[j := lists[j][1..]], nodes - {p}, hash)
  {
    assert lists[j] != [] ==> lists[j][0] !in lists[j][1..];
    if lists[j] != [] {
      PlacedWithoutFirst(lists, nodes, hash, j);
    }
    p := bs[j].PopFront();
    forall i | 0 <= i < |bs| && i != j
      ensures bs[i].nodes == lists[i] && bs[i].Valid()
    {
      Apart(lists, nodes, hash, i, j);
      ListKept(bs[i]);
    }
  }

  /** `erase` of the node at place `k` of list `j`. */
  method EraseNode<T>(
    bs: seq<List<T>>, ghost lists: seq<seq<Node<T>>>, ghost nodes: set<Node<T>>, hash: Hash<T>,
    j: nat, n: Node<T>, ghost k: nat)
    requires j < |bs| && Separate(bs, lists, nodes, hash)
    requires k < |lists[j]| && lists[j][k] == n
    modifies bs[j], bs[j].nodes
    ensures Separate(bs, lists[j := lists[j][..k] + lists[j][k + 1..]], nodes, hash)
  {
    PlacedWithout(lists, nodes, hash, j, k);
    bs[j].Erase(n, k);
    forall i | 0 <= i < |bs| && i != j
      ensures bs[i].nodes == lists[i] && bs[i].Valid()
    {
      Apart(lists, nodes, hash, i, j);
      ListKept(bs[i]);
    }
  }

  /** As many new empty lists. */
  method NewLists<T>(count: nat) returns (bs: seq<List<T>>)
    ensures |bs| == count && fresh(bs)
    ensures forall i, j :: 0 <= i < j < count ==> bs[i] != bs[j]
    ensures forall i :: 0 <= i < count ==> bs[i].nodes == [] && bs[i].Valid()
  {
    bs := [];
    while |bs| < count
      invariant |bs| <= count && fresh(bs)
      invariant forall i, j :: 0 <= i < j < |bs| ==> bs[i] != bs[j]
      invariant forall i :: 0 <= i < |bs| ==> bs[i].nodes == [] && bs[i].Valid()
    {
      var b := new List<T>();
      bs := bs + [b];
    }
  }

  // ----- Rehashing -----

  /** The hash of a node is that of its value. */
  function NodeHash<T>(hash: Hash<T>): Hash<Node<T>> {
    (n: Node<T>) => hash(n.data)
  }

  /** Half-way through a rehash: old lists with the nodes `rest` and new lists with the nodes `moved`. */
  ghost predicate Halfway<T>(
    bs: seq<List<T>>, lists: seq<seq<Node<T>>>, rest: set<Node<T>>,
    nbs: seq<List<T>>, newLists: seq<seq<Node<T>>>, moved: set<Node<T>>, hash: Hash<T>)
    reads bs, rest, nbs, moved
  {
    && Separate(bs, lists, rest, hash) && Separate(nbs, newLists, moved, hash)
    && rest !! moved
    && forall b :: b in bs ==> b !in nbs
  }

  /** `PopNode` on the old lists, beside the new ones. */
  method PopBeside<T>(
    bs: seq<List<T>>, ghost lists: seq<seq<Node<T>>>, ghost rest: set<Node<T>>,
    ghost nbs: seq<List<T>>, ghost newLists: seq<seq<Node<T>>>, ghost moved: set<Node<T>>, hash: Hash<T>,
    i: nat) returns (p: Node?<T>)
    requires i < |bs| && Halfway(bs, lists, rest, nbs, newLists, moved, hash)
    modifies bs[i], rest
    ensures if lists[i] == [] then p == null && Halfway(bs, lists, rest, nbs, newLists, moved, hash)
            else p == lists[i][0] && p in rest && p.next == null && p.prev == null
                 && Halfway(bs, lists[i := lists[i][1..]], rest - {p}, nbs, newLists, moved, hash)
  {
    assert bs[i] in bs;
    assert forall m :: m in lists[i] ==> m in rest;
    p := PopNode(bs, lists, rest, hash, i);
    forall k | 0 <= k < |nbs|
      ensures nbs[k].nodes == newLists[k] && nbs[k].Valid()
    {
      assert nbs[k] in nbs;
      assert forall l :: 0 <= l < |newLists[k]| ==> newLists[k][l] in moved;
      ListKept(nbs[k]);
    }
  }

  /** `PushNode` on the new lists, beside the old ones. */
  method PushBeside<T>(
    ghost bs: seq<List<T>>, ghost lists: seq<seq<Node<T>>>, ghost rest: set<Node<T>>,
    nbs: seq<List<T>>, ghost newLists: seq<seq<Node<T>>>, ghost moved: set<Node<T>>, hash: Hash<T>,
    j: nat, n: Node<T>)
    requires j < |nbs| && Halfway(bs, lists, rest, nbs, newLists, moved, hash)
    requires n !in rest && n !in moved && n.next == null && n.prev == null && hash(n.data) % |nbs| == j
    modifies nbs[j], moved, n
    ensures Halfway(bs, lists, rest, nbs, newLists[j := newLists[j] + [n]], moved + {n}, hash)
  {
    assert nbs[j] in nbs;
    assert forall m :: m in newLists[j] ==> m in moved;
    PushNode(nbs, newLists, moved, hash, j, n);
    forall k | 0 <= k < |bs|
      ensures bs[k].nodes == lists[k] && bs[k].Valid()
    {
      assert bs[k] in bs;
      assert forall l :: 0 <= l < |lists[k]| ==> lists[k][l] in rest;
      ListKept(bs[k]);
    }
  }

  lemma NextInLine<T>(done: seq<Node<T>>, p: Node<T>, left: seq<Node<T>>, all: seq<Node<T>>)
    requires done + [p] + left == all
    ensures left == [] ==> done + [p] == all
    ensures left != [] ==> done + [p] + [left[0]] + left[1..] == all
  {
    if left != [] {
      assert left == [left[0]] + left[1..];
    }
  }

  /**
   `p` goes to the end of its new list, and the next node is taken out of old list `i`.  In order, `done`
   have moved and `left` follow `p`.
   */
  method MoveNode<T>(
    bs: seq<List<T>>, ghost lists: seq<seq<Node<T>>>, ghost rest: set<Node<T>>,
    nbs: seq<List<T>>, ghost moved: set<Node<T>>, hash: Hash<T>, i: nat, p: Node<T>, ghost done: seq<Node<T>>)
    returns (q: Node?<T>)
    requires i < |bs| && |nbs| > 0
    requires Halfway(bs, lists, rest, nbs, Spread(done, NodeHash(hash), |nbs|), moved, hash)
    requires p !in rest && p !in moved && p.next == null && p.prev == null
    modifies bs[i], rest, nbs, moved, p
    ensures var newLists := Spread(done + [p], NodeHash(hash), |nbs|);
            if lists[i] == [] then q == null && Halfway(bs, lists, rest, nbs, newLists, moved + {p}, hash)
            else q == lists[i][0] && q in rest && q.next == null && q.prev == null
                 && Halfway(bs, lists[i := lists[i][1..]], rest - {q}, nbs, newLists, moved + {p}, hash)
  {
    var newHashValue := Slot(hash, |nbs|, p.data);
    assert nbs[newHashValue] in nbs;
    SpreadOneMore(done, p, NodeHash(hash), |nbs|);
    PushBeside(bs, lists, rest, nbs, Spread(done, NodeHash(hash), |nbs|), moved, hash, newHashValue, p);
    q := PopBeside(bs, lists, rest, nbs, Spread(done + [p], NodeHash(hash), |nbs|), moved + {p}, hash, i);
  }

  /** All nodes of old list `i` move; `before` are those that have moved already, in order. */
  method Drain<T>(
    bs: seq<List<T>>, ghost lists: seq<seq<Node<T>>>, ghost rest: set<Node<T>>,
    nbs: seq<List<T>>, ghost moved: set<Node<T>>, hash: Hash<T>,
    ghost nodes: set<Node<T>>, i: nat, ghost before: seq<Node<T>>)
    returns (ghost rest': set<Node<T>>, ghost moved': set<Node<T>>, ghost count: nat)
    requires i < |bs| && |nbs| > 0 && rest <= nodes && moved <= nodes
    requires Halfway(bs, lists, rest, nbs, Spread(before, NodeHash(hash), |nbs|), moved, hash)
    modifies bs[i], nodes, nbs
    ensures rest' <= nodes && moved' <= nodes && count == |lists[i]|
    ensures Halfway(bs, lists[i := []], rest', nbs, Spread(before + lists[i], NodeHash(hash), |nbs|), moved', hash)
  {
    var p := PopBeside(bs, lists, rest, nbs, Spread(before, NodeHash(hash), |nbs|), moved, hash, i);
    rest', moved', count := rest, moved, 0;
    if p == null {
      assert before + lists[i] == before && lists[i := []] == lists;
    } else {
      var first: Node<T> := p;
      ghost var left := lists[i][1..];
      assert before + [first] + left == before + lists[i];
      assert lists[i := left][i := []] == lists[i := []];
      rest', moved', count :=
        DrainFrom(bs, lists[i := left], rest - {first}, nbs, moved, hash, nodes, i, first, before);
    }
  }

  method DrainFrom<T>(
    bs: seq<List<T>>, ghost lists: seq<seq<Node<T>>>, ghost rest: set<Node<T>>,
    nbs: seq<List<T>>, ghost moved: set<Node<T>>, hash: Hash<T>,
    ghost nodes: set<Node<T>>, i: nat, first: Node<T>, ghost before: seq<Node<T>>)
    returns (ghost rest': set<Node<T>>, ghost moved': set<Node<T>>, ghost count: nat)
    requires i < |bs| && |nbs| > 0 && rest <= nodes && moved <= nodes
    requires Halfway(bs, lists, rest, nbs, Spread(before, NodeHash(hash), |nbs|), moved, hash)
    requires first in nodes && first !in rest && first !in moved && first.next == null && first.prev == null
    modifies bs[i], nodes, nbs
    ensures rest' <= nodes && moved' <= nodes && count == 1 + |lists[i]|
    ensures Halfway(
              bs, lists[i := []], rest', nbs, Spread(before + [first] + lists[i], NodeHash(hash), |nbs|), moved', hash)
  {
    ghost var left: seq<Node<T>>, done: seq<Node<T>> := lists[i], before;
    ghost var all: seq<Node<T>> := before + [first] + left;
    var p, more := first, true;
    rest', moved', count := rest, moved, 0;
    assert lists[i := left] == lists;
    while more
      invariant rest' <= nodes && moved' <= nodes
      invariant Halfway(bs, lists[i := left], rest', nbs, Spread(done, NodeHash(hash), |nbs|), moved', hash)
      invariant |done| == |before| + count
      invariant !more ==> left == [] && done == all
      invariant more ==> done + [p] + left == all
      invariant more ==> p in nodes && p !in rest' && p !in moved' && p.next == null && p.prev == null
      decreases |left|, more
    {
      NextInLine(done, p, left, all);
      var q := MoveNode(bs, lists[i := left], rest', nbs, moved', hash, i, p, done);
      moved', done, count := moved' + {p}, done + [p], count + 1;
      if q == null {
        more := false;
      } else {
        p := q;
        assert lists[i := left][i := left[1..]] == lists[i := left[1..]];
        rest', left := rest' - {p}, left[1..];
      }
    }
  }

  /** The lists from `i` on are still as they were; after list `i` comes the rest of them. */
  lemma TakeOne<T>(lists: seq<seq<T>>, all: seq<seq<T>>, i: nat)
    requires i < |lists| == |all| && lists[i..] == all[i..]
    ensures lists[i] == all[i] && lists[i := []][i + 1..] == all[i + 1..]
    ensures Concat(all[..i + 1]) == Concat(all[..i]) + all[i]
  {
    assert lists[i] == lists[i..][0] == all[i..][0];
    assert lists[i := []][i + 1..] == lists[i..][1..] == all[i..][1..];
    assert all[..i + 1][..i] == all[..i];
  }

  method DrainAll<T>(
    bs: seq<List<T>>, ghost all: seq<seq<Node<T>>>, ghost nodes: set<Node<T>>, nbs: seq<List<T>>, hash: Hash<T>)
    returns (ghost moved: set<Node<T>>, ghost count: nat)
    requires |nbs| > 0 && Halfway(bs, all, nodes, nbs, Spread([], NodeHash(hash), |nbs|), {}, hash)
    modifies bs, nodes, nbs
    ensures moved <= nodes && Separate(nbs, Rehash(all, NodeHash(hash), |nbs|), moved, hash)
    ensures count == |Concat(all)|
  {
    ghost var lists, rest := all, nodes;
    moved, count := {}, 0;
    var i := 0;
    while i < |bs|
      invariant 0 <= i <= |bs| == |all| == |lists| && rest <= nodes && moved <= nodes
      invariant Halfway(bs, lists, rest, nbs, Spread(Concat(all[..i]), NodeHash(hash), |nbs|), moved, hash)
      invariant lists[i..] == all[i..] && count == |Concat(all[..i])|
    {
      TakeOne(lists, all, i);
      ghost var n;
      rest, moved, n := Drain(bs, lists, rest, nbs, moved, hash, nodes, i, Concat(all[..i]));
      lists, count := lists[i := []], count + n;
      i := i + 1;
    }
    assert all[..i] == all;
  }

  /** The very same nodes, in new lists. */
  method Relink<T>(
    bs: seq<List<T>>, ghost lists: seq<seq<Node<T>>>, ghost nodes: set<Node<T>>, hash: Hash<T>, newCount: nat)
    returns (nbs: seq<List<T>>, ghost count: nat)
    requires newCount > 0 && Separate(bs, lists, nodes, hash)
    modifies bs, nodes
    ensures |nbs| == newCount && fresh(nbs) && Separate(nbs, Rehash(lists, NodeHash(hash), newCount), nodes, hash)
    ensures count == |Concat(lists)|
  {
    nbs := NewLists<T>(newCount);
    ghost var moved;
    moved, count := DrainAll(bs, lists, nodes, nbs, hash);
  }

  // ----- From nodes to values -----

  /** The values of nodes, list by list. */
  ghost function DataSeqs<T>(lists: seq<seq<Node<T>>>): (r: seq<seq<T>>)
    ensures |r| == |lists|
    ensures forall i :: 0 <= i < |lists| ==> r[i] == Data(lists[i])
  {
    seq(|lists|, i requires 0 <= i < |lists| => Data(lists[i]))
  }

  lemma {:induction false} ConcatData<T>(lists: seq<seq<Node<T>>>)
    ensures Data(Concat(lists)) == Concat(DataSeqs(lists))
  {
    if lists == [] {
    } else {
      var n := |lists| - 1;
      ConcatData(lists[..n]);
      assert DataSeqs(lists)[..n] == DataSeqs(lists[..n]);
      assert Data(Concat(lists[..n]) + lists[n]) == Data(Concat(lists[..n])) + Data(lists[n]);
    }
  }

  lemma {:induction false} PickData<T>(nodes: seq<Node<T>>, hash: Hash<T>, n: nat, j: nat)
    requires n > 0
    ensures Data(Pick(nodes, NodeHash(hash), n, j)) == Pick(Data(nodes), hash, n, j)
  {
    if nodes == [] {
    } else {
      var m := |nodes| - 1;
      PickData(nodes[..m], hash, n, j);
      assert Data(nodes)[..m] == Data(nodes[..m]);
      var rest := Pick(nodes[..m], NodeHash(hash), n, j);
      assert Data(rest + [nodes[m]]) == Data(rest) + [nodes[m].data];
    }
  }

  /** Relinking nodes is rehashing their values. */
  lemma RelinkIsRehash<T>(lists: seq<seq<Node<T>>>, hash: Hash<T>, n: nat)
    requires n > 0
    ensures DataSeqs(Rehash(lists, NodeHash(hash), n)) == Rehash(DataSeqs(lists), hash, n)
    ensures |Concat(lists)| == |Concat(DataSeqs(lists))|
  {
    ConcatData(lists);
    forall j: nat | j < n
      ensures DataSeqs(Rehash(lists, NodeHash(hash), n))[j] == Rehash(DataSeqs(lists), hash, n)[j]
    {
      PickData(Concat(lists), hash, n, j);
    }
  }

  lemma DataAppend<T>(lists: seq<seq<Node<T>>>, j: nat, n: Node<T>)
    requires j < |lists|
    ensures DataSeqs(lists[j := lists[j] + [n]]) == DataSeqs(lists)[j := DataSeqs(lists)[j] + [n.data]]
  {
    assert Data(lists[j] + [n]) == Data(lists[j]) + [n.data];
  }

  lemma {:induction false} FirstIndex<T>(vs: seq<T>, v: T, k: nat)
    requires k < |vs| && vs[k] == v && v !in vs[..k]
    ensures IndexOf(vs, v) == k
  {
    if k == 0 {
    } else {
      assert vs[0] in vs[..k];
      assert vs[1..][..k - 1] == vs[..k][1..];
      FirstIndex(vs[1..], v, k - 1);
    }
  }

  lemma DataWithout<T>(lists: seq<seq<Node<T>>>, j: nat, k: nat, v: T)
    requires j < |lists| && k < |lists[j]| && lists[j][k].data == v && v !in Data(lists[j])[..k]
    ensures v in DataSeqs(lists)[j]
    ensures DataSeqs(lists[j := lists[j][..k] + lists[j][k + 1..]]) ==
            DataSeqs(lists)[j := Without(DataSeqs(lists)[j], v)]
  {
    var vs := Data(lists[j]);
    assert vs[k] == v;
    FirstIndex(vs, v, k);
    assert Data(lists[j][..k] + lists[j][k + 1..]) == vs[..k] + vs[k + 1..];
  }

  /** `insert` of a value that is not there, before the load is looked at. */
  method AddValue<T>(
    bs: seq<List<T>>, ghost lists: seq<seq<Node<T>>>, ghost nodes: set<Node<T>>, hash: Hash<T>, j: nat, v: T)
    returns (n: Node<T>)
    requires j < |bs| && Separate(bs, lists, nodes, hash) && hash(v) % |bs| == j
    modifies bs[j], bs[j].nodes
    ensures fresh(n) && Separate(bs, lists[j := lists[j] + [n]], nodes + {n}, hash)
    ensures DataSeqs(lists[j := lists[j] + [n]]) == DataSeqs(lists)[j := DataSeqs(lists)[j] + [v]]
  {
    n := new Node(v);
    DataAppend(lists, j, n);
    PushNode(bs, lists, nodes, hash, j, n);
  }

  /** `erase` of a value: the first node with it, if there is one, is taken out. */
  method EraseValue<T(==)>(
    bs: seq<List<T>>, ghost lists: seq<seq<Node<T>>>, ghost nodes: set<Node<T>>, hash: Hash<T>, j: nat, v: T)
    returns (erased: bool, ghost lists': seq<seq<Node<T>>>)
    requires j < |bs| && Separate(bs, lists, nodes, hash)
    modifies bs[j], bs[j].nodes
    ensures Separate(bs, lists', nodes, hash)
    ensures erased <==> v in DataSeqs(lists)[j]
    ensures DataSeqs(lists') == var vs := DataSeqs(lists); if erased then vs[j := Without(vs[j], v)] else vs
  {
    lists' := lists;
    var it := bs[j].Find(v);
    erased := it != null;
    if erased {
      ghost var k :| 0 <= k < |lists[j]| && lists[j][k] == it && v !in Data(lists[j])[..k];
      DataWithout(lists, j, k, v);
      EraseNode(bs, lists, nodes, hash, j, it, k);
      lists' := lists[j := lists[j][..k] + lists[j][k + 1..]];
    }
  }

  /** Adding a value and then looking at the load is `insert` of the model. */
  lemma GrownAfterAdding<T>(m: Model<T>, hash: Hash<T>, v: T, added: Model<T>, grown: Model<T>)
    requires |m.buckets| > 0 && !Found(m, hash, v) && added == Model(Added(m, hash, v), m.size + 1)
    requires grown.size == added.size
    requires grown.buckets ==
             if added.size > |added.buckets| then Rehash(added.buckets, hash, NextCount(|added.buckets|))
             else added.buckets
    ensures grown == TableModel.Insert(m, hash, v)
    ensures Moves(m, hash, Ins(v)) == if added.size > |added.buckets| then |Concat(added.buckets)| else 0
  {
    AddedLength(m, hash, v);
  }

  // ----- The table -----

  class Table<T(==)> {
    var buckets: seq<List<T>>
    const hash: Hash<T>
    var size: int
    /** The nodes in the lists, in order. */
    ghost var lists: seq<seq<Node<T>>>
    /** The nodes that are or have been in the lists. */
    ghost var nodes: set<Node<T>>
    /** How many nodes `do_rehash` has moved so far. */
    ghost var moved: int

    ghost predicate Valid()
      reads this, buckets, nodes
    {
      Separate(buckets, lists, nodes, hash)
    }

    ghost function Value(): Model<T>
      reads this
    {
      Model(DataSeqs(lists), size)
    }

    /** The nodes that the table did not have before are new, and so are its lists if they are others. */
    twostate predicate Grown()
      reads this
    {
      && (forall n :: n in nodes ==> n in old(nodes) || fresh(n))
      && (buckets == old(buckets) || fresh(buckets))
    }

    constructor (numBuckets: nat, hash: Hash<T>)
      requires numBuckets > 0
      ensures Valid() && Value() == Fresh(numBuckets) && this.hash == hash && moved == 0
      ensures fresh(buckets) && nodes == {}
    {
      var bs := NewLists<T>(numBuckets);
      buckets := bs;
      this.hash := hash;
      size, moved, nodes, lists := 0, 0, {}, seq(numBuckets, i => []);
    }

    method Find(v: T) returns (found: bool)
      requires Valid()
      ensures found <==> Found(Value(), hash, v)
      ensures found <==> v in Value().buckets[hash(v) % |buckets|]
    {
      var j := Slot(hash, |buckets|, v);
      var it := buckets[j].Find(v);
      found := it != null;
    }

    method Insert(v: T)
      requires Valid()
      modifies this, buckets, nodes
      ensures Valid() && Grown()
      ensures Value() == TableModel.Insert(old(Value()), hash, v)
      ensures moved == old(moved) + Moves(old(Value()), hash, Ins(v))
      ensures var bs, j := old(Value()).buckets, hash(v) % |old(buckets)|;
              v !in bs[j] && old(size) < |bs| ==> Value().buckets == bs[j := bs[j] + [v]]
    {
      ghost var m := Value();
      var found := Find(v);
      if !found {
        Add(v);
        ghost var added := Value();
        Grow();
        GrownAfterAdding(m, hash, v, added, Value());
      }
    }

    method Add(v: T)
      requires Valid()
      modifies this, buckets, nodes
      ensures Valid() && Grown() && buckets == old(buckets) && moved == old(moved)
      ensures Value() == Model(Added(old(Value()), hash, v), old(size) + 1)
    {
      var j := Slot(hash, |buckets|, v);
      assert forall m :: m in buckets[j].nodes ==> m in nodes;
      var n := AddValue(buckets, lists, nodes, hash, j, v);
      assert unchanged(this);
      CountIn(n, lists[j := lists[j] + [n]]);
    }

    method CountIn(ghost n: Node<T>, ghost lists': seq<seq<Node<T>>>)
      requires Separate(buckets, lists', nodes + {n}, hash)
      modifies `size, `nodes, `lists
      ensures Valid() && nodes == old(nodes) + {n} && lists == lists' && size == old(size) + 1
    {
      nodes, lists := nodes + {n}, lists';
      size := size + 1;
    }

    /** Rehashes to the next bucket count if there are more values than buckets. */
    method Grow()
      requires Valid()
      modifies this, buckets, nodes
      ensures Valid() && size == old(size) && nodes == old(nodes) && (buckets == old(buckets) || fresh(buckets))
      ensures Value().buckets ==
              var bs := old(Value().buckets);
              if old(size) > |bs| then Rehash(bs, hash, NextCount(|bs|)) else bs
      ensures moved == old(moved) + var bs := old(Value().buckets); if old(size) > |bs| then |Concat(bs)| else 0
    {
      if size > |buckets| {
        var newCount := GetDoublePrimeNumber(|buckets|);
        NextCountIsUnique(|buckets|, newCount.value);
        DoRehash(newCount.value);
      }
    }

    method Erase(v: T)
      requires Valid()
      modifies this, buckets, nodes
      ensures Valid() && buckets == old(buckets) && nodes == old(nodes) && moved == old(moved)
      ensures Value() == TableModel.Erase(old(Value()), hash, v)
      ensures size == old(size) - if v in old(Value()).buckets[hash(v) % |old(buckets)|] then 1 else 0
    {
      var j := Slot(hash, |buckets|, v);
      assert forall m :: m in buckets[j].nodes ==> m in nodes;
      ghost var lists';
      var erased;
      erased, lists' := EraseValue(buckets, lists, nodes, hash, j, v);
      assert unchanged(this);
      CountOut(if erased then 1 else 0, lists');
    }

    method CountOut(erased: nat, ghost lists': seq<seq<Node<T>>>)
      requires Separate(buckets, lists', nodes, hash)
      modifies `size, `lists
      ensures Valid() && lists == lists' && size == old(size) - erased
    {
      lists := lists';
      size := size - erased;
    }

    method Reserve(count: int)
      requires Valid()
      modifies this, buckets, nodes
      ensures Valid() && Grown()
      ensures Value() == TableModel.Reserve(old(Value()), hash, count)
      ensures moved == old(moved) + Moves(old(Value()), hash, Res(count))
    {
      if count > |buckets| {
        var newCount := GetDoublePrimeNumber(count);
        NextCountIsUnique(count, newCount.value);
        DoRehash(newCount.value);
      }
    }

    /** The very same nodes, in new lists. */
    method DoRehash(newCount: int)
      requires Valid() && newCount > 0
      modifies this, buckets, nodes
      ensures Valid() && size == old(size) && nodes == old(nodes) && (buckets == old(buckets) || fresh(buckets))
      ensures newCount > |old(buckets)| ==>
                && lists == Rehash(old(lists), NodeHash(hash), newCount)
                && Value().buckets == Rehash(old(Value().buckets), hash, newCount)
                && moved == old(moved) + |Concat(old(Value().buckets))|
      ensures newCount <= |old(buckets)| ==> buckets == old(buckets) && Value() == old(Value()) && moved == old(moved)
    {
      if newCount > |buckets| {
        RelinkIsRehash(lists, hash, newCount);
        var newBuckets, count := Relink(buckets, lists, nodes, hash, newCount);
        assert unchanged(this);
        Adopt(newBuckets, Rehash(lists, NodeHash(hash), newCount), count);
      }
    }

    method Adopt(newBuckets: seq<List<T>>, ghost lists': seq<seq<Node<T>>>, ghost count: nat)
      requires Separate(newBuckets, lists', nodes, hash)
      modifies `buckets, `lists, `moved
      ensures Valid() && buckets == newBuckets && lists == lists' && moved == old(moved) + count
    {
      buckets := newBuckets;
      lists, moved := lists', moved + count;
    }
  }
}
