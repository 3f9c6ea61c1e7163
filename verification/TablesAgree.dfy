/** The two rehashing tables, driven by the same operations. */
module TablesAgree {
  import opened TableModel
  import Values = LookupTable1
  import Nodes = LookupTable2

  method InsertBoth<T(==)>(t1: Values.Table<T>, t2: Nodes.Table<T>, v: T)
    requires t2.Valid() && t1.hash == t2.hash && t1.Value() == t2.Value()
    modifies t1, t2, t2.buckets, t2.nodes
    ensures t2.Valid() && t2.Grown()
    ensures t1.Value() == t2.Value() == Insert(old(t2.Value()), t2.hash, v)
    ensures t1.moved - old(t1.moved) == t2.moved - old(t2.moved) == Moves(old(t2.Value()), t2.hash, Ins(v))
  {
    t1.Insert(v);
    t2.Insert(v);
  }

  method EraseBoth<T(==)>(t1: Values.Table<T>, t2: Nodes.Table<T>, v: T)
    requires t2.Valid() && t1.hash == t2.hash && t1.Value() == t2.Value()
    modifies t1, t2, t2.buckets, t2.nodes
    ensures t2.Valid() && t2.Grown()
    ensures t1.Value() == t2.Value() == Erase(old(t2.Value()), t2.hash, v)
    ensures t1.moved == old(t1.moved) && t2.moved == old(t2.moved)
  {
    t1.Erase(v);
    t2.Erase(v);
  }

  method ReserveBoth<T(==)>(t1: Values.Table<T>, t2: Nodes.Table<T>, count: int)
    requires t2.Valid() && t1.hash == t2.hash && t1.Value() == t2.Value()
    modifies t1, t2, t2.buckets, t2.nodes
    ensures t2.Valid() && t2.Grown()
    ensures t1.Value() == t2.Value() == Reserve(old(t2.Value()), t2.hash, count)
    ensures t1.moved - old(t1.moved) == t2.moved - old(t2.moved) == Moves(old(t2.Value()), t2.hash, Res(count))
  {
    t1.Reserve(count);
    t2.Reserve(count);
  }

  method ApplyBoth<T(==)>(t1: Values.Table<T>, t2: Nodes.Table<T>, op: Op<T>)
    requires t2.Valid() && t1.hash == t2.hash && t1.Value() == t2.Value()
    modifies t1, t2, t2.buckets, t2.nodes
    ensures t2.Valid() && t2.Grown()
    ensures t1.Value() == t2.Value() == Apply(old(t2.Value()), t2.hash, op)
    ensures t1.moved - old(t1.moved) == t2.moved - old(t2.moved) == Moves(old(t2.Value()), t2.hash, op)
  {
    match op
    case Ins(v) =>
      InsertBoth(t1, t2, v);
    case Del(v) =>
      EraseBoth(t1, t2, v);
    case Res(count) =>
      ReserveBoth(t1, t2, count);
  }

  lemma ApplyOneMore<T>(m: Model<T>, hash: Hash<T>, ops: seq<Op<T>>, i: nat)
    requires |m.buckets| > 0 && i < |ops|
    ensures ApplyAll(m, hash, ops[..i + 1]) == Apply(ApplyAll(m, hash, ops[..i]), hash, ops[i])
    ensures TotalMoves(m, hash, ops[..i + 1]) ==
            TotalMoves(m, hash, ops[..i]) + Moves(ApplyAll(m, hash, ops[..i]), hash, ops[i])
  {
    assert ops[..i + 1][..i] == ops[..i];
  }

  /**
   After the same operations from the same bucket count and hash, the two tables have the same
   buckets with the same values in the same order, and the same size; they have moved as many values
   as nodes; and what they contain is what the operations make of the empty set.
   */
  method RunBoth<T(==)>(numBuckets: nat, hash: Hash<T>, ops: seq<Op<T>>)
    returns (t1: Values.Table<T>, t2: Nodes.Table<T>)
    requires numBuckets > 0
    ensures t2.Valid() && t1.hash == t2.hash == hash
    ensures t1.Value() == t2.Value() == ApplyAll(Fresh(numBuckets), hash, ops)
    ensures t1.moved == t2.moved == TotalMoves(Fresh(numBuckets), hash, ops)
    ensures Inv(t2.Value(), hash) && Elements(t2.Value()) == Abstract({}, ops)
  {
    t1 := new Values.Table(numBuckets, hash);
    t2 := new Nodes.Table(numBuckets, hash);
    ghost var m := Fresh<T>(numBuckets);
    var i := 0;
    while i < |ops|
      invariant 0 <= i <= |ops|
      invariant fresh(t1) && fresh(t2) && fresh(t2.buckets) && fresh(t2.nodes)
      invariant t2.Valid() && t1.hash == t2.hash == hash
      invariant t1.Value() == t2.Value() == ApplyAll(m, hash, ops[..i])
      invariant t1.moved == t2.moved == TotalMoves(m, hash, ops[..i])
    {
      ApplyOneMore(m, hash, ops, i);
      ApplyBoth(t1, t2, ops[i]);
      i := i + 1;
    }
    assert ops[..i] == ops;
    FreshInv<T>(numBuckets, hash);
    RunRefinesSet(m, hash, ops);
  }
}
