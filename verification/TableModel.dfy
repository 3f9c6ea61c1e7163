/**
 The rehashing hash tables as values: what `insert`, `erase` and `reserve` do to the ordered contents
 of the buckets.  Both tables are proved against this model; here it is shown to be a finite set,
 and its rehashing to be cheap.
 */
module TableModel {
  import opened Counting
  import opened Primes

  type Hash<!T> = T -> nat

  datatype Model<T> = Model(buckets: seq<seq<T>>, size: int)

  // ----- Buckets -----

  function Slot<T>(hash: Hash<T>, n: nat, v: T): nat
    requires n > 0
  {
    hash(v) % n
  }

  function Concat<T>(bs: seq<seq<T>>): seq<T> {
    if bs == [] then [] else Concat(bs[..|bs| - 1]) + bs[|bs| - 1]
  }

  /** The values that belong in bucket `j` of `n`, in order. */
  function Pick<T>(vs: seq<T>, hash: Hash<T>, n: nat, j: nat): seq<T>
    requires n > 0
  {
    if vs == [] then []
    else
      var last := vs[|vs| - 1];
      Pick(vs[..|vs| - 1], hash, n, j) + if Slot(hash, n, last) == j then [last] else []
  }

  function Spread<T>(vs: seq<T>, hash: Hash<T>, n: nat): (bs: seq<seq<T>>)
    requires n > 0
    ensures |bs| == n
  {
    seq(n, j requires 0 <= j < n => Pick(vs, hash, n, j))
  }

  /** All values move to `n` new buckets, old bucket by old bucket. */
  function Rehash<T>(bs: seq<seq<T>>, hash: Hash<T>, n: nat): (r: seq<seq<T>>)
    requires n > 0
    ensures |r| == n
  {
    Spread(Concat(bs), hash, n)
  }

  function IndexOf<T(==)>(vs: seq<T>, v: T): (i: nat)
    requires v in vs
    ensures i < |vs| && vs[i] == v && v !in vs[..i]
  {
    if vs[0] == v then 0 else IndexOf(vs[1..], v) + 1
  }

  function Without<T(==)>(vs: seq<T>, v: T): seq<T>
    requires v in vs
  {
    var i := IndexOf(vs, v);
    vs[..i] + vs[i + 1..]
  }

  // ----- The operations -----

  ghost predicate Found<T>(m: Model<T>, hash: Hash<T>, v: T)
    requires |m.buckets| > 0
  {
    v in m.buckets[Slot(hash, |m.buckets|, v)]
  }

  /** What `insert` does to the buckets before it looks at the load. */
  ghost function Added<T>(m: Model<T>, hash: Hash<T>, v: T): (bs: seq<seq<T>>)
    requires |m.buckets| > 0
    ensures |bs| == |m.buckets|
  {
    var j := Slot(hash, |m.buckets|, v);
    m.buckets[j := m.buckets[j] + [v]]
  }

  ghost function Insert<T>(m: Model<T>, hash: Hash<T>, v: T): (m': Model<T>)
    requires |m.buckets| > 0
    ensures |m'.buckets| > 0
  {
    if Found(m, hash, v) then m
    else
      var added := Added(m, hash, v);
      Model(if m.size + 1 > |added| then Rehash(added, hash, NextCount(|added|)) else added, m.size + 1)
  }

  ghost function Erase<T>(m: Model<T>, hash: Hash<T>, v: T): (m': Model<T>)
    requires |m.buckets| > 0
    ensures |m'.buckets| > 0
  {
    var j := Slot(hash, |m.buckets|, v);
    if v !in m.buckets[j] then m
    else Model(m.buckets[j := Without(m.buckets[j], v)], m.size - 1)
  }

  ghost function Reserve<T>(m: Model<T>, hash: Hash<T>, count: int): (m': Model<T>)
    requires |m.buckets| > 0
    ensures |m'.buckets| > 0
  {
    if count > |m.buckets| then Model(Rehash(m.buckets, hash, NextCount(count)), m.size) else m
  }

  // ----- What every operation keeps -----

  /** Every value is in the bucket of its hash, modulo the number of buckets. */
  ghost predicate Placed<T>(bs: seq<seq<T>>, hash: Hash<T>)
    requires |bs| > 0
  {
    forall j, v :: 0 <= j < |bs| && v in bs[j] ==> hash(v) % |bs| == j
  }

  ghost predicate AllDistinct<T>(bs: seq<seq<T>>) {
    forall j :: 0 <= j < |bs| ==> Distinct(bs[j])
  }

  /** Every value is in its bucket and there once; the size is right and at most the bucket count. */
  ghost predicate Inv<T>(m: Model<T>, hash: Hash<T>) {
    var n := |m.buckets|;
    && n > 0
    && Placed(m.buckets, hash) && AllDistinct(m.buckets)
    && m.size == |Concat(m.buckets)|
    && m.size <= n
  }

  ghost function ToSet<T>(vs: seq<T>): set<T> {
    set v | v in vs
  }

  ghost function Elements<T>(m: Model<T>): set<T> {
    ToSet(Concat(m.buckets))
  }

  lemma {:induction false} ConcatContains<T>(bs: seq<seq<T>>, v: T)
    ensures v in Concat(bs) <==> exists j :: 0 <= j < |bs| && v in bs[j]
  {
    if bs == [] {
    } else {
      ConcatContains(bs[..|bs| - 1], v);
      var n := |bs| - 1;
      assert v in Concat(bs) <==> v in Concat(bs[..n]) || v in bs[n];
      if j :| 0 <= j < n && v in bs[j] {
        assert v in bs[..n][j];
      }
    }
  }

  lemma {:induction false} ConcatUpdateLength<T>(bs: seq<seq<T>>, j: nat, b: seq<T>)
    requires j < |bs|
    ensures |Concat(bs[j := b])| == |Concat(bs)| - |bs[j]| + |b|
  {
    var n := |bs| - 1;
    if j == n {
      assert bs[j := b][..n] == bs[..n];
    } else {
      ConcatUpdateLength(bs[..n], j, b);
      assert bs[j := b][..n] == bs[..n][j := b];
    }
  }

  lemma {:induction false} PickContains<T>(vs: seq<T>, hash: Hash<T>, n: nat, j: nat, v: T)
    requires n > 0
    ensures v in Pick(vs, hash, n, j) <==> v in vs && hash(v) % n == j
  {
    if vs == [] {
    } else {
      PickContains(vs[..|vs| - 1], hash, n, j, v);
    }
  }

  lemma {:induction false} PickDistinct<T>(vs: seq<T>, hash: Hash<T>, n: nat, j: nat)
    requires n > 0 && Distinct(vs)
    ensures Distinct(Pick(vs, hash, n, j))
  {
    if vs == [] {
    } else {
      PickDistinct(vs[..|vs| - 1], hash, n, j);
      PickContains(vs[..|vs| - 1], hash, n, j, vs[|vs| - 1]);
    }
  }

  lemma AppendDistinct<T>(a: seq<T>, b: seq<T>)
    requires Distinct(a) && Distinct(b) && forall v :: v in a ==> v !in b
    ensures Distinct(a + b)
  {
    forall i, j | 0 <= i < j < |a + b|
      ensures (a + b)[i] != (a + b)[j]
    {
      if i < |a| <= j {
        assert a[i] in a && b[j - |a|] in b;
      }
    }
  }

  lemma {:induction false} ConcatDistinct<T>(bs: seq<seq<T>>)
    requires AllDistinct(bs)
    requires forall i, j, v :: 0 <= i < |bs| && 0 <= j < |bs| && v in bs[i] && v in bs[j] ==> i == j
    ensures Distinct(Concat(bs))
  {
    if bs == [] {
    } else {
      var n := |bs| - 1;
      ConcatDistinct(bs[..n]);
      forall v | v in Concat(bs[..n])
        ensures v !in bs[n]
      {
        ConcatContains(bs[..n], v);
        var i :| 0 <= i < n && v in bs[..n][i];
        assert v in bs[i];
      }
      AppendDistinct(Concat(bs[..n]), bs[n]);
    }
  }

  lemma {:induction false} ConcatOfEmpty<T>(bs: seq<seq<T>>)
    requires forall j :: 0 <= j < |bs| ==> bs[j] == []
    ensures Concat(bs) == []
  {
    if bs == [] {
    } else {
      ConcatOfEmpty(bs[..|bs| - 1]);
    }
  }

  /** One more value goes to the end of its bucket. */
  lemma SpreadOneMore<T>(vs: seq<T>, v: T, hash: Hash<T>, n: nat)
    requires n > 0
    ensures var bs, j := Spread(vs, hash, n), hash(v) % n;
            Spread(vs + [v], hash, n) == bs[j := bs[j] + [v]]
  {
    var bs, j := Spread(vs, hash, n), Slot(hash, n, v);
    forall k: nat | k < n
      ensures Spread(vs + [v], hash, n)[k] == bs[j := bs[j] + [v]][k]
    {
      assert (vs + [v])[..|vs|] == vs;
      assert Pick(vs + [v], hash, n, k) == Pick(vs, hash, n, k) + if j == k then [v] else [];
    }
  }

  lemma {:induction false} SpreadLength<T>(vs: seq<T>, hash: Hash<T>, n: nat)
    requires n > 0
    ensures |Concat(Spread(vs, hash, n))| == |vs|
  {
    if vs == [] {
      ConcatOfEmpty(Spread(vs, hash, n));
    } else {
      var before, last := vs[..|vs| - 1], vs[|vs| - 1];
      var bs := Spread(before, hash, n);
      var j := Slot(hash, n, last);
      assert vs == before + [last];
      SpreadOneMore(before, last, hash, n);
      SpreadLength(before, hash, n);
      ConcatUpdateLength(bs, j, bs[j] + [last]);
    }
  }

  lemma RehashContains<T>(bs: seq<seq<T>>, hash: Hash<T>, n: nat, v: T)
    requires n > 0
    ensures v in Concat(Rehash(bs, hash, n)) <==> v in Concat(bs)
  {
    var vs, r := Concat(bs), Rehash(bs, hash, n);
    ConcatContains(r, v);
    var j := Slot(hash, n, v);
    PickContains(vs, hash, n, j, v);
    if v in vs {
      assert v in r[j];
    }
    if i: nat :| i < n && v in r[i] {
      PickContains(vs, hash, n, i, v);
    }
  }

  /** Rehashing keeps every value, once, and puts it where it belongs. */
  lemma RehashKeepsElements<T>(bs: seq<seq<T>>, hash: Hash<T>, n: nat)
    requires n > 0 && Distinct(Concat(bs))
    ensures var r := Rehash(bs, hash, n);
            && Placed(r, hash) && AllDistinct(r)
            && |Concat(r)| == |Concat(bs)|
            && forall v :: v in Concat(r) <==> v in Concat(bs)
  {
    var vs, r := Concat(bs), Rehash(bs, hash, n);
    forall j, v | 0 <= j < n && v in r[j]
      ensures hash(v) % n == j && v in vs
    {
      PickContains(vs, hash, n, j, v);
    }
    forall j | 0 <= j < n
      ensures Distinct(r[j])
    {
      PickDistinct(vs, hash, n, j);
    }
    forall v
      ensures v in Concat(r) <==> v in vs
    {
      RehashContains(bs, hash, n, v);
    }
    SpreadLength(vs, hash, n);
  }

  lemma RehashIsPlaced<T>(bs: seq<seq<T>>, hash: Hash<T>, n: nat)
    requires n > 0
    ensures Placed(Rehash(bs, hash, n), hash)
  {
    forall j, v | 0 <= j < n && v in Rehash(bs, hash, n)[j]
      ensures hash(v) % n == j
    {
      PickContains(Concat(bs), hash, n, j, v);
    }
  }

  lemma PlacedDistinct<T>(bs: seq<seq<T>>, hash: Hash<T>)
    requires |bs| > 0 && Placed(bs, hash) && AllDistinct(bs)
    ensures Distinct(Concat(bs))
  {
    forall i, j, v | 0 <= i < |bs| && 0 <= j < |bs| && v in bs[i] && v in bs[j]
      ensures i == j
    {
      assert hash(v) % |bs| == i;
    }
    ConcatDistinct(bs);
  }

  // ----- The tables are finite sets -----

  lemma FindIsMembership<T>(m: Model<T>, hash: Hash<T>, v: T)
    requires Inv(m, hash)
    ensures Found(m, hash, v) <==> v in Elements(m)
  {
    ConcatContains(m.buckets, v);
  }

  /** Changing one bucket changes the elements as it changes the values of that bucket. */
  lemma UpdateElements<T>(bs: seq<seq<T>>, j: nat, b: seq<T>, v: T)
    requires j < |bs|
    requires forall i :: 0 <= i < |bs| && v in bs[i] ==> i == j
    ensures v in Concat(bs[j := b]) <==> v in b
    ensures v in Concat(bs) <==> v in bs[j]
  {
    ConcatContains(bs, v);
    ConcatContains(bs[j := b], v);
    assert bs[j := b][j] == b;
  }

  lemma UpdateOthers<T>(bs: seq<seq<T>>, j: nat, b: seq<T>, w: T)
    requires j < |bs| && (w in b <==> w in bs[j])
    ensures w in Concat(bs[j := b]) <==> w in Concat(bs)
  {
    ConcatContains(bs, w);
    ConcatContains(bs[j := b], w);
    if i :| 0 <= i < |bs| && w in bs[i] {
      assert w in bs[j := b][i];
    }
  }

  lemma AddedLength<T>(m: Model<T>, hash: Hash<T>, v: T)
    requires |m.buckets| > 0
    ensures |Concat(Added(m, hash, v))| == |Concat(m.buckets)| + 1
  {
    var j := Slot(hash, |m.buckets|, v);
    ConcatUpdateLength(m.buckets, j, m.buckets[j] + [v]);
  }

  lemma AddedIsPlaced<T>(m: Model<T>, hash: Hash<T>, v: T)
    requires Inv(m, hash) && !Found(m, hash, v)
    ensures Placed(Added(m, hash, v), hash) && AllDistinct(Added(m, hash, v))
    ensures |Concat(Added(m, hash, v))| == m.size + 1
  {
    AddedLength(m, hash, v);
  }

  lemma AddedElements<T>(m: Model<T>, hash: Hash<T>, v: T, w: T)
    requires Inv(m, hash) && !Found(m, hash, v)
    ensures w in Concat(Added(m, hash, v)) <==> w in Concat(m.buckets) || w == v
  {
    var j := Slot(hash, |m.buckets|, v);
    if w == v {
      UpdateElements(m.buckets, j, m.buckets[j] + [v], v);
    } else {
      UpdateOthers(m.buckets, j, m.buckets[j] + [v], w);
    }
  }

  lemma SameSet<T>(a: seq<T>, b: seq<T>)
    requires forall v :: v in a <==> v in b
    ensures ToSet(a) == ToSet(b)
  {
  }

  lemma SetPlus<T>(a: seq<T>, b: seq<T>, v: T)
    requires forall w :: w in a <==> w in b || w == v
    ensures ToSet(a) == ToSet(b) + {v}
  {
  }

  lemma SetMinus<T>(a: seq<T>, b: seq<T>, v: T)
    requires forall w :: w in a <==> w in b && w != v
    ensures ToSet(a) == ToSet(b) - {v}
  {
  }

  lemma AddedSet<T>(m: Model<T>, hash: Hash<T>, v: T)
    requires Inv(m, hash) && !Found(m, hash, v)
    ensures ToSet(Concat(Added(m, hash, v))) == Elements(m) + {v}
  {
    var a, b := Concat(Added(m, hash, v)), Concat(m.buckets);
    forall w
      ensures w in a <==> w in b || w == v
    {
      AddedElements(m, hash, v, w);
    }
    SetPlus(a, b, v);
  }

  lemma InsertRefinesSet<T>(m: Model<T>, hash: Hash<T>, v: T)
    requires Inv(m, hash)
    ensures Inv(Insert(m, hash, v), hash)
    ensures Elements(Insert(m, hash, v)) == Elements(m) + {v}
  {
    FindIsMembership(m, hash, v);
    if Found(m, hash, v) {
      assert Insert(m, hash, v) == m;
    } else {
      var added := Added(m, hash, v);
      AddedIsPlaced(m, hash, v);
      AddedSet(m, hash, v);
      if m.size + 1 > |added| {
        PlacedDistinct(added, hash);
        var r := Rehash(added, hash, NextCount(|added|));
        RehashKeepsElements(added, hash, NextCount(|added|));
        SameSet(Concat(r), Concat(added));
      }
    }
  }

  lemma WithoutRemoves<T>(vs: seq<T>, v: T)
    requires v in vs && Distinct(vs)
    ensures Distinct(Without(vs, v)) && |Without(vs, v)| == |vs| - 1
    ensures forall w :: w in Without(vs, v) <==> w in vs && w != v
  {
    var i, r := IndexOf(vs, v), Without(vs, v);
    forall w
      ensures w in r <==> w in vs && w != v
    {
      if k :| 0 <= k < |vs| && vs[k] == w && k != i {
        assert r[if k < i then k else k - 1] == w;
      }
    }
  }

  lemma EraseKeepsInv<T>(m: Model<T>, hash: Hash<T>, v: T)
    requires Inv(m, hash)
    ensures Inv(Erase(m, hash, v), hash)
  {
    if Found(m, hash, v) {
      var j := Slot(hash, |m.buckets|, v);
      WithoutRemoves(m.buckets[j], v);
      ConcatUpdateLength(m.buckets, j, Without(m.buckets[j], v));
    }
  }

  lemma ErasedElements<T>(m: Model<T>, hash: Hash<T>, v: T, w: T)
    requires Inv(m, hash)
    ensures w in Concat(Erase(m, hash, v).buckets) <==> w in Concat(m.buckets) && w != v
  {
    FindIsMembership(m, hash, v);
    if Found(m, hash, v) {
      var j := Slot(hash, |m.buckets|, v);
      var b := Without(m.buckets[j], v);
      WithoutRemoves(m.buckets[j], v);
      if w == v {
        UpdateElements(m.buckets, j, b, v);
      } else {
        UpdateOthers(m.buckets, j, b, w);
      }
    }
  }

  lemma EraseRefinesSet<T>(m: Model<T>, hash: Hash<T>, v: T)
    requires Inv(m, hash)
    ensures Inv(Erase(m, hash, v), hash)
    ensures Elements(Erase(m, hash, v)) == Elements(m) - {v}
  {
    EraseKeepsInv(m, hash, v);
    var a, b := Concat(Erase(m, hash, v).buckets), Concat(m.buckets);
    forall w
      ensures w in a <==> w in b && w != v
    {
      ErasedElements(m, hash, v, w);
    }
    SetMinus(a, b, v);
  }

  lemma ReserveRefinesSet<T>(m: Model<T>, hash: Hash<T>, count: int)
    requires Inv(m, hash)
    ensures Inv(Reserve(m, hash, count), hash)
    ensures Elements(Reserve(m, hash, count)) == Elements(m)
    ensures |Reserve(m, hash, count).buckets| >= count
  {
    if count > |m.buckets| {
      var r := Rehash(m.buckets, hash, NextCount(count));
      PlacedDistinct(m.buckets, hash);
      RehashKeepsElements(m.buckets, hash, NextCount(count));
      SameSet(Concat(r), Concat(m.buckets));
    }
  }

  lemma {:induction false} DistinctCardinality<T>(vs: seq<T>)
    requires Distinct(vs)
    ensures |set v | v in vs| == |vs|
  {
    if vs == [] {
      assert (set v | v in vs) == {};
    } else {
      var before, last := vs[..|vs| - 1], vs[|vs| - 1];
      DistinctCardinality(before);
      assert (set v | v in vs) == (set v | v in before) + {last};
    }
  }

  /** The size is the number of different values. */
  lemma SizeIsCardinality<T>(m: Model<T>, hash: Hash<T>)
    requires Inv(m, hash)
    ensures m.size == |Elements(m)|
  {
    PlacedDistinct(m.buckets, hash);
    DistinctCardinality(Concat(m.buckets));
  }

  // ----- Which bucket, and how many -----

  /** A value is found in the bucket of its hash, and in no other. */
  lemma BucketOfHash<T>(m: Model<T>, hash: Hash<T>, v: T, j: nat)
    requires Inv(m, hash) && j < |m.buckets|
    ensures Found(m, hash, v) <==> v in m.buckets[hash(v) % |m.buckets|]
    ensures v in m.buckets[j] ==> j == hash(v) % |m.buckets|
  {
  }

  /** Bucket `j` of the rehashed table holds the values whose hash says so, in the order in which they moved. */
  lemma {:induction false} RehashInOrder<T>(vs: seq<T>, hash: Hash<T>, n: nat, j: nat, v: T, w: T)
    requires j < n && Distinct(vs) && v in Spread(vs, hash, n)[j] && w in Spread(vs, hash, n)[j]
    ensures v in vs && w in vs && hash(v) % n == hash(w) % n == j
    ensures IndexOf(Spread(vs, hash, n)[j], v) < IndexOf(Spread(vs, hash, n)[j], w) <==> IndexOf(vs, v) < IndexOf(vs, w)
  {
    PickContains(vs, hash, n, j, v);
    PickContains(vs, hash, n, j, w);
    if vs == [] {
    } else {
      var before, last := vs[..|vs| - 1], vs[|vs| - 1];
      var was, now := Spread(before, hash, n)[j], Spread(vs, hash, n)[j];
      assert vs == before + [last];
      PickContains(before, hash, n, j, last);
      IndexBefore(before, last, v);
      IndexBefore(before, last, w);
      if hash(last) % n == j {
        assert now == was + [last];
        IndexBefore(was, last, v);
        IndexBefore(was, last, w);
      } else {
        assert now == was;
      }
      if v != last && w != last {
        RehashInOrder(before, hash, n, j, v, w);
      }
    }
  }

  /** A value added at the end comes after the others, and leaves them where they are. */
  lemma {:induction false} IndexBefore<T>(vs: seq<T>, last: T, v: T)
    requires last !in vs
    ensures v == last ==> IndexOf(vs + [last], v) == |vs|
    ensures v in vs ==> IndexOf(vs + [last], v) == IndexOf(vs, v) < |vs|
  {
    if vs == [] {
    } else {
      assert (vs + [last])[1..] == vs[1..] + [last];
      if v != vs[0] {
        IndexBefore(vs[1..], last, v);
      }
    }
  }

  /** `insert` puts a new value at the end of the bucket of its hash; only above the load the buckets change. */
  lemma InsertPutsLast<T>(m: Model<T>, hash: Hash<T>, v: T)
    requires Inv(m, hash) && v !in Elements(m)
    ensures var m', j := Insert(m, hash, v), hash(v) % |m.buckets|;
            var added := m.buckets[j := m.buckets[j] + [v]];
            && m'.size == m.size + 1
            && if m.size + 1 <= |m.buckets| then m'.buckets == added
               else IsNextPrime(2 * |m.buckets| + 1, |m'.buckets|) && m'.buckets == Spread(Concat(added), hash, |m'.buckets|)
  {
    FindIsMembership(m, hash, v);
  }

  /** `erase` takes the value out of the bucket of its hash and leaves the others in their order and places. */
  lemma EraseTakesOut<T>(m: Model<T>, hash: Hash<T>, v: T)
    requires Inv(m, hash) && v in Elements(m)
    ensures var m', j := Erase(m, hash, v), hash(v) % |m.buckets|;
            && |m'.buckets| == |m.buckets| && m'.size == m.size - 1
            && (forall i :: 0 <= i < |m.buckets| && i != j ==> m'.buckets[i] == m.buckets[i])
            && exists k :: 0 <= k < |m.buckets[j]| && m.buckets[j][k] == v
                           && m'.buckets[j] == m.buckets[j][..k] + m.buckets[j][k + 1..]
  {
    FindIsMembership(m, hash, v);
    var j := hash(v) % |m.buckets|;
    var k := IndexOf(m.buckets[j], v);
    assert m.buckets[j][k] == v;
  }

  /** `reserve` of more buckets than there are takes the least prime from twice as many and one on. */
  lemma ReserveTakesNextPrime<T>(m: Model<T>, hash: Hash<T>, count: int)
    requires Inv(m, hash)
    ensures var m' := Reserve(m, hash, count);
            && m'.size == m.size
            && if count <= |m.buckets| then m' == m
               else IsNextPrime(2 * count + 1, |m'.buckets|) && m'.buckets == Spread(Concat(m.buckets), hash, |m'.buckets|)
  {
  }

  // ----- Runs of operations -----

  datatype Op<T> = Ins(v: T) | Del(v: T) | Res(count: int)

  ghost function Apply<T>(m: Model<T>, hash: Hash<T>, op: Op<T>): (m': Model<T>)
    requires |m.buckets| > 0
    ensures |m'.buckets| > 0
  {
    match op
    case Ins(v) => Insert(m, hash, v)
    case Del(v) => Erase(m, hash, v)
    case Res(count) => Reserve(m, hash, count)
  }

  ghost function ApplyAll<T>(m: Model<T>, hash: Hash<T>, ops: seq<Op<T>>): (m': Model<T>)
    requires |m.buckets| > 0
    ensures |m'.buckets| > 0
  {
    if ops == [] then m else Apply(ApplyAll(m, hash, ops[..|ops| - 1]), hash, ops[|ops| - 1])
  }

  /** What the same operations do to a set. */
  ghost function Abstract<T>(s: set<T>, ops: seq<Op<T>>): set<T> {
    if ops == [] then s
    else
      var before := Abstract(s, ops[..|ops| - 1]);
      match ops[|ops| - 1]
      case Ins(v) => before + {v}
      case Del(v) => before - {v}
      case Res(_) => before
  }

  /** A new table with `n` buckets. */
  function Fresh<T>(n: nat): Model<T> {
    Model(seq(n, j => []), 0)
  }

  lemma FreshInv<T>(n: nat, hash: Hash<T>)
    requires n > 0
    ensures Inv(Fresh<T>(n), hash) && Elements(Fresh<T>(n)) == {}
  {
    ConcatOfEmpty(Fresh<T>(n).buckets);
  }

  /** Any run of operations refines the run on sets and keeps the invariant. */
  lemma {:induction false} RunRefinesSet<T>(m: Model<T>, hash: Hash<T>, ops: seq<Op<T>>)
    requires Inv(m, hash)
    ensures Inv(ApplyAll(m, hash, ops), hash)
    ensures Elements(ApplyAll(m, hash, ops)) == Abstract(Elements(m), ops)
  {
    if ops == [] {
    } else {
      RunRefinesSet(m, hash, ops[..|ops| - 1]);
      var before := ApplyAll(m, hash, ops[..|ops| - 1]);
      match ops[|ops| - 1]
      case Ins(v) => InsertRefinesSet(before, hash, v);
      case Del(v) => EraseRefinesSet(before, hash, v);
      case Res(count) => ReserveRefinesSet(before, hash, count);
    }
  }

  // ----- The cost of rehashing -----

  /** How many values the operation moves to new buckets. */
  ghost function Moves<T>(m: Model<T>, hash: Hash<T>, op: Op<T>): int
    requires |m.buckets| > 0
  {
    match op
    case Ins(v) => if !Found(m, hash, v) && m.size + 1 > |m.buckets| then |Concat(m.buckets)| + 1 else 0
    case Del(_) => 0
    case Res(count) => if count > |m.buckets| then |Concat(m.buckets)| else 0
  }

  /** An insertion of a value that was not there. */
  ghost predicate Succeeds<T>(m: Model<T>, hash: Hash<T>, op: Op<T>)
    requires |m.buckets| > 0
  {
    op.Ins? && !Found(m, hash, op.v)
  }

  ghost function TotalMoves<T>(m: Model<T>, hash: Hash<T>, ops: seq<Op<T>>): int
    requires |m.buckets| > 0
  {
    if ops == [] then 0
    else
      var before := ApplyAll(m, hash, ops[..|ops| - 1]);
      TotalMoves(m, hash, ops[..|ops| - 1]) + Moves(before, hash, ops[|ops| - 1])
  }

  ghost function TotalInserts<T>(m: Model<T>, hash: Hash<T>, ops: seq<Op<T>>): nat
    requires |m.buckets| > 0
  {
    if ops == [] then 0
    else
      var before := ApplyAll(m, hash, ops[..|ops| - 1]);
      TotalInserts(m, hash, ops[..|ops| - 1]) + if Succeeds(before, hash, ops[|ops| - 1]) then 1 else 0
  }

  /** The potential argument: the bucket count has paid for the moves, and the inserts for the size. */
  lemma {:induction false} AmortizedPotential<T>(n: nat, hash: Hash<T>, ops: seq<Op<T>>)
    requires n > 0 && forall i :: 0 <= i < |ops| ==> !ops[i].Res?
    ensures var m := ApplyAll(Fresh<T>(n), hash, ops);
            var moves, inserts := TotalMoves(Fresh<T>(n), hash, ops), TotalInserts(Fresh<T>(n), hash, ops);
            && 0 <= m.size <= inserts
            && moves < |m.buckets|
            && moves <= 2 * inserts
  {
    FreshInv(n, hash);
    if ops == [] {
    } else {
      var before := ApplyAll(Fresh<T>(n), hash, ops[..|ops| - 1]);
      AmortizedPotential(n, hash, ops[..|ops| - 1]);
      RunRefinesSet(Fresh<T>(n), hash, ops[..|ops| - 1]);
      RunRefinesSet(Fresh<T>(n), hash, ops);
    }
  }

  /** Over any inserts and erases, rehashing moves at most two values for each successful insert. */
  lemma AmortizedCost<T>(n: nat, hash: Hash<T>, ops: seq<Op<T>>)
    requires n > 0 && forall i :: 0 <= i < |ops| ==> !ops[i].Res?
    ensures TotalMoves(Fresh<T>(n), hash, ops) <= 2 * TotalInserts(Fresh<T>(n), hash, ops)
  {
    AmortizedPotential(n, hash, ops);
  }

  /**
   After `reserve(count)` nothing is moved while the size stays at most `count`, unless more is
   reserved.
   */
  lemma {:induction false} ReserveAvoidsRehash<T>(m: Model<T>, hash: Hash<T>, count: int, ops: seq<Op<T>>)
    requires Inv(m, hash)
    requires forall i :: 0 <= i < |ops| ==> (ops[i].Res? ==> ops[i].count <= count)
    requires forall k :: 0 <= k <= |ops| ==> ApplyAll(Reserve(m, hash, count), hash, ops[..k]).size <= count
    ensures TotalMoves(Reserve(m, hash, count), hash, ops) == 0
    ensures |ApplyAll(Reserve(m, hash, count), hash, ops).buckets| == |Reserve(m, hash, count).buckets|
  {
    ReserveRefinesSet(m, hash, count);
    if ops == [] {
    } else {
      var r := Reserve(m, hash, count);
      var init := ops[..|ops| - 1];
      forall k | 0 <= k <= |init|
        ensures ApplyAll(r, hash, init[..k]).size <= count
      {
        assert init[..k] == ops[..k];
      }
      ReserveAvoidsRehash(m, hash, count, init);
      assert ops[..|ops|] == ops;
    }
  }
}
