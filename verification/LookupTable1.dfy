/** The rehashing table over lists of values, `threadsafe_lookup_table1`. */
module LookupTable1 {
  import opened Primes
  import opened TableModel

  class Table<T(==)> {
    var buckets: seq<seq<T>>
    const hash: Hash<T>
    var size: int
    /** How many values `do_rehash` has moved so far. */
    ghost var moved: int

    ghost function Value(): Model<T>
      reads this
    {
      Model(buckets, size)
    }

    constructor (numBuckets: nat, hash: Hash<T>)
      requires numBuckets > 0
      ensures Value() == Fresh(numBuckets) && this.hash == hash && moved == 0
    {
      buckets := seq(numBuckets, j => []);
      this.hash := hash;
      size, moved := 0, 0;
    }

    method Find(v: T) returns (found: bool)
      requires |buckets| > 0
      ensures found <==> Found(Value(), hash, v)
      ensures found <==> v in buckets[hash(v) % |buckets|]
    {
      found := v in buckets[Slot(hash, |buckets|, v)];
    }

    method Insert(v: T)
      requires |buckets| > 0
      modifies this
      ensures Value() == TableModel.Insert(old(Value()), hash, v)
      ensures moved == old(moved) + Moves(old(Value()), hash, Ins(v))
      ensures var bs, j := old(buckets), hash(v) % |old(buckets)|;
              v !in bs[j] && old(size) < |bs| ==> buckets == bs[j := bs[j] + [v]]
    {
      var j := Slot(hash, |buckets|, v);
      if v !in buckets[j] {
        ConcatUpdateLength(buckets, j, buckets[j] + [v]);
        buckets := buckets[j := buckets[j] + [v]];
        size := size + 1;
        if size > |buckets| {
          var newCount := GetDoublePrimeNumber(|buckets|);
          NextCountIsUnique(|buckets|, newCount.value);
          DoRehash(newCount.value);
        }
      }
    }

    method Erase(v: T)
      requires |buckets| > 0
      modifies this
      ensures Value() == TableModel.Erase(old(Value()), hash, v)
      ensures size == old(size) - if v in old(buckets)[hash(v) % |old(buckets)|] then 1 else 0
      ensures moved == old(moved)
    {
      var j := Slot(hash, |buckets|, v);
      if v in buckets[j] {
        buckets := buckets[j := Without(buckets[j], v)];
        size := size - 1;
      }
    }

    method Reserve(count: int)
      requires |buckets| > 0
      modifies this
      ensures Value() == TableModel.Reserve(old(Value()), hash, count)
      ensures moved == old(moved) + Moves(old(Value()), hash, Res(count))
    {
      if count > |buckets| {
        var newCount := GetDoublePrimeNumber(count);
        NextCountIsUnique(count, newCount.value);
        DoRehash(newCount.value);
      }
    }

    method DoRehash(newCount: int)
      requires newCount > 0
      modifies this
      ensures size == old(size)
      ensures newCount > |old(buckets)| ==>
                && buckets == Rehash(old(buckets), hash, newCount) && moved == old(moved) + |Concat(old(buckets))|
                && TableModel.Placed(buckets, hash)
      ensures newCount <= |old(buckets)| ==> buckets == old(buckets) && moved == old(moved)
    {
      if newCount > |buckets| {
        var newBuckets := seq(newCount, j => []);
        var i := 0;
        assert newBuckets == Spread(Concat(buckets[..0]), hash, newCount);
        while i < |buckets|
          invariant 0 <= i <= |buckets| && buckets == old(buckets) && size == old(size)
          invariant newBuckets == Spread(Concat(buckets[..i]), hash, newCount)
          invariant moved == old(moved) + |Concat(buckets[..i])|
        {
          var b, k := buckets[i], 0;
          ghost var before := Concat(buckets[..i]);
          assert before + b[..0] == before;
          while k < |b|
            invariant 0 <= k <= |b| && buckets == old(buckets) && size == old(size)
            invariant newBuckets == Spread(before + b[..k], hash, newCount)
            invariant moved == old(moved) + |before| + k
          {
            var newSlot := Slot(hash, newCount, b[k]);
            SpreadOneMore(before + b[..k], b[k], hash, newCount);
            assert before + b[..k + 1] == before + b[..k] + [b[k]];
            newBuckets := newBuckets[newSlot := newBuckets[newSlot] + [b[k]]];
            moved := moved + 1;
            k := k + 1;
          }
          assert buckets[..i + 1][..i] == buckets[..i];
          assert b[..k] == b;
          i := i + 1;
        }
        assert buckets[..i] == buckets;
        RehashIsPlaced(buckets, hash, newCount);
        buckets := newBuckets;
      }
    }
  }
}
