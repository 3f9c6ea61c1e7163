/** Counting the elements of a sequence that have a property, and sequences without repetition. */
module Counting {

  /** The positions of `ts` whose element satisfies `p`. */
  ghost function Positions<T>(ts: seq<T>, p: T -> bool): set<int> {
    set i | 0 <= i < |ts| && p(ts[i])
  }

  ghost function Count<T>(ts: seq<T>, p: T -> bool): nat {
    |Positions(ts, p)|
  }

  lemma CountUpdate<T>(ts: seq<T>, p: T -> bool, k: nat, v: T)
    requires k < |ts|
    ensures Count(ts[k := v], p) + (if p(ts[k]) then 1 else 0) == Count(ts, p) + (if p(v) then 1 else 0)
  {
    var was, now := Positions(ts, p), Positions(ts[k := v], p);
    assert was - {k} == now - {k};
    assert was == if p(ts[k]) then (was - {k}) + {k} else was - {k};
    assert now == if p(v) then (now - {k}) + {k} else now - {k};
  }

  /** Sequences that agree element by element, each under its own property, count the same. */
  lemma CountSame<T>(ts: seq<T>, p: T -> bool, us: seq<T>, q: T -> bool)
    requires |ts| == |us|
    requires forall i :: 0 <= i < |ts| ==> p(ts[i]) == q(us[i])
    ensures Count(ts, p) == Count(us, q)
  {
    assert Positions(ts, p) == Positions(us, q);
  }

  lemma CountNone<T>(ts: seq<T>, p: T -> bool)
    ensures Count(ts, p) == 0 <==> forall i :: 0 <= i < |ts| ==> !p(ts[i])
  {
    if i :| 0 <= i < |ts| && p(ts[i]) {
      assert i in Positions(ts, p);
    } else {
      assert Positions(ts, p) == {};
    }
  }

  lemma CountAll<T>(ts: seq<T>, p: T -> bool)
    ensures Count(ts, p) <= |ts|
    ensures Count(ts, p) == |ts| <==> forall i :: 0 <= i < |ts| ==> p(ts[i])
  {
    var all := Below(|ts|);
    SubsetSize(Positions(ts, p), all);
    if i :| 0 <= i < |ts| && !p(ts[i]) {
      SubsetSize(Positions(ts, p), all - {i});
    } else {
      assert Positions(ts, p) == all;
    }
  }

  ghost function Below(n: nat): (r: set<int>)
    ensures |r| == n
    ensures forall i :: i in r <==> 0 <= i < n
  {
    if n == 0 then {} else Below(n - 1) + {n - 1}
  }

  /** At most one thread counted: there is one such thread. */
  lemma CountOne<T>(ts: seq<T>, p: T -> bool, i: nat, j: nat)
    requires Count(ts, p) <= 1
    requires i < |ts| && j < |ts| && p(ts[i]) && p(ts[j])
    ensures i == j
  {
    if i != j {
      assert {i, j} <= Positions(ts, p);
      SubsetSize({i, j}, Positions(ts, p));
    }
  }

  lemma {:induction false} SubsetSize<T>(a: set<T>, b: set<T>)
    requires a <= b
    ensures |a| <= |b|
  {
    if a == {} {
    } else {
      var x :| x in a;
      SubsetSize(a - {x}, b - {x});
    }
  }

  // ----- Sequences without repetition -----

  ghost predicate Distinct<T>(q: seq<T>) {
    forall i, j :: 0 <= i < j < |q| ==> q[i] != q[j]
  }

  /** Distinct numbers below `n` are at most `n` many. */
  lemma {:induction false} Pigeonhole(q: seq<nat>, n: nat)
    requires Distinct(q) && forall i :: 0 <= i < |q| ==> q[i] < n
    ensures |q| <= n
  {
    if |q| == 0 {
    } else {
      assert q[0] < n;
      if i :| 0 <= i < |q| && q[i] == n - 1 {
        var rest := q[..i] + q[i + 1..];
        Pigeonhole(rest, n - 1);
      } else {
        Pigeonhole(q, n - 1);
      }
    }
  }
}
