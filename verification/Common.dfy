/** Small vocabulary shared by the models: optional values and duplicate-free sequences. */
module Common {

  /** The number of 16-bit words. */
  const U16: nat := 0x1_0000

  datatype Option<+T> = None | Some(value: T)

  /** The sequence lists no element twice. */
  predicate Distinct<T(==)>(s: seq<T>) {
    forall i, j :: 0 <= i < j < |s| ==> s[i] != s[j]
  }

  function Max(a: int, b: int): (r: int)
    ensures r >= a && r >= b && (r == a || r == b)
  {
    if a < b then b else a
  }

  // ----- counting -----

  /** The numbers below `n`. */
  function Below(n: nat): (r: set<nat>)
    ensures |r| == n && forall i: nat :: i in r <==> i < n
  {
    if n == 0 then {} else Below(n - 1) + {n - 1}
  }

  lemma ProperSubsetSmaller(a: set<nat>, b: set<nat>)
    requires a <= b && a != b
    ensures |a| < |b|
  {
    var x :| x in b && x !in a;
    assert a <= b - {x};
    SubsetSize(a, b - {x});
  }

  lemma {:induction false} SubsetSize(a: set<nat>, b: set<nat>)
    requires a <= b
    ensures |a| <= |b|
    decreases a
  {
    if a != {} {
      var x :| x in a;
      SubsetSize(a - {x}, b - {x});
    }
  }

  ghost function Members(queue: seq<nat>): set<nat> {
    set n: nat | n in queue
  }

  lemma MembersLast(queue: seq<nat>)
    requires queue != []
    ensures Members(queue) == Members(queue[..|queue| - 1]) + {queue[|queue| - 1]}
  {
    assert queue == queue[..|queue| - 1] + [queue[|queue| - 1]];
  }

  lemma {:induction false} DistinctSize(queue: seq<nat>)
    requires Distinct(queue)
    ensures |Members(queue)| == |queue|
    decreases |queue|
  {
    if queue == [] {
      assert Members(queue) == {};
    } else {
      MembersLast(queue);
      DistinctSize(queue[..|queue| - 1]);
    }
  }

  /** Distinct numbers below their own count hit every number below it. */
  lemma DistinctIsOnto(s: seq<nat>, q: nat)
    requires Distinct(s) && q < |s| && forall i :: 0 <= i < |s| ==> s[i] < |s|
    ensures q in s
  {
    DistinctSize(s);
    if q !in s {
      assert q in Below(|s|) && q !in Members(s);
      ProperSubsetSmaller(Members(s), Below(|s|));
    }
  }

  // ----- iterating a step -----

  function Iterate<S>(step: S -> S, s: S, k: nat): S
    decreases k
  {
    if k == 0 then s else Iterate(step, step(s), k - 1)
  }

  /** The step leads from states with `inv` to states with `inv`. */
  ghost predicate Keeps<S(!new)>(step: S -> S, inv: S -> bool) {
    forall s: S :: inv(s) ==> inv(step(s))
  }

  lemma {:induction false} IterateKeeps<S(!new)>(step: S -> S, inv: S -> bool, s: S, k: nat)
    requires Keeps(step, inv) && inv(s)
    ensures inv(Iterate(step, s, k))
    decreases k
  {
    if k > 0 {
      IterateKeeps(step, inv, step(s), k - 1);
    }
  }

  lemma {:induction false} IterateConcat<S>(step: S -> S, s: S, a: nat, b: nat)
    ensures Iterate(step, s, a + b) == Iterate(step, Iterate(step, s, a), b)
    decreases a
  {
    if a > 0 {
      IterateConcat(step, step(s), a - 1, b);
    }
  }

  lemma {:induction false} IterateSame<S(!new)>(step: S -> S, other: S -> S, inv: S -> bool, s: S, k: nat)
    requires Keeps(step, inv) && inv(s) && forall x: S :: inv(x) ==> step(x) == other(x)
    ensures Iterate(step, s, k) == Iterate(other, s, k)
    decreases k
  {
    if k > 0 {
      IterateSame(step, other, inv, step(s), k - 1);
    }
  }
}
