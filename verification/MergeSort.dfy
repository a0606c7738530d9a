/** g_queue_sort of GLib: a stable merge sort, for a comparator that may fail to be
    transitive. */
module MergeSort {

  function Merge<T>(a: seq<T>, b: seq<T>, cmp: (T, T) -> int): seq<T>
    decreases |a| + |b|
  {
    if a == [] then b
    else if b == [] then a
    else if cmp(a[0], b[0]) <= 0 then [a[0]] + Merge(a[1..], b, cmp)
    else [b[0]] + Merge(a, b[1..], cmp)
  }

  function Sort<T>(ts: seq<T>, cmp: (T, T) -> int): seq<T>
    decreases |ts|
  {
    if |ts| < 2 then ts
    else Merge(Sort(ts[..|ts| / 2], cmp), Sort(ts[|ts| / 2..], cmp), cmp)
  }

  /** No neighbours are the wrong way round. */
  ghost predicate Chain<T>(ts: seq<T>, cmp: (T, T) -> int) {
    forall i :: 0 <= i < |ts| - 1 ==> cmp(ts[i], ts[i + 1]) <= 0
  }

  /** Swapping the arguments turns "after" into "not after". */
  ghost predicate Asymmetric<T(!new)>(cmp: (T, T) -> int) {
    forall x, y :: cmp(x, y) > 0 ==> cmp(y, x) <= 0
  }

  lemma ConsChain<T>(x: T, ts: seq<T>, cmp: (T, T) -> int)
    requires Chain(ts, cmp) && (ts == [] || cmp(x, ts[0]) <= 0)
    ensures Chain([x] + ts, cmp)
  {
  }

  lemma {:induction false} MergeChain<T(!new)>(a: seq<T>, b: seq<T>, cmp: (T, T) -> int)
    requires Asymmetric(cmp) && Chain(a, cmp) && Chain(b, cmp)
    ensures Chain(Merge(a, b, cmp), cmp)
    ensures Merge(a, b, cmp) == [] <==> a == [] && b == []
    ensures Merge(a, b, cmp) != [] ==>
              var x := Merge(a, b, cmp)[0]; (a != [] && x == a[0]) || (b != [] && x == b[0])
    decreases |a| + |b|
  {
    if a != [] && b != [] {
      if cmp(a[0], b[0]) <= 0 {
        assert a[1..] != [] ==> cmp(a[0], a[0 + 1]) <= 0;
        MergeChain(a[1..], b, cmp);
        ConsChain(a[0], Merge(a[1..], b, cmp), cmp);
      } else {
        assert b[1..] != [] ==> cmp(b[0], b[0 + 1]) <= 0;
        MergeChain(a, b[1..], cmp);
        ConsChain(b[0], Merge(a, b[1..], cmp), cmp);
      }
    }
  }

  lemma {:induction false} MergePermutes<T>(a: seq<T>, b: seq<T>, cmp: (T, T) -> int)
    ensures multiset(Merge(a, b, cmp)) == multiset(a) + multiset(b)
    decreases |a| + |b|
  {
    if a != [] && b != [] {
      if cmp(a[0], b[0]) <= 0 {
        assert a == [a[0]] + a[1..];
        MergePermutes(a[1..], b, cmp);
      } else {
        assert b == [b[0]] + b[1..];
        MergePermutes(a, b[1..], cmp);
      }
    }
  }

  lemma {:induction false} MergeSorted<T(!new)>(x: seq<T>, y: seq<T>, a: seq<T>, b: seq<T>, cmp: (T, T) -> int)
    requires Asymmetric(cmp) && Chain(x, cmp) && Chain(y, cmp)
    requires multiset(x) == multiset(a) && multiset(y) == multiset(b)
    ensures Chain(Merge(x, y, cmp), cmp) && multiset(Merge(x, y, cmp)) == multiset(a + b)
  {
    hide Merge, Chain, Asymmetric;
    MergeChain(x, y, cmp);
    MergePermutes(x, y, cmp);
  }

  /** The result is a permutation in which no neighbours are the wrong way round. */
  lemma {:induction false} SortIsChain<T(!new)>(ts: seq<T>, cmp: (T, T) -> int)
    requires Asymmetric(cmp)
    ensures Chain(Sort(ts, cmp), cmp) && multiset(Sort(ts, cmp)) == multiset(ts)
    decreases |ts|
  {
    if |ts| >= 2 {
      hide Merge, Chain, Asymmetric;
      var a, b := ts[..|ts| / 2], ts[|ts| / 2..];
      assert ts == a + b;
      SortIsChain(a, cmp);
      SortIsChain(b, cmp);
      MergeSorted(Sort(a, cmp), Sort(b, cmp), a, b, cmp);
    }
  }
}
