/**
 Orders, extract-min and sorting: what the planner takes from Python's string comparison,
 its heap queue and its stable `sorted`.
 */
module Ordering {

  type Id = string

  datatype Option<+T> = None | Some(value: T)

  datatype Result<+T, +E> = Ok(value: T) | Err(error: E)

  ghost predicate StrictTotal<T(!new)>(lt: (T, T) -> bool) {
    && (forall a, b :: lt(a, b) ==> !lt(b, a))
    && (forall a, b, c :: lt(a, b) && lt(b, c) ==> lt(a, c))
    && (forall a, b :: a == b || lt(a, b) || lt(b, a))
  }

  /** A strict order by a key: elements with equal keys are incomparable. */
  ghost predicate StrictWeak<T(!new)>(lt: (T, T) -> bool) {
    && (forall a, b :: lt(a, b) ==> !lt(b, a))
    && (forall a, b, c :: lt(a, c) ==> lt(a, b) || lt(b, c))
  }

  // ---------- string order ----------

  /** Python's `<` on strings: lexicographic by code point. */
  predicate StrLt(a: string, b: string) {
    if b == "" then false
    else if a == "" then true
    else a[0] < b[0] || (a[0] == b[0] && StrLt(a[1..], b[1..]))
  }

  lemma {:induction false} StrLtAsymmetric(a: string, b: string)
    requires StrLt(a, b)
    ensures !StrLt(b, a)
  {
    if a != "" && a[0] == b[0] { StrLtAsymmetric(a[1..], b[1..]); }
  }

  lemma {:induction false} StrLtTransitive(a: string, b: string, c: string)
    requires StrLt(a, b) && StrLt(b, c)
    ensures StrLt(a, c)
  {
    if a != "" && a[0] == b[0] == c[0] { StrLtTransitive(a[1..], b[1..], c[1..]); }
  }

  lemma {:induction false} StrLtConnected(a: string, b: string)
    requires a != b
    ensures StrLt(a, b) || StrLt(b, a)
  {
    if a != "" && b != "" && a[0] == b[0] {
      assert a == [a[0]] + a[1..] && b == [b[0]] + b[1..];
      StrLtConnected(a[1..], b[1..]);
    }
  }

  /** `a` ends, or has the smaller character, where the two strings first differ. */
  ghost predicate LessAt(a: string, b: string, i: int) {
    0 <= i <= |a| && i < |b| && a[..i] == b[..i] && (i == |a| || a[i] < b[i])
  }

  lemma LessAtHead(a: string, b: string, i: int)
    requires LessAt(a, b, i)
    ensures i > 0 ==> a[0] == b[0]
  {
    if i > 0 { assert a[0] == a[..i][0] && b[0] == b[..i][0]; }
  }

  /** The order on strings, said without recursion. */
  lemma {:induction false} StrLtMeaning(a: string, b: string)
    ensures StrLt(a, b) <==> exists i :: LessAt(a, b, i)
  {
    if a != "" && b != "" && a[0] == b[0] {
      StrLtMeaning(a[1..], b[1..]);
      if i :| LessAt(a[1..], b[1..], i) { assert a[..i + 1] == [a[0]] + a[1..][..i] == b[..i + 1]; assert LessAt(a, b, i + 1); }
      if i :| LessAt(a, b, i) {
        assert i > 0;
        assert a[1..][..i - 1] == a[..i][1..] && b[1..][..i - 1] == b[..i][1..];
        assert LessAt(a[1..], b[1..], i - 1);
      }
    } else {
      if StrLt(a, b) { assert LessAt(a, b, 0); }
      if i :| LessAt(a, b, i) { LessAtHead(a, b, i); }
    }
  }

  lemma StrLtTotal()
    ensures StrictTotal(StrLt)
  {
    forall a, b | StrLt(a, b) ensures !StrLt(b, a) { StrLtAsymmetric(a, b); }
    forall a, b, c | StrLt(a, b) && StrLt(b, c) ensures StrLt(a, c) { StrLtTransitive(a, b, c); }
    forall a: string, b: string ensures a == b || StrLt(a, b) || StrLt(b, a) {
      if a != b { StrLtConnected(a, b); }
    }
  }

  lemma TotalIsWeak<T(!new)>(lt: (T, T) -> bool)
    requires StrictTotal(lt)
    ensures StrictWeak(lt)
  {
  }

  // ---------- extract-min ----------

  ghost predicate IsLeast<T>(x: T, s: set<T>, lt: (T, T) -> bool) {
    x in s && forall y :: y in s ==> y == x || lt(x, y)
  }

  lemma {:induction false} LeastExists<T(!new)>(s: set<T>, lt: (T, T) -> bool)
    requires StrictTotal(lt) && s != {}
    ensures exists x :: IsLeast(x, s, lt)
  {
    var a :| a in s;
    var rest := s - {a};
    if rest == {} {
      assert s == {a};
      assert IsLeast(a, s, lt);
    } else {
      LeastExists(rest, lt);
      var m :| IsLeast(m, rest, lt);
      assert IsLeast(if lt(a, m) then a else m, s, lt);
    }
  }

  /** The element `heapq.heappop` takes from a heap holding the set `s`. */
  function Least<T(==, !new)>(s: set<T>, lt: (T, T) -> bool): (x: T)
    requires StrictTotal(lt) && s != {}
    ensures IsLeast(x, s, lt)
  {
    LeastExists(s, lt);
    var m :| m in s && forall y :: y in s ==> y == m || lt(m, y);
    m
  }

  ghost predicate Ascending<T>(xs: seq<T>, lt: (T, T) -> bool) {
    forall i, j :: 0 <= i < j < |xs| ==> lt(xs[i], xs[j])
  }

  /** `sorted(s)` on a set, under a total order. */
  function SortSet<T(==, !new)>(s: set<T>, lt: (T, T) -> bool): (r: seq<T>)
    requires StrictTotal(lt)
    ensures Ascending(r, lt)
    ensures forall x :: x in r <==> x in s
    ensures |r| == |s|
  {
    if s == {} then [] else
    var m := Least(s, lt);
    [m] + SortSet(s - {m}, lt)
  }

  lemma {:induction false} AscendingUnique<T(!new)>(a: seq<T>, b: seq<T>, lt: (T, T) -> bool)
    requires StrictTotal(lt) && Ascending(a, lt) && Ascending(b, lt)
    requires forall x :: x in a <==> x in b
    ensures a == b
  {
    if a == [] {
      assert forall i :: 0 <= i < |b| ==> b[i] in b;
    } else {
      assert a[0] in b && b != [];
      assert b[0] in a;
      assert a[0] == b[0];
      forall x ensures x in a[1..] <==> x in b[1..] {
        assert x in a <==> x in b;
        assert a == [a[0]] + a[1..] && b == [b[0]] + b[1..];
      }
      AscendingUnique(a[1..], b[1..], lt);
    }
  }

  /**
   `sorted(s)` on a set of ids; also the order in which `heapq.heappop` drains a heap of ids on which
   nothing is pushed meanwhile.
   */
  method SortIds(s: set<Id>) returns (r: seq<Id>)
    ensures Ascending(r, StrLt)
    ensures forall i, j :: 0 <= i < j < |r| ==> r[i] != r[j]
    ensures forall x :: x in r <==> x in s
  {
    StrLtTotal();
    r := SortSet(s, StrLt);
    forall i, j | 0 <= i < j < |r| ensures r[i] != r[j] {
      StrLtAsymmetric(r[i], r[j]);
    }
  }

  lemma PrefixStep<T>(xs: seq<T>, i: nat)
    requires i < |xs|
    ensures xs[..i + 1] == xs[..i] + [xs[i]]
  {
  }

  // ---------- stable sort ----------

  ghost predicate SortedBy<T>(xs: seq<T>, lt: (T, T) -> bool) {
    forall i, j :: 0 <= i < j < |xs| ==> !lt(xs[j], xs[i])
  }

  function Insert<T>(x: T, ys: seq<T>, lt: (T, T) -> bool): (r: seq<T>)
    ensures multiset(r) == multiset{x} + multiset(ys)
  {
    if ys == [] || !lt(ys[0], x) then
      [x] + ys
    else
      assert ys == [ys[0]] + ys[1..];
      [ys[0]] + Insert(x, ys[1..], lt)
  }

  lemma NotLessTransitive<T(!new)>(a: T, b: T, c: T, lt: (T, T) -> bool)
    requires StrictWeak(lt) && !lt(a, b) && !lt(b, c)
    ensures !lt(a, c)
  {
  }

  lemma {:induction false} InsertSorted<T(!new)>(x: T, ys: seq<T>, lt: (T, T) -> bool)
    requires StrictWeak(lt) && SortedBy(ys, lt)
    ensures SortedBy(Insert(x, ys, lt), lt)
  {
    if ys == [] {
    } else if !lt(ys[0], x) {
      forall j | 0 <= j < |ys| ensures !lt(ys[j], x) {
        if j > 0 { NotLessTransitive(ys[j], ys[0], x, lt); }
      }
    } else {
      InsertSorted(x, ys[1..], lt);
      var rest := Insert(x, ys[1..], lt);
      forall j | 0 <= j < |rest| ensures !lt(rest[j], ys[0]) {
        assert rest[j] in multiset(rest);
        assert rest[j] == x || rest[j] in ys[1..];
      }
    }
  }

  /** `sorted(xs, key=...)`: a stable sort; elements with equal keys keep their order. */
  function Sort<T>(xs: seq<T>, lt: (T, T) -> bool): (r: seq<T>)
    ensures multiset(r) == multiset(xs)
  {
    if xs == [] then [] else
    assert xs == [xs[0]] + xs[1..];
    Insert(xs[0], Sort(xs[1..], lt), lt)
  }

  lemma {:induction false} SortSorts<T(!new)>(xs: seq<T>, lt: (T, T) -> bool)
    requires StrictWeak(lt)
    ensures SortedBy(Sort(xs, lt), lt)
  {
    if xs != [] {
      SortSorts(xs[1..], lt);
      InsertSorted(xs[0], Sort(xs[1..], lt), lt);
    }
  }

  lemma SameElements<T(!new)>(a: seq<T>, b: seq<T>)
    requires multiset(a) == multiset(b)
    ensures forall x :: x in a <==> x in b
  {
    forall x ensures x in a <==> x in b { assert x in multiset(a) <==> x in multiset(b); }
  }

  lemma SortMembers<T(!new)>(xs: seq<T>, lt: (T, T) -> bool)
    ensures forall x :: x in Sort(xs, lt) <==> x in xs
  {
    SameElements(Sort(xs, lt), xs);
  }

  lemma SortedHead<T(!new)>(a: seq<T>, b: seq<T>, lt: (T, T) -> bool)
    requires a != [] && SortedBy(a, lt) && SortedBy(b, lt)
    requires multiset(a) == multiset(b)
    requires forall x, y :: x in a && y in a && x != y ==> lt(x, y) || lt(y, x)
    ensures b != [] && a[0] == b[0]
  {
    assert |multiset(a)| == |a| && |multiset(b)| == |b|;
    assert a[0] in multiset(b) && b[0] in multiset(a);
  }

  lemma TailElements<T>(a: seq<T>)
    requires a != []
    ensures multiset(a[1..]) == multiset(a) - multiset{a[0]}
  {
    assert a == [a[0]] + a[1..];
  }

  /** A sorted list is determined by its elements when the order separates them. */
  lemma {:induction false} SortedUnique<T(!new)>(a: seq<T>, b: seq<T>, lt: (T, T) -> bool)
    requires StrictWeak(lt) && SortedBy(a, lt) && SortedBy(b, lt)
    requires multiset(a) == multiset(b)
    requires forall x, y :: x in a && y in a && x != y ==> lt(x, y) || lt(y, x)
    ensures a == b
  {
    if a == [] {
      assert |multiset(b)| == |b|;
    } else {
      SortedHead(a, b, lt);
      TailElements(a);
      TailElements(b);
      assert forall x :: x in a[1..] ==> x in a;
      SortedUnique(a[1..], b[1..], lt);
    }
  }

  /** Sorting does not depend on the order of the input when the order separates its elements. */
  lemma SortIgnoresOrder<T(!new)>(a: seq<T>, b: seq<T>, lt: (T, T) -> bool)
    requires StrictWeak(lt) && multiset(a) == multiset(b)
    requires forall x, y :: x in a && y in a && x != y ==> lt(x, y) || lt(y, x)
    ensures Sort(a, lt) == Sort(b, lt)
  {
    SortSorts(a, lt);
    SortSorts(b, lt);
    var r := Sort(a, lt);
    assert forall x :: x in r ==> x in multiset(r);
    assert forall x :: x in r ==> x in multiset(a);
    SortedUnique(r, Sort(b, lt), lt);
  }

  /** The first of a sorted list is a least element. */
  lemma SortHead<T(!new)>(xs: seq<T>, lt: (T, T) -> bool)
    requires StrictWeak(lt) && xs != []
    ensures Sort(xs, lt) != [] && Sort(xs, lt)[0] in xs
    ensures forall x :: x in xs ==> !lt(x, Sort(xs, lt)[0])
  {
    SortSorts(xs, lt);
    var r := Sort(xs, lt);
    assert |multiset(r)| == |r| && |multiset(xs)| == |xs|;
    assert r[0] in multiset(xs);
    forall x | x in xs ensures !lt(x, r[0]) {
      assert x in multiset(r);
      var i :| 0 <= i < |r| && r[i] == x;
    }
  }

  /** Sorting a list that is already sorted changes nothing. */
  lemma {:induction false} SortFixesSorted<T(!new)>(xs: seq<T>, lt: (T, T) -> bool)
    requires SortedBy(xs, lt)
    ensures Sort(xs, lt) == xs
  {
    if xs != [] { SortFixesSorted(xs[1..], lt); }
  }

  // ---------- filtering ----------

  /** `[x for x in xs if p(x)]` */
  function Filter<T(!new)>(xs: seq<T>, p: T -> bool): (r: seq<T>)
    ensures |r| <= |xs|
  {
    if xs == [] then [] else
    var n := |xs| - 1;
    Filter(xs[..n], p) + (if p(xs[n]) then [xs[n]] else [])
  }

  lemma {:induction false} FilterIn<T(!new)>(xs: seq<T>, p: T -> bool, x: T)
    ensures x in Filter(xs, p) <==> x in xs && p(x)
  {
    if xs != [] {
      var n := |xs| - 1;
      FilterIn(xs[..n], p, x);
      assert xs == xs[..n] + [xs[n]];
    }
  }

  lemma FilterMembers<T(!new)>(xs: seq<T>, p: T -> bool)
    ensures forall x :: x in Filter(xs, p) <==> x in xs && p(x)
  {
  }

  /** Filtering one element more. */
  function FilterNext<T(!new)>(xs: seq<T>, i: nat, p: T -> bool): seq<T>
    requires i < |xs|
  {
    Filter(xs[..i], p) + (if p(xs[i]) then [xs[i]] else [])
  }

  lemma FilterStep<T(!new)>(xs: seq<T>, i: nat, p: T -> bool)
    requires i < |xs|
    ensures Filter(xs[..i + 1], p) == FilterNext(xs, i, p)
  {
    assert xs[..i + 1][..i] == xs[..i];
  }

  ghost function PositionsWhere<T(!new)>(xs: seq<T>, p: T -> bool): set<int> {
    set i | 0 <= i < |xs| && p(xs[i])
  }

  /** A filter keeps one element for each position that satisfies the condition. */
  lemma {:induction false} FilterPositions<T(!new)>(xs: seq<T>, p: T -> bool)
    ensures |Filter(xs, p)| == |PositionsWhere(xs, p)|
  {
    if xs != [] {
      var n := |xs| - 1;
      FilterPositions(xs[..n], p);
      var before := PositionsWhere(xs[..n], p);
      assert n !in before;
      assert PositionsWhere(xs, p) == if p(xs[n]) then before + {n} else before;
    }
  }

  lemma {:induction false} FilterNone<T(!new)>(xs: seq<T>, p: T -> bool)
    requires forall x :: x in xs ==> !p(x)
    ensures Filter(xs, p) == []
  {
    if xs != [] { FilterNone(xs[..|xs| - 1], p); }
  }

  lemma {:induction false} FilterAgrees<T(!new)>(xs: seq<T>, p: T -> bool, q: T -> bool)
    requires forall x :: x in xs ==> p(x) == q(x)
    ensures Filter(xs, p) == Filter(xs, q)
  {
    if xs != [] {
      assert forall x :: x in xs[..|xs| - 1] ==> x in xs;
      FilterAgrees(xs[..|xs| - 1], p, q);
    }
  }

  lemma {:induction false} FilterCounts<T(!new)>(xs: seq<T>, p: T -> bool, x: T)
    ensures multiset(Filter(xs, p))[x] == if p(x) then multiset(xs)[x] else 0
  {
    if xs != [] {
      var n := |xs| - 1;
      FilterCounts(xs[..n], p, x);
      assert xs == xs[..n] + [xs[n]];
    }
  }

  lemma FilterIgnoresOrder<T(!new)>(xs: seq<T>, ys: seq<T>, p: T -> bool)
    requires multiset(xs) == multiset(ys)
    ensures multiset(Filter(xs, p)) == multiset(Filter(ys, p))
  {
    forall x ensures multiset(Filter(xs, p))[x] == multiset(Filter(ys, p))[x] {
      FilterCounts(xs, p, x);
      FilterCounts(ys, p, x);
    }
  }

  // ---------- lists without repetition ----------

  ghost predicate NoRepeats<T>(xs: seq<T>) {
    forall i, j :: 0 <= i < j < |xs| ==> xs[i] != xs[j]
  }

  /** No two positions have the same key. */
  ghost predicate DistinctBy<T, K>(xs: seq<T>, key: T -> K) {
    forall i, j {:trigger xs[i], xs[j]} :: 0 <= i < j < |xs| ==> key(xs[i]) != key(xs[j])
  }

  ghost predicate HasKey<T, K>(xs: seq<T>, key: T -> K, k: K) {
    exists i {:trigger xs[i]} :: 0 <= i < |xs| && key(xs[i]) == k
  }

  /** Elements are told apart by a key that no two positions share. */
  lemma UniqueByKey<T, K>(xs: seq<T>, key: T -> K, a: T, b: T)
    requires DistinctBy(xs, key) && a in xs && b in xs && key(a) == key(b)
    ensures a == b
  {
  }

  lemma {:induction false} NoRepeatsCounts<T(!new)>(xs: seq<T>)
    requires NoRepeats(xs)
    ensures forall x :: multiset(xs)[x] == if x in xs then 1 else 0
  {
    if xs != [] {
      var n := |xs| - 1;
      NoRepeatsCounts(xs[..n]);
      assert xs == xs[..n] + [xs[n]];
      assert xs[n] !in xs[..n];
    }
  }

  lemma CountsNoRepeats<T(!new)>(xs: seq<T>)
    requires forall x :: multiset(xs)[x] <= 1
    ensures NoRepeats(xs)
  {
    forall i, j | 0 <= i < j < |xs| ensures xs[i] != xs[j] {
      var left, right := xs[..j], xs[j..];
      assert xs == left + right && xs[i] == left[i] && xs[j] == right[0];
      assert left[i] in multiset(left) && right[0] in multiset(right);
      assert multiset(xs)[xs[j]] == multiset(left)[xs[j]] + multiset(right)[xs[j]];
    }
  }

  /** A permutation of a list keeps its keys distinct. */
  lemma PermutedDistinctBy<T(!new), K>(xs: seq<T>, ys: seq<T>, key: T -> K)
    requires multiset(xs) == multiset(ys) && DistinctBy(xs, key)
    ensures DistinctBy(ys, key)
  {
    SameElements(xs, ys);
    NoRepeatsCounts(xs);
    CountsNoRepeats(ys);
    forall i, j | 0 <= i < j < |ys| ensures key(ys[i]) != key(ys[j]) {
      var a, b := ys[i], ys[j];
      assert a in xs && b in xs && a != b;
      if key(a) == key(b) { UniqueByKey(xs, key, a, b); }
    }
  }

  /** A selection from a list keeps its keys distinct. */
  lemma {:induction false} FilterDistinctBy<T(!new), K>(xs: seq<T>, p: T -> bool, key: T -> K)
    requires DistinctBy(xs, key)
    ensures DistinctBy(Filter(xs, p), key)
  {
    if xs != [] {
      var n := |xs| - 1;
      FilterDistinctBy(xs[..n], p, key);
      FilterMembers(xs[..n], p);
      var r := Filter(xs[..n], p);
      forall i | 0 <= i < |r| ensures key(r[i]) != key(xs[n]) { assert r[i] in xs[..n]; }
    }
  }

  /** Lists without repetition that hold the same elements are permutations of each other. */
  lemma NoRepeatsMultiset<T(!new)>(a: seq<T>, b: seq<T>)
    requires NoRepeats(a) && NoRepeats(b) && forall x :: x in a <==> x in b
    ensures multiset(a) == multiset(b)
  {
    NoRepeatsCounts(a);
    NoRepeatsCounts(b);
  }

  // ---------- dictionaries ----------

  /** `keys` lists the dictionary's keys in insertion order. */
  ghost predicate Dictionary<K(!new), V>(keys: seq<K>, d: map<K, V>) {
    (forall k :: k in keys <==> k in d) && NoRepeats(keys)
  }

  /** A dictionary's values in that order. */
  function Values<K(!new), V>(keys: seq<K>, d: map<K, V>): (r: seq<V>)
    requires forall k :: k in keys ==> k in d
    ensures |r| == |keys|
    ensures forall i :: 0 <= i < |keys| ==> r[i] == d[keys[i]]
  {
    seq(|keys|, i requires 0 <= i < |keys| => d[keys[i]])
  }
}
