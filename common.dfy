/** Values shared by every part of the model: bytes, optional and fallible
    results, the opaque image an encoder renders, duplicate-free sequences,
    the insertion sort that stands in for Go's sort.Slice and sort.Ints, and
    the division facts used to decode a flat index of a nested loop. */
module Common {

  /** A Go `byte`. */
  type byte = x: int | 0 <= x < 256

  datatype Option<+T> = None | Some(value: T)

  datatype Result<+T, +E> = Success(value: T) | Failure(error: E)

  /** An `image.Image` as far as the engine is concerned: either Go's nil or
      some rendered picture whose pixels the engine never looks at. */
  datatype Image = NilImage | Rendered(handle: nat)

  ghost predicate NoDuplicates<T>(s: seq<T>) {
    forall i, j :: 0 <= i < j < |s| ==> s[i] != s[j]
  }

  /** In a sequence without duplicates, a value fixes its position. */
  lemma NoDuplicatesIndex<T>(s: seq<T>, i: nat, j: nat)
    requires NoDuplicates(s) && i < |s| && j < |s| && s[i] == s[j]
    ensures i == j
  {
  }

  /** Number of elements of `s` that satisfy `p`. */
  function CountIf<T>(s: seq<T>, p: T -> bool): (n: nat)
    ensures n <= |s|
  {
    if s == [] then 0 else CountIf(s[..|s| - 1], p) + (if p(s[|s| - 1]) then 1 else 0)
  }

  /** The elements of `s` that satisfy `p`, in their original order. */
  function Filter<T>(s: seq<T>, p: T -> bool): (r: seq<T>)
    ensures |r| == CountIf(s, p)
    ensures forall x :: x in r ==> x in s && p(x)
  {
    if s == [] then [] else Filter(s[..|s| - 1], p) + (if p(s[|s| - 1]) then [s[|s| - 1]] else [])
  }

  /** Some element satisfies `p` exactly when the count is positive. */
  lemma {:induction false} CountIfPositive<T>(s: seq<T>, p: T -> bool)
    ensures CountIf(s, p) > 0 <==> exists i :: 0 <= i < |s| && p(s[i])
  {
    if s != [] {
      var init := s[..|s| - 1];
      CountIfPositive(init, p);
      if exists i :: 0 <= i < |init| && p(init[i]) {
        var i :| 0 <= i < |init| && p(init[i]);
        assert s[i] == init[i];
      }
      if exists i :: 0 <= i < |s| && p(s[i]) {
        var i :| 0 <= i < |s| && p(s[i]);
        if i < |init| {
          assert init[i] == s[i];
        }
      }
    }
  }

  /** A weaker condition is met at least as often. */
  lemma {:induction false} CountIfMono<T>(s: seq<T>, p: T -> bool, q: T -> bool)
    requires forall i :: 0 <= i < |s| && p(s[i]) ==> q(s[i])
    ensures CountIf(s, p) <= CountIf(s, q)
  {
    if s != [] {
      var init := s[..|s| - 1];
      assert forall i :: 0 <= i < |init| ==> init[i] == s[i];
      CountIfMono(init, p, q);
    }
  }

  /** Conditions that agree on every element count the same. */
  lemma {:induction false} CountIfExt<T>(s: seq<T>, p: T -> bool, q: T -> bool)
    requires forall i :: 0 <= i < |s| ==> p(s[i]) == q(s[i])
    ensures CountIf(s, p) == CountIf(s, q)
  {
    CountIfMono(s, p, q);
    CountIfMono(s, q, p);
  }

  /** The elements meeting `p` or `q`. */
  function Or<T>(p: T -> bool, q: T -> bool): T -> bool {
    x => p(x) || q(x)
  }

  /** Conditions that never hold together are counted separately: the
      count of either is the sum of the counts. */
  lemma {:induction false} CountIfUnion<T>(s: seq<T>, p: T -> bool, q: T -> bool)
    requires forall i :: 0 <= i < |s| ==> !(p(s[i]) && q(s[i]))
    ensures CountIf(s, Or(p, q)) == CountIf(s, p) + CountIf(s, q)
  {
    if s != [] {
      var init := s[..|s| - 1];
      assert forall i :: 0 <= i < |init| ==> init[i] == s[i];
      CountIfUnion(init, p, q);
    }
  }

  /** Elements meeting `q` all meet `p`, so dropping those that fail `p`
      first leaves the count of `q` unchanged. */
  lemma {:induction false} CountIfFilter<T>(s: seq<T>, p: T -> bool, q: T -> bool)
    requires forall i :: 0 <= i < |s| && q(s[i]) ==> p(s[i])
    ensures CountIf(Filter(s, p), q) == CountIf(s, q)
  {
    if s != [] {
      var init := s[..|s| - 1];
      var x := s[|s| - 1];
      assert forall i :: 0 <= i < |init| ==> init[i] == s[i];
      CountIfFilter(init, p, q);
      var f := Filter(init, p);
      assert q(x) ==> p(x);
      if p(x) {
        assert Filter(s, p) == f + [x];
        assert (f + [x])[..|f|] == f;
      } else {
        assert Filter(s, p) == f;
      }
    }
  }

  /** A condition every element meets counts them all. */
  lemma {:induction false} CountIfAll<T>(s: seq<T>, p: T -> bool)
    requires forall i :: 0 <= i < |s| ==> p(s[i])
    ensures CountIf(s, p) == |s|
  {
    if s != [] {
      var init := s[..|s| - 1];
      assert forall i :: 0 <= i < |init| ==> init[i] == s[i];
      CountIfAll(init, p);
    }
  }

  /** A value occurring at two positions occurs at least twice. */
  lemma MultisetTwice<T>(s: seq<T>, i: nat, j: nat)
    requires i < j < |s| && s[i] == s[j]
    ensures multiset(s)[s[i]] >= 2
  {
    assert s == s[..j] + s[j..];
    assert s[i] in s[..j];
    assert s[j] in s[j..];
    assert multiset(s) == multiset(s[..j]) + multiset(s[j..]);
  }

  /** Without duplicates, nothing occurs twice. */
  lemma {:induction false} NoDuplicatesOnce<T>(s: seq<T>, x: T)
    requires NoDuplicates(s)
    ensures multiset(s)[x] <= 1
  {
    if s != [] {
      var init := s[..|s| - 1];
      assert s == init + [s[|s| - 1]];
      assert NoDuplicates(init);
      NoDuplicatesOnce(init, x);
      if x == s[|s| - 1] {
        assert x !in init;
      }
    }
  }

  /** A permutation of a duplicate-free sequence is duplicate-free. */
  lemma NoDuplicatesPermutation<T>(a: seq<T>, b: seq<T>)
    requires multiset(a) == multiset(b) && NoDuplicates(a)
    ensures NoDuplicates(b)
  {
    forall i, j | 0 <= i < j < |b|
      ensures b[i] != b[j]
    {
      if b[i] == b[j] {
        MultisetTwice(b, i, j);
        NoDuplicatesOnce(a, b[i]);
      }
    }
  }

  /** Sequences with the same multiset have the same elements. */
  lemma SameElements<T>(a: seq<T>, b: seq<T>)
    requires multiset(a) == multiset(b)
    ensures forall x :: x in a <==> x in b
  {
    forall x ensures x in a <==> x in b {
      assert x in a <==> x in multiset(a);
      assert x in b <==> x in multiset(b);
    }
  }

  /** A total preorder: what a Go `less` function used by sort.Slice has to
      be for the sort to be meaningful (here given as "less or equal"). */
  ghost predicate TotalPreorder<T(!new)>(le: (T, T) -> bool) {
    && (forall a, b :: le(a, b) || le(b, a))
    && (forall a, b, c :: le(a, b) && le(b, c) ==> le(a, c))
  }

  ghost predicate SortedBy<T>(s: seq<T>, le: (T, T) -> bool) {
    forall i, j :: 0 <= i < j < |s| ==> le(s[i], s[j])
  }

  /** Inserts `x` before the first element it is `le` to. */
  function Insert<T>(x: T, s: seq<T>, le: (T, T) -> bool): (r: seq<T>)
    ensures multiset(r) == multiset{x} + multiset(s)
    ensures |r| == |s| + 1
  {
    if s == [] then [x]
    else if le(x, s[0]) then [x] + s
    else
      assert s == [s[0]] + s[1..];
      [s[0]] + Insert(x, s[1..], le)
  }

  /** Insertion sort; it keeps equal elements in their original order. */
  function SortBy<T>(s: seq<T>, le: (T, T) -> bool): (r: seq<T>)
    ensures multiset(r) == multiset(s)
    ensures |r| == |s|
  {
    if s == [] then []
    else
      assert s == [s[0]] + s[1..];
      Insert(s[0], SortBy(s[1..], le), le)
  }

  lemma {:induction false} InsertSorted<T(!new)>(x: T, s: seq<T>, le: (T, T) -> bool)
    requires TotalPreorder(le)
    requires SortedBy(s, le)
    ensures SortedBy(Insert(x, s, le), le)
  {
    if s != [] && !le(x, s[0]) {
      var tail := s[1..];
      InsertSorted(x, tail, le);
      var r := Insert(x, tail, le);
      InsertElements(x, tail, le);
      assert le(s[0], x);
      forall k | 0 <= k < |r| ensures le(s[0], r[k]) {
        assert r[k] in r;
        if r[k] != x {
          var m :| 0 <= m < |tail| && tail[m] == r[k];
          assert tail[m] == s[m + 1];
        }
      }
      SortedCons(s[0], r, le);
    }
  }

  /** What Insert returns holds `x` and the elements of `s`, and nothing
      else. */
  lemma InsertElements<T>(x: T, s: seq<T>, le: (T, T) -> bool)
    ensures forall y :: y in Insert(x, s, le) <==> y == x || y in s
  {
    var r := Insert(x, s, le);
    forall y ensures y in r <==> y == x || y in s {
      assert y in r <==> y in multiset(r);
      assert y in s <==> y in multiset(s);
    }
  }

  /** A sorted sequence stays sorted under a new head that is `le` to all
      of it. */
  lemma SortedCons<T>(a: T, r: seq<T>, le: (T, T) -> bool)
    requires SortedBy(r, le)
    requires forall k :: 0 <= k < |r| ==> le(a, r[k])
    ensures SortedBy([a] + r, le)
  {
    var t := [a] + r;
    forall i, j | 0 <= i < j < |t| ensures le(t[i], t[j]) {
      assert t[j] == r[j - 1];
      if i > 0 {
        assert t[i] == r[i - 1];
      }
    }
  }

  lemma {:induction false} SortBySorted<T(!new)>(s: seq<T>, le: (T, T) -> bool)
    requires TotalPreorder(le)
    ensures SortedBy(SortBy(s, le), le)
  {
    if s != [] {
      SortBySorted(s[1..], le);
      InsertSorted(s[0], SortBy(s[1..], le), le);
    }
  }

  /** The sorted version of `s` as a set: sorting loses and adds nothing. */
  lemma SortByElements<T>(s: seq<T>, le: (T, T) -> bool)
    ensures forall x :: x in SortBy(s, le) <==> x in s
  {
    var r := SortBy(s, le);
    forall x ensures x in r <==> x in s {
      assert x in r <==> x in multiset(r);
      assert x in s <==> x in multiset(s);
    }
  }

  /** Dividing a flat index `q * d + r` with `0 <= r < d` recovers `q` and `r`. */
  lemma DivModUnique(x: int, q: int, r: int, d: int)
    requires d > 0 && 0 <= r < d && x == q * d + r
    ensures x / d == q && x % d == r
  {
    var q', r' := x / d, x % d;
    assert x == q' * d + r';
    var k := q - q';
    assert k * d == r' - r by {
      assert q * d - q' * d == (q - q') * d;
    }
    if k >= 1 {
      AtLeastOneMultiple(k, d);
    } else if k <= -1 {
      AtLeastOneMultiple(-k, d);
    }
  }

  lemma AtLeastOneMultiple(k: int, d: int)
    requires k >= 1 && d > 0
    ensures k * d >= d
  {
    assert k * d == (k - 1) * d + d;
    assert (k - 1) * d >= 0;
  }

  /** The flat position of element `(i, j)` of a row-major `m`-by-`n` grid
      lies inside the grid. */
  lemma FlatIndexBound(i: int, j: int, m: int, n: int)
    requires 0 <= i < m && 0 <= j < n
    ensures 0 <= i * n + j < m * n
  {
    assert i * n <= (m - 1) * n;
    assert (m - 1) * n == m * n - n;
  }

  /** Cancelling a positive factor from a strict inequality. */
  lemma MulCancelLess(q: int, x: int, l: int)
    requires l > 0 && q * l < x * l
    ensures q < x
  {
    assert (x - q) * l == x * l - q * l;
  }

  lemma DivLess(k: int, x: int, l: int)
    requires l > 0 && 0 <= k < x * l
    ensures 0 <= k / l < x
  {
    MulCancelLess(k / l, x, l);
  }

  lemma ZeroFactor(a: nat, b: nat, c: nat, d: nat)
    requires b == 0 || c == 0 || d == 0
    ensures a * b * c * d == 0
  {
  }

  /** A product of naturals is positive only if every factor is. */
  lemma PositiveFactors(a: nat, b: nat, c: nat, d: nat)
    requires a * b * c * d > 0
    ensures a > 0 && b > 0 && c > 0 && d > 0
  {
  }

  /** The counters of four nested loops over ranges of some length by `p`,
      `c` and `l` recovered from the number of iterations `k` already done. */
  function Unflatten4(k: nat, p: nat, c: nat, l: nat): (r: (nat, nat, nat, nat))
    requires p > 0 && c > 0 && l > 0
    ensures r.1 < p && r.2 < c && r.3 < l
  {
    var k1 := k / l;
    DivModRange(k, l);
    var k2 := k1 / c;
    DivModRange(k1, c);
    DivModRange(k2, p);
    (k2 / p, k2 % p, k1 % c, k % l)
  }

  lemma DivModRange(a: nat, m: nat)
    requires m > 0
    ensures a / m >= 0 && 0 <= a % m < m
  {
  }

  lemma Unflatten4Of(a: nat, b: nat, c: nat, e: nat, p: nat, cn: nat, l: nat)
    requires b < p && c < cn && e < l
    ensures Unflatten4(((a * p + b) * cn + c) * l + e, p, cn, l) == (a, b, c, e)
  {
    var k := ((a * p + b) * cn + c) * l + e;
    DivModUnique(k, (a * p + b) * cn + c, e, l);
    DivModUnique((a * p + b) * cn + c, a * p + b, c, cn);
    DivModUnique(a * p + b, a, b, p);
  }

  /** The counters recovered from `k` give `k` back: unflattening is
      injective. */
  lemma Unflatten4Flat(k: nat, p: nat, c: nat, l: nat)
    requires p > 0 && c > 0 && l > 0
    ensures var r := Unflatten4(k, p, c, l); k == ((r.0 * p + r.1) * c + r.2) * l + r.3
  {
    var k1 := k / l;
    var k2 := k1 / c;
    assert k == k1 * l + k % l;
    assert k1 == k2 * c + k1 % c;
    assert k2 == (k2 / p) * p + k2 % p;
  }

  /** Unflattening is injective. */
  lemma Unflatten4Injective(j: nat, k: nat, p: nat, c: nat, l: nat)
    requires p > 0 && c > 0 && l > 0
    requires Unflatten4(j, p, c, l) == Unflatten4(k, p, c, l)
    ensures j == k
  {
    Unflatten4Flat(j, p, c, l);
    Unflatten4Flat(k, p, c, l);
  }

  /** `k` is below `d * p * c * l` exactly when its outermost counter is
      below `d`. */
  lemma Unflatten4Range(k: nat, d: nat, p: nat, c: nat, l: nat)
    requires p > 0 && c > 0 && l > 0
    ensures (Unflatten4(k, p, c, l).0 < d) <==> (k < d * p * c * l)
  {
    var t := Unflatten4(k, p, c, l);
    if t.0 < d {
      Unflatten4Flat(k, p, c, l);
      Flat4Bound(t.0, t.1, t.2, t.3, d, p, c, l);
    }
    if k < d * p * c * l {
      Unflatten4Bound(k, d, p, c, l);
    }
  }

  lemma Unflatten4Bound(k: nat, d: nat, p: nat, c: nat, l: nat)
    requires p > 0 && c > 0 && l > 0 && k < d * p * c * l
    ensures Unflatten4(k, p, c, l).0 < d
  {
    DivLess(k, d * p * c, l);
    DivLess(k / l, d * p, c);
    DivLess(k / l / c, d, p);
  }

  lemma Flat4Bound(a: nat, b: nat, c: nat, e: nat, d: nat, p: nat, cn: nat, l: nat)
    requires a < d && b < p && c < cn && e < l
    ensures ((a * p + b) * cn + c) * l + e < d * p * cn * l
  {
    FlatIndexBound(a, b, d, p);
    FlatIndexBound(a * p + b, c, d * p, cn);
    FlatIndexBound((a * p + b) * cn + c, e, d * p * cn, l);
  }

  lemma MulSucc(x: int, m: int)
    ensures (x + 1) * m == x * m + m
  {
  }

  /** The row-major index with its strides multiplied out. */
  lemma Flat4Expand(a: nat, b: nat, c: nat, e: nat, p: nat, cn: nat, l: nat)
    ensures ((a * p + b) * cn + c) * l + e == a * (p * cn * l) + b * (cn * l) + c * l + e
  {
    assert ((a * p + b) * cn + c) * l == (a * p + b) * cn * l + c * l;
    assert (a * p + b) * cn * l == a * p * cn * l + b * cn * l;
    assert a * p * cn * l == a * (p * cn * l);
    assert b * cn * l == b * (cn * l);
  }

  /** The stride form `k` of a row-major index is in range and unflattens
      to its coordinates. */
  lemma Flat4Index(a: nat, b: nat, c: nat, e: nat, d: nat, p: nat, cn: nat, l: nat, k: nat)
    requires a < d && b < p && c < cn && e < l
    requires k == a * (p * cn * l) + b * (cn * l) + c * l + e
    ensures k < d * p * cn * l
    ensures Unflatten4(k, p, cn, l) == (a, b, c, e)
  {
    Flat4Expand(a, b, c, e, p, cn, l);
    Flat4Bound(a, b, c, e, d, p, cn, l);
    Unflatten4Of(a, b, c, e, p, cn, l);
  }

  /** `s` is strictly increasing from position `i` on; stated recursively so
      that it can be checked on a literal list. */
  predicate IncreasingFrom(s: seq<int>, i: nat)
    decreases |s| - i
  {
    i + 1 >= |s| || (s[i] < s[i + 1] && IncreasingFrom(s, i + 1))
  }

  lemma {:induction false} IncreasingNoDuplicates(s: seq<int>, i: nat)
    requires IncreasingFrom(s, i)
    ensures forall j, k :: i <= j < k < |s| ==> s[j] < s[k]
    ensures i == 0 ==> NoDuplicates(s)
    decreases |s| - i
  {
    if i + 1 < |s| {
      IncreasingNoDuplicates(s, i + 1);
    }
  }

  /** The keys of a Go map in the order a `for k := range m` loop visits
      them: every key exactly once, in an order the language leaves open. */
  method MapKeys<K>(keys: set<K>) returns (r: seq<K>)
    ensures NoDuplicates(r)
    ensures forall x :: x in r <==> x in keys
    ensures |r| == |keys|
  {
    r := [];
    var rest := keys;
    while rest != {}
      invariant NoDuplicates(r)
      invariant forall x :: x in r <==> x in keys && x !in rest
      invariant rest <= keys
      invariant |r| + |rest| == |keys|
      decreases |rest|
    {
      var x :| x in rest;
      r := r + [x];
      rest := rest - {x};
    }
  }
}
