/** table.sort (ltablib.c): quicksort in place, for any strict weak order. */
module Sort {

  /** What the manual asks of an order function. */
  ghost predicate StrictWeakOrder<T(!new)>(lt: (T, T) -> bool) {
    && (forall x, y :: lt(x, y) ==> !lt(y, x))
    && (forall x, y, z :: !lt(x, y) && !lt(y, z) ==> !lt(x, z))
  }

  /** From s to t the elements of [lo, hi) were permuted. */
  ghost predicate Permuted<T(!new)>(s: seq<T>, t: seq<T>, lo: int, hi: int) {
    && 0 <= lo <= hi <= |s| == |t| && s[..lo] == t[..lo] && s[hi..] == t[hi..]
    && multiset(s[lo..hi]) == multiset(t[lo..hi])
  }

  /** All pairs of [lo0, hi0) are in order, but those within [lo, hi). */
  ghost predicate Ordered<T(!new)>(lt: (T, T) -> bool, s: seq<T>, lo0: int, hi0: int, lo: int, hi: int) {
    0 <= lo0 && hi0 <= |s|
    && forall x, y :: lo0 <= x < y < hi0 && !(lo <= x && y < hi) ==> !lt(s[y], s[x])
  }

  ghost predicate Sorted<T(!new)>(lt: (T, T) -> bool, s: seq<T>, lo: int, hi: int) {
    Ordered(lt, s, lo, hi, 0, 0)
  }

  function Swapped<T>(s: seq<T>, i: nat, j: nat): seq<T>
    requires i < |s| && j < |s|
  {
    s[i := s[j]][j := s[i]]
  }

  // ----- permutations -----

  lemma PermutedWiden<T(!new)>(s: seq<T>, t: seq<T>, lo: int, hi: int, lo0: int, hi0: int)
    requires Permuted(s, t, lo, hi) && 0 <= lo0 <= lo && hi <= hi0 <= |s|
    ensures Permuted(s, t, lo0, hi0)
  {
    Slices(s, lo0, lo, hi, hi0);
    Slices(t, lo0, lo, hi, hi0);
  }

  /** The parts of a sequence in terms of its parts up to lo, and from hi on. */
  lemma Slices<T>(s: seq<T>, lo0: int, lo: int, hi: int, hi0: int)
    requires 0 <= lo0 <= lo <= hi <= hi0 <= |s|
    ensures s[..lo0] == s[..lo][..lo0]
    ensures s[hi0..] == s[hi..][hi0-hi..]
    ensures s[lo0..hi0] == s[..lo][lo0..] + s[lo..hi] + s[hi..][..hi0-hi]
  {
    assert s[..lo0] == s[..lo][..lo0];
    assert s[hi0..] == s[hi..][hi0-hi..];
    assert s[lo0..lo] == s[..lo][lo0..];
    assert s[hi..hi0] == s[hi..][..hi0-hi];
    assert s[lo0..hi0] == s[lo0..lo] + s[lo..hi] + s[hi..hi0];
  }

  lemma SwapMultiset<T(!new)>(s: seq<T>, i: nat, j: nat)
    requires i < |s| && j < |s|
    ensures multiset(Swapped(s, i, j)) == multiset(s)
  {
  }

  lemma SwapPermutes<T(!new)>(s: seq<T>, i: nat, j: nat, lo: int, hi: int)
    requires 0 <= lo <= i < hi <= |s| && lo <= j < hi
    ensures Permuted(s, Swapped(s, i, j), lo, hi)
  {
    var t := Swapped(s, i, j);
    assert t[..lo] == s[..lo] && t[hi..] == s[hi..];
    SwapMultiset(s[lo..hi], i - lo, j - lo);
    assert t[lo..hi] == Swapped(s[lo..hi], i - lo, j - lo);
  }

  /** What holds of all elements of the range holds of them after the permutation. */
  lemma PermutedElement<T(!new)>(s: seq<T>, t: seq<T>, lo: int, hi: int, k: int) returns (x: int)
    requires Permuted(s, t, lo, hi) && lo <= k < hi
    ensures lo <= x < hi && s[x] == t[k]
  {
    assert t[lo..hi][k-lo] == t[k];
    assert t[k] in multiset(t[lo..hi]);
    assert t[k] in s[lo..hi];
    var y :| 0 <= y < |s[lo..hi]| && s[lo..hi][y] == t[k];
    x := lo + y;
  }

  lemma PermutedOutside<T(!new)>(s: seq<T>, t: seq<T>, lo: int, hi: int)
    requires Permuted(s, t, lo, hi)
    ensures forall k :: 0 <= k < |s| && !(lo <= k < hi) ==> t[k] == s[k]
  {
    forall k | 0 <= k < |s| && !(lo <= k < hi) ensures t[k] == s[k] {
      if k < lo { assert s[k] == s[..lo][k] && t[k] == t[..lo][k]; }
      else { assert s[k] == s[hi..][k-hi] && t[k] == t[hi..][k-hi]; }
    }
  }

  /** Elements outside the range stay in order with those in it. */
  lemma PermutedOrder<T(!new)>(lt: (T, T) -> bool, s: seq<T>, t: seq<T>, lo0: int, hi0: int, lo: int, hi: int)
    requires Ordered(lt, s, lo0, hi0, lo, hi) && Permuted(s, t, lo, hi) && lo0 <= lo && hi <= hi0
    ensures Ordered(lt, t, lo0, hi0, lo, hi)
  {
    PermutedOutside(s, t, lo, hi);
    forall x, y | lo0 <= x < y < hi0 && !(lo <= x && y < hi)
      ensures !lt(t[y], t[x])
    {
      var a, b := x, y;
      if lo <= x < hi { a := PermutedElement(s, t, lo, hi, x); }
      if lo <= y < hi { b := PermutedElement(s, t, lo, hi, y); }
      assert !lt(s[b], s[a]);
    }
  }

  lemma PermutedTrans<T(!new)>(s: seq<T>, t: seq<T>, u: seq<T>, lo: int, hi: int)
    requires Permuted(s, t, lo, hi) && Permuted(t, u, lo, hi)
    ensures Permuted(s, u, lo, hi)
  {
  }

  // ----- partition -----

  /** s[lo..p) <= s[p] <= s(p..hi) */
  ghost predicate Split<T(!new)>(lt: (T, T) -> bool, s: seq<T>, lo: int, hi: int, p: int) {
    && 0 <= lo <= p < hi <= |s|
    && (forall k :: lo <= k < p ==> !lt(s[p], s[k])) && forall k :: p < k < hi ==> !lt(s[k], s[p])
  }

  /** Only pairs within one of the halves may be out of order. */
  lemma SplitOrdered<T(!new)>(lt: (T, T) -> bool, s: seq<T>, lo0: int, hi0: int, lo: int, hi: int, p: int)
    requires StrictWeakOrder(lt) && Ordered(lt, s, lo0, hi0, lo, hi) && Split(lt, s, lo, hi, p) && lo0 <= lo
    requires hi <= hi0
    ensures forall x, y :: lo0 <= x < y < hi0 && !(lo <= x && y < p) && !(p < x && y < hi) ==> !lt(s[y], s[x])
  {
    forall x, y | lo0 <= x < y < hi0 && !(lo <= x && y < p) && !(p < x && y < hi)
      ensures !lt(s[y], s[x])
    {
      if lo <= x && y < hi && x != p && y != p {
        assert !lt(s[y], s[p]) && !lt(s[p], s[x]);
      }
    }
  }

  /** One half was sorted, the other one is left. */
  lemma HalfSorted<T(!new)>(lt: (T, T) -> bool, s: seq<T>, t: seq<T>, lo0: int, hi0: int, lo: int, hi: int, p: int,
                     left: bool)
    requires StrictWeakOrder(lt) && Ordered(lt, s, lo0, hi0, lo, hi) && Split(lt, s, lo, hi, p) && lo0 <= lo
    requires hi <= hi0
    requires var a, b := if left then lo else p + 1, if left then p else hi; Permuted(s, t, a, b) && Sorted(lt, t, a, b)
    ensures Ordered(lt, t, lo0, hi0, if left then p + 1 else lo, if left then hi else p)
  {
    var a, b := if left then lo else p + 1, if left then p else hi;
    var c, d := if left then p + 1 else lo, if left then hi else p;
    SplitOrdered(lt, s, lo0, hi0, lo, hi, p);
    PermutedOutside(s, t, a, b);
    forall x, y | lo0 <= x < y < hi0 && !(c <= x && y < d)
      ensures !lt(t[y], t[x])
    {
      if !(a <= x && y < b) {
        var e, f := x, y;
        if a <= x < b { e := PermutedElement(s, t, a, b, x); }
        if a <= y < b { f := PermutedElement(s, t, a, b, y); }
        assert !lt(s[f], s[e]);
      }
    }
  }

  // ----- the algorithm -----

  function Power2(n: nat): nat {
    if n == 0 then 1 else 2 * Power2(n - 1)
  }

  /** set2, after two elements were read: positions count from 1. */
  method Set2<T(!new)>(a: array<T>, i: int, j: int, ghost lo: int, ghost hi: int)
    requires 0 <= lo < i <= hi <= a.Length && lo < j <= hi
    modifies a
    ensures a[..] == Swapped(old(a[..]), i - 1, j - 1) && Permuted(old(a[..]), a[..], lo, hi)
    ensures a[i-1] == old(a[j-1]) && a[j-1] == old(a[i-1])
    ensures forall k {:trigger a[k]} :: 0 <= k < a.Length && k != i - 1 && k != j - 1 ==> a[k] == old(a[k])
  {
    hide Permuted;
    SwapPermutes(a[..], i - 1, j - 1, lo, hi);
    a[i-1], a[j-1] := a[j-1], a[i-1];
    assert a[..] == Swapped(old(a[..]), i - 1, j - 1);
  }

  lemma PermutedSame<T(!new)>(s: seq<T>, lo: int, hi: int)
    requires 0 <= lo <= hi <= |s|
    ensures Permuted(s, s, lo, hi)
  {
  }

  lemma Order<T(!new)>(lt: (T, T) -> bool, x: T, y: T)
    requires StrictWeakOrder(lt)
    ensures !lt(x, x) && !(lt(x, y) && lt(y, x))
  {
  }

  lemma OrderTrans<T(!new)>(lt: (T, T) -> bool, x: T, y: T, z: T)
    requires StrictWeakOrder(lt) && !lt(x, y) && !lt(y, z)
    ensures !lt(x, z)
  {
  }

  /** The first and the last element, and the one in the middle, in order. */
  method MedianOfThree<T(!new)>(a: array<T>, lt: (T, T) -> bool, l: int, u: int)
    requires StrictWeakOrder(lt) && 1 <= l < u <= a.Length
    modifies a
    ensures Permuted(old(a[..]), a[..], l - 1, u)
    ensures !lt(a[u-1], a[l-1])
    ensures u - l > 1 ==> var i := (l + u) / 2; !lt(a[i-1], a[l-1]) && !lt(a[u-1], a[i-1])
  {
    hide Permuted, StrictWeakOrder, Swapped;
    ghost var s0 := a[..];
    PermutedSame(s0, l - 1, u);
    Order(lt, a[u-1], a[l-1]);
    if lt(a[u-1], a[l-1]) {
      Set2(a, l, u, l - 1, u);
    }
    if u - l == 1 { return; }
    ghost var s1 := a[..];
    OrderMiddle(a, lt, l, u, (l + u) / 2);
    PermutedTrans(s0, s1, a[..], l - 1, u);
  }

  method OrderMiddle<T(!new)>(a: array<T>, lt: (T, T) -> bool, l: int, u: int, i: int)
    requires StrictWeakOrder(lt) && 1 <= l < i < u <= a.Length && !lt(a[u-1], a[l-1])
    modifies a
    ensures Permuted(old(a[..]), a[..], l - 1, u)
    ensures !lt(a[u-1], a[l-1]) && !lt(a[i-1], a[l-1]) && !lt(a[u-1], a[i-1])
  {
    hide Permuted, StrictWeakOrder, Swapped;
    PermutedSame(a[..], l - 1, u);
    Order(lt, a[i-1], a[l-1]);
    Order(lt, a[u-1], a[i-1]);
    if lt(a[i-1], a[l-1]) {
      OrderTrans(lt, a[u-1], a[l-1], a[i-1]);
      Set2(a, i, l, l - 1, u);
    } else if lt(a[u-1], a[i-1]) {
      Set2(a, i, u, l - 1, u);
    }
  }

  /** The next element that is not less than the pivot: there is one at `stop` at the latest, so the check for an
      invalid order function does not fail. */
  method ScanUp<T(!new)>(a: array<T>, lt: (T, T) -> bool, pivot: T, i0: int, ghost stop: int) returns (i: int)
    requires 0 <= i0 < stop <= a.Length && !lt(a[stop-1], pivot)
    ensures i0 < i <= stop && !lt(a[i-1], pivot) && forall k :: i0 <= k < i - 1 ==> lt(a[k], pivot)
  {
    i := i0 + 1;
    while lt(a[i-1], pivot)
      invariant i0 < i <= stop && forall k :: i0 <= k < i - 1 ==> lt(a[k], pivot)
      decreases stop - i
    {
      i := i + 1;
    }
  }

  /** The previous element that is not greater than the pivot. */
  method ScanDown<T(!new)>(a: array<T>, lt: (T, T) -> bool, pivot: T, j0: int, ghost stop: int) returns (j: int)
    requires 1 <= stop < j0 <= a.Length + 1 && !lt(pivot, a[stop-1])
    ensures stop <= j < j0 && !lt(pivot, a[j-1]) && forall k :: j <= k < j0 - 1 ==> lt(pivot, a[k])
  {
    j := j0 - 1;
    while lt(pivot, a[j-1])
      invariant stop <= j < j0 && forall k :: j <= k < j0 - 1 ==> lt(pivot, a[k])
      decreases j
    {
      j := j - 1;
    }
  }

  lemma LessIsNotMore<T(!new)>(lt: (T, T) -> bool, s: seq<T>, pivot: T, i0: int, i: int, j: int, j0: int)
    requires StrictWeakOrder(lt) && 0 <= i0 && i <= |s| + 1 && 0 <= j && j0 <= |s| + 1
    requires forall k :: i0 <= k < i - 1 ==> lt(s[k], pivot)
    requires forall k :: j <= k < j0 - 1 ==> lt(pivot, s[k])
    ensures forall k :: i0 <= k < i - 1 ==> !lt(pivot, s[k])
    ensures forall k :: j <= k < j0 - 1 ==> !lt(s[k], pivot)
  {
  }

  /** No element up to i is greater than the pivot, and none from j on is less. */
  ghost predicate Between<T(!new)>(lt: (T, T) -> bool, s: seq<T>, pivot: T, l: int, i: int, j: int, u: int) {
    && 1 <= l <= i <= |s| && 1 <= j <= u <= |s|
    && (forall k :: l - 1 <= k < i ==> !lt(pivot, s[k]))
    && forall k :: j - 1 <= k < u ==> !lt(s[k], pivot)
  }

  /** One round of the partition: the elements up to the new i, and from the new j on, are on the right sides, but
      for those at i and j themselves. */
  method Scan<T(!new)>(a: array<T>, lt: (T, T) -> bool, pivot: T, ghost l: int, i0: int, j0: int,
                ghost u: int) returns (i: int, j: int)
    requires StrictWeakOrder(lt) && Between(lt, a[..], pivot, l, i0, j0, u)
    requires i0 <= j0 < u && (i0 == j0 ==> l < i0 && j0 < u - 1)
    ensures i0 < i < u && l <= j < j0
    ensures Between(lt, a[..], pivot, l, i - 1, j + 1, u) && !lt(a[i-1], pivot) && !lt(pivot, a[j-1])
  {
    i := ScanUp(a, lt, pivot, i0, if i0 < j0 then j0 else j0 + 1);
    j := ScanDown(a, lt, pivot, j0, if i0 < j0 then i0 else i0 - 1);
    LessIsNotMore(lt, a[..], pivot, i0, i, j, j0);
  }

  /** The partition of a[l..u] by the pivot a[u-1]. */
  method Partition<T(!new)>(a: array<T>, lt: (T, T) -> bool, l: int, u: int) returns (i: int)
    requires StrictWeakOrder(lt) && 1 <= l && l + 2 < u <= a.Length
    requires !lt(a[u-2], a[l-1]) && !lt(a[u-1], a[u-2])
    modifies a
    ensures Permuted(old(a[..]), a[..], l - 1, u)
    ensures l < i < u && Split(lt, a[..], l - 1, u, i - 1)
  {
    hide Permuted, StrictWeakOrder, Swapped, Between, Split;
    ghost var s0 := a[..];
    PermutedSame(s0, l - 1, u);
    var pivot := a[u-2];
    FirstBetween(lt, s0, pivot, l, u);
    var j := u - 1;
    i := l;
    while true
      invariant l <= i <= j < u && (i == j ==> l < i && j < u - 1) && a[u-2] == pivot
      invariant Permuted(s0, a[..], l - 1, u) && Between(lt, a[..], pivot, l, i, j, u)
      decreases j - i
    {
      ghost var s1 := a[..];
      i, j := Scan(a, lt, pivot, l, i, j, u);
      if j < i { break; }
      Set2(a, i, j, l - 1, u);
      MoreBetween(lt, s1, a[..], pivot, l, i, j, u);
      PermutedTrans(s0, s1, a[..], l - 1, u);
    }
    ghost var s2 := a[..];
    Set2(a, u - 1, i, l - 1, u);
    PivotSplits(lt, s2, a[..], pivot, l, i, j, u);
    PermutedTrans(s0, s2, a[..], l - 1, u);
  }

  lemma FirstBetween<T(!new)>(lt: (T, T) -> bool, s: seq<T>, pivot: T, l: int, u: int)
    requires StrictWeakOrder(lt) && 1 <= l && l + 2 < u <= |s|
    requires s[u-2] == pivot && !lt(pivot, s[l-1]) && !lt(s[u-1], pivot)
    ensures Between(lt, s, pivot, l, l, u - 1, u)
  {
    Order(lt, pivot, pivot);
  }

  lemma MoreBetween<T(!new)>(lt: (T, T) -> bool, s: seq<T>, t: seq<T>, pivot: T, l: int, i: int, j: int, u: int)
    requires Between(lt, s, pivot, l, i - 1, j + 1, u) && l < i <= j < u && t == Swapped(s, i - 1, j - 1)
    requires !lt(s[i-1], pivot) && !lt(pivot, s[j-1])
    ensures Between(lt, t, pivot, l, i, j, u)
  {
  }

  lemma PivotSplits<T(!new)>(lt: (T, T) -> bool, s: seq<T>, t: seq<T>, pivot: T, l: int, i: int, j: int, u: int)
    requires StrictWeakOrder(lt) && Between(lt, s, pivot, l, i - 1, j + 1, u) && j < i && l < i < u
    requires s[u-2] == pivot && t == Swapped(s, u - 2, i - 1)
    ensures Split(lt, t, l - 1, u, i - 1)
  {
    Order(lt, pivot, pivot);
  }

  lemma LastPair<T(!new)>(lt: (T, T) -> bool, s: seq<T>, lo0: int, hi0: int, lo: int, hi: int)
    requires Ordered(lt, s, lo0, hi0, lo, hi) && lo0 <= lo <= hi <= hi0
    requires forall x, y :: lo <= x < y < hi ==> !lt(s[y], s[x])
    ensures Sorted(lt, s, lo0, hi0)
  {
  }

  lemma ThreeInOrder<T(!new)>(lt: (T, T) -> bool, s: seq<T>, lo0: int, hi0: int, l: int, u: int)
    requires Ordered(lt, s, lo0, hi0, l - 1, u) && lo0 <= l - 1 && u <= hi0 && l < u <= l + 2
    requires !lt(s[u-1], s[l-1]) && (u == l + 2 ==> !lt(s[l], s[l-1]) && !lt(s[u-1], s[l]))
    ensures Sorted(lt, s, lo0, hi0)
  {
    LastPair(lt, s, lo0, hi0, l - 1, u);
  }

  lemma {:induction false} Power2Mono(m: nat, n: nat)
    requires m <= n
    ensures Power2(m) <= Power2(n)
  {
    if m < n { Power2Mono(m, n - 1); }
  }

  /** The elements from l to u are divided by the one at i. */
  method Divide<T(!new)>(a: array<T>, lt: (T, T) -> bool, l: int, u: int) returns (i: int)
    requires StrictWeakOrder(lt) && 1 <= l && l + 2 < u <= a.Length
    requires !lt(a[u-1], a[l-1]) && var i := (l + u) / 2; !lt(a[i-1], a[l-1]) && !lt(a[u-1], a[i-1])
    modifies a
    ensures Permuted(old(a[..]), a[..], l - 1, u)
    ensures l < i < u && Split(lt, a[..], l - 1, u, i - 1)
  {
    hide StrictWeakOrder, Permuted, Split, Swapped;
    ghost var s0 := a[..];
    i := (l + u) / 2;
    Set2(a, i, u - 1, l - 1, u);
    ghost var s1 := a[..];
    i := Partition(a, lt, l, u);
    PermutedTrans(s0, s1, a[..], l - 1, u);
  }

  /** The start of a round of auxsort: up to 3 elements are sorted, more are divided. */
  method Reduce<T(!new)>(a: array<T>, lt: (T, T) -> bool, l: int, u: int, ghost s0: seq<T>, ghost lo0: int,
                  ghost hi0: int)
    returns (done: bool, i: int)
    requires StrictWeakOrder(lt) && 1 <= l < u <= a.Length && lo0 <= l - 1 && u <= hi0
    requires Permuted(s0, a[..], lo0, hi0) && Ordered(lt, a[..], lo0, hi0, l - 1, u)
    modifies a
    ensures Permuted(s0, a[..], lo0, hi0)
    ensures done ==> Sorted(lt, a[..], lo0, hi0)
    ensures !done ==>
              l + 2 < u && l < i < u && Split(lt, a[..], l - 1, u, i - 1) && Ordered(lt, a[..], lo0, hi0, l - 1, u)
  {
    hide StrictWeakOrder, Permuted, Ordered, Sorted, Split, Swapped;
    ghost var s1 := a[..];
    MedianOfThree(a, lt, l, u);
    ghost var s2 := a[..];
    PermutedMore(lt, s0, s1, s2, lo0, hi0, l - 1, u);
    if u - l == 1 || u - l == 2 {
      ThreeInOrder(lt, s2, lo0, hi0, l, u);
      return true, l;
    }
    i := Divide(a, lt, l, u);
    PermutedMore(lt, s0, s2, a[..], lo0, hi0, l - 1, u);
    done := false;
  }

  /** auxsort: a sorted permutation of a[l..u].  The number of calls that are active below this one, `depth`, is at most
      the logarithm of the number of elements. */
  method AuxSort<T(!new)>(a: array<T>, lt: (T, T) -> bool, l0: int, u0: int) returns (ghost depth: nat)
    requires StrictWeakOrder(lt) && 1 <= l0 <= u0 + 1 <= a.Length + 1
    modifies a
    ensures Permuted(old(a[..]), a[..], l0 - 1, u0) && Sorted(lt, a[..], l0 - 1, u0)
    ensures depth == 0 || Power2(depth) <= u0 - l0 + 1
    decreases u0 - l0 + 1
  {
    hide StrictWeakOrder, Permuted, Ordered, Sorted, Split, Swapped, Power2;
    var l, u := l0, u0;
    depth := 0;
    ghost var s0 := a[..];
    PermutedSame(s0, l0 - 1, u0);
    WholeUnordered(lt, s0, l0 - 1, u0);
    while l < u  // only the smaller half needs a recursive call
      invariant l0 <= l <= u + 1 <= u0 + 1
      invariant Permuted(s0, a[..], l0 - 1, u0) && Ordered(lt, a[..], l0 - 1, u0, l - 1, u)
      invariant depth == 0 || Power2(depth) <= u0 - l0 + 1
      decreases u - l
    {
      var done, i := Reduce(a, lt, l, u, s0, l0 - 1, u0);
      if done { return; }
      ghost var s3, lo, hi, p, left := a[..], l - 1, u, i - 1, i - l < u - i;
      var j;
      if i - l < u - i {
        j := l;
        i := i - 1;
        l := i + 2;
      } else {
        j := i + 1;
        i := u;
        u := j - 2;
      }
      ghost var d := AuxSort(a, lt, j, i);
      AfterHalf(lt, s0, s3, a[..], l0 - 1, u0, lo, hi, p, left);
      DepthGrows(d, i - j + 1, u0 - l0 + 1);
      depth := if d + 1 > depth then d + 1 else depth;
    }
    RestSorted(lt, a[..], l0 - 1, u0, l - 1, u);
  }

  lemma RestSorted<T(!new)>(lt: (T, T) -> bool, s: seq<T>, lo0: int, hi0: int, lo: int, hi: int)
    requires Ordered(lt, s, lo0, hi0, lo, hi) && lo0 <= lo <= hi <= hi0 && hi <= lo + 1
    ensures Sorted(lt, s, lo0, hi0)
  {
  }

  lemma AfterHalf<T(!new)>(lt: (T, T) -> bool, s0: seq<T>, s: seq<T>, t: seq<T>, lo0: int, hi0: int, lo: int, hi: int,
                    p: int, left: bool)
    requires StrictWeakOrder(lt) && Permuted(s0, s, lo0, hi0) && Ordered(lt, s, lo0, hi0, lo, hi)
    requires Split(lt, s, lo, hi, p)
    requires lo0 <= lo && hi <= hi0
    requires var a, b := if left then lo else p + 1, if left then p else hi; Permuted(s, t, a, b) && Sorted(lt, t, a, b)
    ensures Permuted(s0, t, lo0, hi0) && Ordered(lt, t, lo0, hi0, if left then p + 1 else lo, if left then hi else p)
  {
    hide StrictWeakOrder, Ordered;
    HalfSorted(lt, s, t, lo0, hi0, lo, hi, p, left);
    PermutedWiden(s, t, if left then lo else p + 1, if left then p else hi, lo0, hi0);
    PermutedTrans(s0, s, t, lo0, hi0);
  }

  lemma DepthGrows(d: nat, small: int, size: int)
    requires (d == 0 || Power2(d) <= small) && 2 * small < size && size >= 4
    ensures Power2(d + 1) <= size
  {
  }

  lemma WholeUnordered<T(!new)>(lt: (T, T) -> bool, s: seq<T>, lo: int, hi: int)
    requires 0 <= lo && hi <= |s|
    ensures Ordered(lt, s, lo, hi, lo, hi)
  {
  }

  lemma PermutedMore<T(!new)>(lt: (T, T) -> bool, s0: seq<T>, s: seq<T>, t: seq<T>, lo0: int, hi0: int, lo: int,
                       hi: int)
    requires Permuted(s0, s, lo0, hi0) && Permuted(s, t, lo, hi) && Ordered(lt, s, lo0, hi0, lo, hi) && lo0 <= lo
    requires hi <= hi0
    ensures Permuted(s0, t, lo0, hi0) && Ordered(lt, t, lo0, hi0, lo, hi)
  {
    PermutedOrder(lt, s, t, lo0, hi0, lo, hi);
    PermutedWiden(s, t, lo, hi, lo0, hi0);
    PermutedTrans(s0, s, t, lo0, hi0);
  }

  /** sort: the whole array; with fewer than 2^40 elements at most 40 calls are active at a time. */
  method SortTable<T(!new)>(a: array<T>, lt: (T, T) -> bool) returns (ghost depth: nat)
    requires StrictWeakOrder(lt)
    modifies a
    ensures multiset(a[..]) == old(multiset(a[..])) && forall x, y :: 0 <= x < y < a.Length ==> !lt(a[y], a[x])
    ensures a.Length < Power2(40) ==> depth < 40
  {
    ghost var s0 := a[..];
    depth := AuxSort(a, lt, 1, a.Length);
    assert s0[0..a.Length] == s0 && a[..][0..a.Length] == a[..];
    if depth >= 40 { Power2Mono(40, depth); }
  }
}
