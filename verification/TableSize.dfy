/** Counting keys, and the size of the array part (ltable.c). */
module TableSize {
  import opened TableSpec

  const MAXBITS: nat := 26
  const MAXASIZE: int := 67108864  // 2^MAXBITS

  function Pow2(n: nat): (p: nat)
    ensures p > 0
  {
    if n == 0 then 1 else 2 * Pow2(n - 1)
  }

  lemma {:induction false} Pow2Grows(m: nat, n: nat)
    requires m <= n
    ensures Pow2(m) <= Pow2(n)
    decreases n - m
  {
    if m < n { Pow2Grows(m, n - 1); }
  }

  lemma MaxArraySize()
    ensures Pow2(MAXBITS) == MAXASIZE
  {
    assert Pow2(13) == 8192;
    Pow2Sum(13, 13);
  }

  lemma {:induction false} Pow2Sum(m: nat, n: nat)
    ensures Pow2(m + n) == Pow2(m) * Pow2(n)
  {
    if n > 0 { Pow2Sum(m, n - 1); }
  }

  /** ceillog2: the smallest l with x <= 2^l. */
  function CeilLog2(x: nat): (l: nat)
    requires x > 0
    ensures x <= Pow2(l) && (l > 0 ==> Pow2(l - 1) < x)
  {
    if x == 1 then 0 else
      var l := CeilLog2((x + 1) / 2);
      l + 1
  }

  /** Is `key` kept in an array part of this size? */
  predicate InArray(key: Key, size: int) {
    key.Number? && 1 <= key.n <= size
  }

  // ----- the numbers of entries -----

  /** The entries of an array part. */
  function CountValues(s: seq<Value>): (n: nat)
    ensures n <= |s|
  {
    if s == [] then 0 else CountValues(s[..|s|-1]) + if s[|s|-1] == Nil then 0 else 1
  }

  /** The nodes with a key. */
  function CountKeys(nodes: seq<Node>): (n: nat)
    ensures n <= |nodes|
  {
    if nodes == [] then 0 else CountKeys(nodes[..|nodes|-1]) + if nodes[|nodes|-1].key == NilKey then 0 else 1
  }

  predicate IsEntry(x: Node) {
    x.key != NilKey && x.val != Nil
  }

  /** The entries of a hash part whose keys belong into an array part of this size. */
  function CountBelow(nodes: seq<Node>, size: int): (n: nat)
    ensures n <= |nodes|
  {
    if nodes == [] then 0
    else CountBelow(nodes[..|nodes|-1], size)
         + var x := nodes[|nodes|-1]; if IsEntry(x) && InArray(x.key, size) then 1 else 0
  }

  /** The other entries. */
  function CountAbove(nodes: seq<Node>, size: int): (n: nat)
    ensures n <= |nodes|
  {
    if nodes == [] then 0
    else CountAbove(nodes[..|nodes|-1], size)
         + var x := nodes[|nodes|-1]; if IsEntry(x) && !InArray(x.key, size) then 1 else 0
  }

  lemma {:induction false} CountKeysUpdate(nodes: seq<Node>, i: nat, x: Node)
    requires i < |nodes|
    ensures CountKeys(nodes[i := x])
         == CountKeys(nodes) - (if nodes[i].key == NilKey then 0 else 1) + (if x.key == NilKey then 0 else 1)
  {
    var l := |nodes| - 1;
    if i < l {
      CountKeysUpdate(nodes[..l], i, x);
      assert nodes[i := x][..l] == nodes[..l][i := x];
    } else {
      assert nodes[i := x][..l] == nodes[..l];
    }
  }

  lemma {:induction false} SameKeysCount(nodes: seq<Node>, nodes': seq<Node>)
    requires |nodes'| == |nodes| && forall i :: 0 <= i < |nodes| ==> nodes'[i].key == nodes[i].key
    ensures CountKeys(nodes') == CountKeys(nodes)
  {
    if nodes != [] { SameKeysCount(nodes[..|nodes|-1], nodes'[..|nodes|-1]); }
  }

  lemma {:induction false} FreeNodeExists(nodes: seq<Node>)
    requires CountKeys(nodes) < |nodes|
    ensures exists i :: 0 <= i < |nodes| && nodes[i].key == NilKey
  {
    var l := |nodes| - 1;
    if nodes[l].key != NilKey {
      FreeNodeExists(nodes[..l]);
      var i :| 0 <= i < l && nodes[..l][i].key == NilKey;
      assert nodes[i].key == NilKey;
    }
  }

  lemma {:induction false} NoKeys(nodes: seq<Node>)
    requires forall i :: 0 <= i < |nodes| ==> nodes[i].key == NilKey
    ensures CountKeys(nodes) == 0
  {
    if nodes != [] { NoKeys(nodes[..|nodes|-1]); }
  }

  /** The entries that do not fit into an array part of size n need nodes. */
  function HashNeed(s: seq<Value>, nodes: seq<Node>, n: nat): int {
    CountValues(s) - CountValues(s[..Min(n, |s|)]) + CountAbove(nodes, n)
  }

  function Min(a: int, b: int): int {
    if a < b then a else b
  }

  lemma {:induction false} CountValuesPrefix(s: seq<Value>, i: nat)
    requires i <= |s|
    ensures CountValues(s[..i]) <= CountValues(s)
    decreases |s| - i
  {
    if i < |s| {
      CountValuesPrefix(s, i + 1);
      CountValuesStep(s, i);
    } else {
      assert s[..i] == s;
    }
  }

  lemma CountValuesStep(s: seq<Value>, i: nat)
    requires i < |s|
    ensures CountValues(s[..i+1]) == CountValues(s[..i]) + if s[i] == Nil then 0 else 1
  {
    assert s[..i+1][..i] == s[..i];
  }

  lemma CountAboveStep(nodes: seq<Node>, i: nat, size: int)
    requires i < |nodes|
    ensures CountAbove(nodes[..i+1], size)
         == CountAbove(nodes[..i], size) + if IsEntry(nodes[i]) && !InArray(nodes[i].key, size) then 1 else 0
  {
    assert nodes[..i+1][..i] == nodes[..i];
  }

  /** From nodes to nodes': `key` was put into node i, and node n is no longer free. */
  ghost predicate KeyAdded(nodes: seq<Node>, nodes': seq<Node>, key: Key, i: int, n: int) {
    && |nodes'| == |nodes| && CountKeys(nodes') <= CountKeys(nodes) + 1
    && 0 <= i < |nodes'| && nodes'[i].key == key && 0 <= n < |nodes'| && nodes'[n].key != NilKey
    && (forall j {:trigger nodes[j]} {:trigger nodes'[j]} ::
          0 <= j < |nodes| && nodes[j].key != NilKey ==> nodes'[j].key != NilKey)
    && (forall j {:trigger nodes'[j]} :: 0 <= j < |nodes'| && nodes'[j].key != NilKey ==>
          nodes'[j].key == key || HasKey(nodes, nodes'[j].key))
  }

  lemma OverwriteAdds(nodes: seq<Node>, p: nat, key: Key)
    requires p < |nodes| && key != NilKey
    ensures KeyAdded(nodes, nodes[p := Node(key, Nil, nodes[p].next)], key, p, p)
  {
    CountKeysUpdate(nodes, p, Node(key, Nil, nodes[p].next));
  }

  lemma InsertAdds(nodes: seq<Node>, p: nat, n: nat, key: Key)
    requires p < |nodes| && key != NilKey && nodes[p].key != NilKey && n < |nodes| && nodes[n].key == NilKey
    ensures KeyAdded(nodes, nodes[n := Node(key, Nil, nodes[p].next)][p := nodes[p].(next := n)], key, n, n)
  {
    var mid := nodes[n := Node(key, Nil, nodes[p].next)];
    CountKeysUpdate(nodes, n, Node(key, Nil, nodes[p].next));
    CountKeysUpdate(mid, p, nodes[p].(next := n));
  }

  lemma MoveAdds(nodes: seq<Node>, q: nat, p: nat, n: nat, key: Key)
    requires p < |nodes| && key != NilKey && nodes[p].key != NilKey && n < |nodes| && nodes[n].key == NilKey
    requires q < |nodes| && q != p && q != n
    ensures KeyAdded(nodes, nodes[q := nodes[q].(next := n)][n := nodes[p]][p := Node(key, Nil, NULL)], key, p, n)
  {
    var a := nodes[q := nodes[q].(next := n)];
    var b := a[n := nodes[p]];
    CountKeysUpdate(nodes, q, nodes[q].(next := n));
    CountKeysUpdate(a, n, nodes[p]);
    CountKeysUpdate(b, p, Node(key, Nil, NULL));
  }

  lemma {:induction false} NoKeysCounted(nodes: seq<Node>, i: nat)
    requires CountKeys(nodes) == 0 && i < |nodes|
    ensures nodes[i].key == NilKey
  {
    if i < |nodes| - 1 { NoKeysCounted(nodes[..|nodes|-1], i); }
  }

  // ----- counting by integers -----

  /** The integers from 1 to n that satisfy `used`. */
  ghost function Within(used: int -> bool, n: int): set<int> {
    set k | 1 <= k <= n && used(k)
  }

  lemma {:induction false} WithinAtMost(used: int -> bool, n: nat)
    ensures |Within(used, n)| <= n
  {
    if n > 0 {
      WithinAtMost(used, n - 1);
      WithinStep(used, n);
    } else {
      assert Within(used, 0) == {};
    }
  }

  lemma WithinStep(used: int -> bool, n: nat)
    requires n > 0
    ensures |Within(used, n)| == |Within(used, n - 1)| + if used(n) then 1 else 0
  {
    if used(n) { assert Within(used, n) == Within(used, n - 1) + {n}; }
    else { assert Within(used, n) == Within(used, n - 1); }
  }

  lemma WithinAdd(used: int -> bool, used': int -> bool, x: int, n: nat)
    requires !used(x) && forall k :: used'(k) <==> used(k) || k == x
    ensures |Within(used', n)| == |Within(used, n)| + if 1 <= x <= n then 1 else 0
  {
    if 1 <= x <= n { assert Within(used', n) == Within(used, n) + {x}; }
    else { assert Within(used', n) == Within(used, n); }
  }

  lemma {:induction false} WithinAll(used: int -> bool, n: nat)
    requires forall k :: 1 <= k <= n ==> used(k)
    ensures |Within(used, n)| == n
  {
    if n > 0 {
      WithinAll(used, n - 1);
      WithinStep(used, n);
    } else {
      assert Within(used, 0) == {};
    }
  }

  /** The sum of the counters up to the one for (2^(lg-1), 2^lg]. */
  function Total(nums: seq<int>, lg: int): int
    requires lg < |nums|
    decreases lg
  {
    if lg < 0 then 0 else Total(nums, lg - 1) + nums[lg]
  }

  lemma {:induction false} TotalUpdate(nums: seq<int>, c: nat, x: int, lg: int)
    requires c < |nums| && lg < |nums|
    ensures Total(nums[c := x], lg) == Total(nums, lg) + if c <= lg then x - nums[c] else 0
    decreases lg
  {
    if lg >= 0 { TotalUpdate(nums, c, x, lg - 1); }
  }

  lemma {:induction false} TotalZero(nums: seq<int>, lo: int, lg: int)
    requires -1 <= lo <= lg < |nums| && forall i :: lo < i <= lg ==> nums[i] == 0
    ensures Total(nums, lg) == Total(nums, lo)
    decreases lg
  {
    if lg > lo { TotalZero(nums, lo, lg - 1); }
  }

  lemma {:induction false} TotalMonotone(nums: seq<int>, lo: int, hi: int)
    requires -1 <= lo <= hi < |nums| && forall i :: 0 <= i < |nums| ==> nums[i] >= 0
    ensures Total(nums, lo) <= Total(nums, hi)
    decreases hi
  {
    if lo < hi { TotalMonotone(nums, lo, hi - 1); }
  }

  lemma {:induction false} Pow2Order(i: nat, j: nat)
    ensures i < j ==> Pow2(i) < Pow2(j)
    decreases j
  {
    if i < j { Pow2Order(i, j - 1); }
  }

  /** n is the largest power of two such that more than half of the slots 1..n are in use; `Total(nums, j)` of
      the integers 1..2^j are. */
  ghost predicate Optimal(nums: seq<int>, n: int)
  {
    && (n == 0 || exists j: nat :: j < |nums| && n == Pow2(j) && Total(nums, j) > Pow2(j) / 2)
    && forall j: nat :: j < |nums| && Total(nums, j) > Pow2(j) / 2 ==> Pow2(j) <= n
  }

  /** 2^best is the largest candidate below 2^i; best is -1 if there is none. */
  ghost predicate Best(s: seq<int>, i: nat, best: int)
    requires i <= |s|
  {
    && -1 <= best < i && (best >= 0 ==> Total(s, best) > Pow2(best) / 2)
    && forall j: nat :: j < i && Total(s, j) > Pow2(j) / 2 ==> j <= best
  }

  lemma BestNone(s: seq<int>)
    ensures Best(s, 0, -1)
  {
  }

  lemma BestStep(s: seq<int>, i: nat, best: int)
    requires i < |s| && Best(s, i, best) && s[i] >= 0
    requires forall j: nat :: j < |s| ==> Total(s, j) <= Pow2(j)
    ensures Best(s, i + 1, if s[i] > 0 && Total(s, i - 1) + s[i] > Pow2(i) / 2 then i else best)
  {
    if s[i] == 0 && i > 0 { assert Total(s, i - 1) <= Pow2(i - 1); }
  }

  /** The largest candidate below i, if there is one, is optimal when no integer beyond 2^i / 2 is left to count. */
  lemma LastCandidate(s: seq<int>, narray: int, i: nat, best: int, n: int, na: int)
    requires |s| > 0 && (forall k :: 0 <= k < |s| ==> s[k] >= 0) && narray == Total(s, |s| - 1)
    requires forall j: nat :: j < |s| ==> Total(s, j) <= Pow2(j)
    requires i <= |s| && (Pow2(i) / 2 >= narray || (i > 0 && Total(s, i - 1) == narray))
    requires Best(s, i, best) && (if best < 0 then n == na == 0 else n == Pow2(best) && na == Total(s, best))
    ensures Optimal(s, n) && 0 <= n <= Pow2(|s| - 1) && n / 2 <= na <= n
    ensures forall j: nat :: j < |s| && n == Pow2(j) ==> na == Total(s, j)
  {
    forall j: nat | i <= j < |s|
      ensures Total(s, j) <= Pow2(j) / 2
    {
      TotalMonotone(s, j, |s| - 1);
      Pow2Grows(i, j);
      if i > 0 {
        assert Total(s, i - 1) <= Pow2(i - 1);
        Pow2Grows(i - 1, j - 1);
      }
    }
    forall j: nat | j < |s| && Total(s, j) > Pow2(j) / 2
      ensures Pow2(j) <= n
    {
      assert j < i;
      Pow2Grows(j, best);
    }
    if best >= 0 {
      Pow2Grows(best, |s| - 1);
      forall j: nat | j < |s| && n == Pow2(j)
        ensures na == Total(s, j)
      {
        Pow2Order(j, best);
        Pow2Order(best, j);
      }
    }
  }

  /** computesizes */
  method ComputeSizes(nums: array<int>, narray: int) returns (n: int, na: int)
    requires nums.Length > 0 && forall i :: 0 <= i < nums.Length ==> nums[i] >= 0
    requires narray == Total(nums[..], nums.Length - 1)
    requires forall j: nat :: j < nums.Length ==> Total(nums[..], j) <= Pow2(j)
    ensures Optimal(nums[..], n) && 0 <= n <= Pow2(nums.Length - 1) && n / 2 <= na <= n
    ensures forall j: nat :: j < nums.Length && n == Pow2(j) ==> na == Total(nums[..], j)
  {
    hide Optimal, Best;
    BestNone(nums[..]);
    var i, twotoi: nat, a := 0, 1, 0;
    ghost var s := nums[..];
    n, na := 0, 0;
    ghost var best := -1;
    while twotoi / 2 < narray
      invariant nums[..] == s && 0 <= i < nums.Length && twotoi == Pow2(i) && a == Total(s, i - 1)
      invariant -1 <= best < i && Best(s, i, best)
      invariant if best < 0 then n == na == 0 else n == Pow2(best) && na == Total(s, best)
      decreases nums.Length - i
    {
      assert nums[i] == s[i];
      BestStep(s, i, best);
      if nums[i] > 0 {
        a := a + nums[i];
        if a > twotoi / 2 {
          n, na, best := twotoi, a, i;
        }
      }
      i, twotoi := i + 1, twotoi * 2;
      if a == narray { break; }
    }
    LastCandidate(s, narray, i, best, n, na);
  }

  // ----- moving the entries to a resized table -----

  /** The value of a key in the two parts of a table. */
  ghost function ValueIn(arr: seq<Value>, nodes: seq<Node>, key: Key): Value {
    if InArray(key, |arr|) then arr[key.n-1] else HashValue(nodes, key)
  }

  ghost function KeysIn(arr: seq<Value>, nodes: seq<Node>): set<Key> {
    (set n | 1 <= n <= |arr| :: Number(n)) + (set i | 0 <= i < |nodes| && nodes[i].key != NilKey :: nodes[i].key)
  }

  /** The two parts of a table as a finite map: its entries. */
  ghost function ContentsOf(arr: seq<Value>, nodes: seq<Node>): map<Key, Value> {
    map key | key in KeysIn(arr, nodes) && ValueIn(arr, nodes, key) != Nil :: ValueIn(arr, nodes, key)
  }

  lemma ContentsValue(arr: seq<Value>, nodes: seq<Node>, key: Key)
    ensures key in ContentsOf(arr, nodes) <==> key != NilKey && ValueIn(arr, nodes, key) != Nil
  {
    if key != NilKey && ValueIn(arr, nodes, key) != Nil && !InArray(key, |arr|) {
      var i :| 0 <= i < |nodes| && nodes[i].key == key;
      assert key in KeysIn(arr, nodes);
    }
  }

  lemma ContentsStored(arr: seq<Value>, nodes: seq<Node>, arr': seq<Value>, nodes': seq<Node>, key: Key, v: Value)
    requires key != NilKey && Stored(arr, nodes, arr', nodes', key, v)
    ensures ContentsOf(arr', nodes')
         == if v == Nil then ContentsOf(arr, nodes) - {key} else ContentsOf(arr, nodes)[key := v]
  {
    var m := if v == Nil then ContentsOf(arr, nodes) - {key} else ContentsOf(arr, nodes)[key := v];
    forall k
      ensures k in ContentsOf(arr', nodes') <==> k in m
      ensures k in m ==> ContentsOf(arr', nodes')[k] == m[k]
    {
      ContentsValue(arr, nodes, k);
      ContentsValue(arr', nodes', k);
    }
  }

  /** The values that still have to be moved: those of the array from i on, and of the first m nodes. */
  ghost function PendingValue(arr: seq<Value>, i: nat, nodes: seq<Node>, m: nat, key: Key): Value
    requires m <= |nodes|
  {
    if key.Number? && i < key.n <= |arr| then arr[key.n-1] else HashValue(nodes[..m], key)
  }

  /** Every entry of the old table (arr, nodes) is either pending or in the new one (arr', nodes'). */
  ghost predicate Transferring(arr: seq<Value>, i: nat, nodes: seq<Node>, m: nat, arr': seq<Value>, nodes': seq<Node>)
    requires m <= |nodes|
  {
    forall key {:trigger ValueIn(arr', nodes', key)} :: key != NilKey ==>
      var p := PendingValue(arr, i, nodes, m, key);
      if p == Nil then ValueIn(arr', nodes', key) == ValueIn(arr, nodes, key)
      else ValueIn(arr', nodes', key) == Nil && p == ValueIn(arr, nodes, key)
  }

  /** Only the value of `key` differs: it is v. */
  ghost predicate Stored(arr: seq<Value>, nodes: seq<Node>, arr': seq<Value>, nodes': seq<Node>, key: Key, v: Value) {
    forall k {:trigger ValueIn(arr', nodes', k)} :: k != NilKey ==>
      ValueIn(arr', nodes', k) == if k == key then v else ValueIn(arr, nodes, k)
  }

  lemma PrefixValue(nodes: seq<Node>, m: nat, key: Key)
    requires UniqueKeys(nodes) && m < |nodes| && key != NilKey
    ensures HashValue(nodes[..m+1], key) == if key == nodes[m].key then nodes[m].val else HashValue(nodes[..m], key)
    ensures key == nodes[m].key ==> HashValue(nodes[..m], key) == Nil
  {
    var p, q := nodes[..m+1], nodes[..m];
    if key == nodes[m].key {
      HashValueAt(p, m);
    } else if HasKey(p, key) {
      var j :| 0 <= j < |p| && p[j].key == key;
      HashValueAt(p, j);
      assert q[j] == p[j];
      HashValueAt(q, j);
    } else {
      assert forall j :: 0 <= j < |q| ==> q[j] == p[j];
    }
  }

  lemma TransferStart(arr: seq<Value>, nodes: seq<Node>, arr': seq<Value>, nodes': seq<Node>, i: nat)
    requires UniqueKeys(nodes) && forall j :: 0 <= j < |nodes| ==> !InArray(nodes[j].key, |arr|)
    requires i == Min(|arr|, |arr'|) && arr'[..i] == arr[..i] && forall j :: i <= j < |arr'| ==> arr'[j] == Nil
    requires forall k :: k != NilKey ==> HashValue(nodes', k) == Nil
    ensures Transferring(arr, i, nodes, |nodes|, arr', nodes')
  {
    assert nodes[..|nodes|] == nodes;
    forall key | key != NilKey
      ensures var p := PendingValue(arr, i, nodes, |nodes|, key);
              if p == Nil then ValueIn(arr', nodes', key) == ValueIn(arr, nodes, key)
              else ValueIn(arr', nodes', key) == Nil && p == ValueIn(arr, nodes, key)
    {
      if InArray(key, |arr|) {
        assert !HasKey(nodes, key);
        if key.n <= i { assert arr'[key.n-1] == arr'[..i][key.n-1] == arr[..i][key.n-1]; }
      }
    }
  }

  lemma TransferValue(arr: seq<Value>, i: nat, nodes: seq<Node>, arr': seq<Value>, nodes': seq<Node>,
                      arr2: seq<Value>, nodes2: seq<Node>)
    requires Transferring(arr, i, nodes, |nodes|, arr', nodes') && i < |arr|
    requires forall j :: 0 <= j < |nodes| ==> !InArray(nodes[j].key, |arr|)
    requires if arr[i] == Nil then arr2 == arr' && nodes2 == nodes'
             else Stored(arr', nodes', arr2, nodes2, Number(i + 1), arr[i])
    ensures Transferring(arr, i + 1, nodes, |nodes|, arr2, nodes2)
  {
    assert nodes[..|nodes|] == nodes;
    forall key | key != NilKey
      ensures var p := PendingValue(arr, i + 1, nodes, |nodes|, key);
              if p == Nil then ValueIn(arr2, nodes2, key) == ValueIn(arr, nodes, key)
              else ValueIn(arr2, nodes2, key) == Nil && p == ValueIn(arr, nodes, key)
    {
      assert ValueIn(arr', nodes', key) == Nil || ValueIn(arr', nodes', key) == ValueIn(arr, nodes, key);
      if key == Number(i + 1) { assert !HasKey(nodes, key); }
    }
  }

  lemma TransferNode(arr: seq<Value>, nodes: seq<Node>, m: nat, arr': seq<Value>, nodes': seq<Node>,
                     arr2: seq<Value>, nodes2: seq<Node>)
    requires UniqueKeys(nodes) && m < |nodes| && Transferring(arr, |arr|, nodes, m + 1, arr', nodes')
    requires forall j :: 0 <= j < |nodes| ==> !InArray(nodes[j].key, |arr|)
    requires nodes[m].val == Nil || nodes[m].key != NilKey
    requires if nodes[m].val == Nil then arr2 == arr' && nodes2 == nodes'
             else Stored(arr', nodes', arr2, nodes2, nodes[m].key, nodes[m].val)
    ensures Transferring(arr, |arr|, nodes, m, arr2, nodes2)
  {
    forall key | key != NilKey
      ensures var p := PendingValue(arr, |arr|, nodes, m, key);
              if p == Nil then ValueIn(arr2, nodes2, key) == ValueIn(arr, nodes, key)
              else ValueIn(arr2, nodes2, key) == Nil && p == ValueIn(arr, nodes, key)
    {
      assert ValueIn(arr', nodes', key) == Nil || ValueIn(arr', nodes', key) == ValueIn(arr, nodes, key);
      PrefixValue(nodes, m, key);
      if key == nodes[m].key { HashValueAt(nodes, m); }
    }
  }

  lemma TransferEnd(arr: seq<Value>, nodes: seq<Node>, arr': seq<Value>, nodes': seq<Node>, key: Key)
    requires Transferring(arr, |arr|, nodes, 0, arr', nodes') && key != NilKey
    ensures ValueIn(arr', nodes', key) == ValueIn(arr, nodes, key)
  {
    assert PendingValue(arr, |arr|, nodes, 0, key) == Nil;
  }

  // ----- counting the integer keys of a table -----

  predicate ArrayUsed(arr: seq<Value>, k: int) {
    1 <= k <= |arr| && arr[k-1] != Nil
  }

  /** The integers with an entry in the array part, or in a node from lo up to hi. */
  ghost function UsedIn(arr: seq<Value>, nodes: seq<Node>, lo: nat, hi: nat): int -> bool {
    k => ArrayUsed(arr, k) || exists j :: lo <= j < hi && j < |nodes| && IsEntry(nodes[j]) && nodes[j].key == Number(k)
  }

  /** The integers with an entry in the table, and the key that is to be added. */
  ghost function UsedInts(arr: seq<Value>, nodes: seq<Node>, ek: Key): int -> bool {
    k => ValueIn(arr, nodes, Number(k)) != Nil || ek == Number(k)
  }

  /** n is the largest power of two such that more than half of the integers 1..n are used. */
  ghost predicate OptimalSize(used: int -> bool, n: int) {
    && (n == 0 || exists j: nat :: j <= MAXBITS && n == Pow2(j) && |Within(used, n)| > n / 2)
    && forall j: nat :: j <= MAXBITS && |Within(used, Pow2(j))| > Pow2(j) / 2 ==> Pow2(j) <= n
  }

  /** The counters count the used integers, slice by slice. */
  ghost predicate Counts(nums: seq<int>, used: int -> bool) {
    && |nums| == MAXBITS + 1 && (forall i :: 0 <= i < |nums| ==> nums[i] >= 0)
    && forall lg: nat {:trigger Total(nums, lg)} :: lg < |nums| ==> Total(nums, lg) == |Within(used, Pow2(lg))|
  }

  lemma CeilLog2Order(k: nat, lg: nat)
    requires k > 0
    ensures k <= Pow2(lg) <==> CeilLog2(k) <= lg
  {
    var c := CeilLog2(k);
    if c <= lg { Pow2Grows(c, lg); } else { Pow2Grows(lg, c - 1); }
  }

  /** countint: one more integer is used. */
  lemma CountMore(nums: seq<int>, used: int -> bool, used': int -> bool, k: int)
    requires Counts(nums, used) && !used(k) && forall x :: used'(x) <==> used(x) || x == k
    ensures 0 < k <= MAXASIZE ==>
              CeilLog2(k) < |nums| && Counts(nums[CeilLog2(k) := nums[CeilLog2(k)] + 1], used')
    ensures !(0 < k <= MAXASIZE) ==> Counts(nums, used')
  {
    hide Pow2, Total, Within;
    MaxArraySize();
    if 0 < k <= MAXASIZE {
      var c := CeilLog2(k);
      CeilLog2Order(k, |nums| - 1);
      forall lg: nat | lg < |nums|
        ensures Total(nums[c := nums[c] + 1], lg) == |Within(used', Pow2(lg))|
      {
        TotalUpdate(nums, c, nums[c] + 1, lg);
        WithinAdd(used, used', k, Pow2(lg));
        CeilLog2Order(k, lg);
        assert Total(nums, lg) == |Within(used, Pow2(lg))|;
      }
    } else {
      forall lg: nat | lg < |nums|
        ensures Total(nums, lg) == |Within(used', Pow2(lg))|
      {
        WithinAdd(used, used', k, Pow2(lg));
        Pow2Grows(lg, |nums| - 1);
      }
    }
  }

  lemma SameUsed(nums: seq<int>, used: int -> bool, used': int -> bool)
    requires Counts(nums, used) && forall x :: used'(x) <==> used(x)
    ensures Counts(nums, used')
  {
    forall lg: nat | lg < |nums|
      ensures Total(nums, lg) == |Within(used', Pow2(lg))|
    {
      assert Within(used', Pow2(lg)) == Within(used, Pow2(lg));
    }
  }

  /** The integers with an entry in the array part. */
  ghost function ArrayInts(arr: seq<Value>): int -> bool {
    k => ArrayUsed(arr, k)
  }

  lemma {:induction false} ArrayCount(arr: seq<Value>, n: nat)
    ensures |Within(ArrayInts(arr), n)| == CountValues(arr[..Min(n, |arr|)])
  {
    if n == 0 {
      assert Within(ArrayInts(arr), 0) == {};
      assert arr[..0] == [];
    } else {
      ArrayCount(arr, n - 1);
      WithinStep(ArrayInts(arr), n);
      if n <= |arr| { CountValuesStep(arr, n - 1); }
    }
  }

  lemma {:induction false} NodeCount(arr: seq<Value>, nodes: seq<Node>, m: nat, n: nat)
    requires m <= |nodes| && UniqueKeys(nodes) && forall j :: 0 <= j < |nodes| ==> !InArray(nodes[j].key, |arr|)
    ensures |Within(UsedIn(arr, nodes, 0, m), n)| == CountValues(arr[..Min(n, |arr|)]) + CountBelow(nodes[..m], n)
    decreases m
  {
    var used := UsedIn(arr, nodes, 0, m);
    if m == 0 {
      ArrayCount(arr, n);
      assert Within(used, n) == Within(ArrayInts(arr), n);
    } else {
      NodeCount(arr, nodes, m - 1, n);
      var x, before := nodes[m-1], UsedIn(arr, nodes, 0, m - 1);
      assert nodes[..m][..m-1] == nodes[..m-1];
      if IsEntry(x) && x.key.Number? {
        assert !before(x.key.n);
        WithinAdd(before, used, x.key.n, n);
      } else {
        assert Within(used, n) == Within(before, n);
      }
    }
  }

  /** The entries of a hash part. */
  function CountEntries(nodes: seq<Node>): (n: nat)
    ensures n <= |nodes|
  {
    if nodes == [] then 0 else CountEntries(nodes[..|nodes|-1]) + if IsEntry(nodes[|nodes|-1]) then 1 else 0
  }

  lemma {:induction false} EntriesSplit(nodes: seq<Node>, n: int)
    ensures CountEntries(nodes) == CountBelow(nodes, n) + CountAbove(nodes, n)
  {
    if nodes != [] { EntriesSplit(nodes[..|nodes|-1], n); }
  }

  lemma {:induction false} EntriesStep(nodes: seq<Node>, i: nat)
    requires i < |nodes|
    ensures CountEntries(nodes[..i+1]) == CountEntries(nodes[..i]) + if IsEntry(nodes[i]) then 1 else 0
  {
    assert nodes[..i+1][..i] == nodes[..i];
  }

  /** UsedInts is what the loops over both parts, and the extra key, have counted. */
  lemma AllUsed(arr: seq<Value>, nodes: seq<Node>, ek: Key, k: int)
    requires UniqueKeys(nodes) && forall j :: 0 <= j < |nodes| ==> !InArray(nodes[j].key, |arr|)
    ensures UsedInts(arr, nodes, ek)(k) <==> UsedIn(arr, nodes, 0, |nodes|)(k) || ek == Number(k)
  {
    if HasKey(nodes, Number(k)) {
      var j :| 0 <= j < |nodes| && nodes[j].key == Number(k);
      HashValueAt(nodes, j);
      assert !InArray(nodes[j].key, |arr|);
      assert nodes[j].val != Nil ==> IsEntry(nodes[j]);
      assert forall i :: 0 <= i < |nodes| && nodes[i].key == Number(k) ==> i == j;
      assert !ArrayUsed(arr, k);
    } else {
      assert UsedIn(arr, nodes, 0, |nodes|)(k) <==> ArrayUsed(arr, k);
    }
  }
}
