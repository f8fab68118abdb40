/** Tables (ltable.c): the structure of the hash part, a chained scatter table with Brent's variation, and
    what it means for it to hold a key. */
module TableSpec {

  /** A table key.  `Other` stands for every key that is not a number with an integer value. */
  datatype Key = NilKey | Number(n: int) | Other(id: int)

  datatype Value = Nil | Datum(v: int)

  const NULL := -1

  datatype Node = Node(key: Key, val: Value, next: int)

  /** mainposition, for any hash function. */
  function MainPosition(hash: (Key, nat) -> nat, key: Key, size: nat): (p: nat)
    requires size > 0
    ensures p < size
  {
    hash(key, size) % size
  }

  /** t follows the next pointers to their end. */
  ghost predicate Links(nodes: seq<Node>, t: seq<int>) {
    t == [] || (0 <= t[0] < |nodes| && nodes[t[0]].next == (if |t| > 1 then t[1] else NULL) && Links(nodes, t[1..]))
  }

  /** t lists the nodes that a walk along the next pointers visits from node i on. */
  ghost predicate IsTail(nodes: seq<Node>, i: int, t: seq<int>) {
    t != [] && t[0] == i && Links(nodes, t)
  }

  ghost predicate Chained(nodes: seq<Node>, tails: seq<seq<int>>) {
    |tails| == |nodes| && forall i {:trigger tails[i]} :: 0 <= i < |nodes| ==> IsTail(nodes, i, tails[i])
  }

  /** No node is the successor of two nodes. */
  ghost predicate NextInjective(nodes: seq<Node>) {
    forall i, j :: 0 <= i < |nodes| && 0 <= j < |nodes| && nodes[i].next == nodes[j].next != NULL ==> i == j
  }

  ghost predicate FreeAt(nodes: seq<Node>, i: int)
    requires 0 <= i < |nodes|
  {
    && (nodes[i].key == NilKey ==> nodes[i].val == Nil && nodes[i].next == NULL)
    && (0 <= nodes[i].next < |nodes| ==> nodes[nodes[i].next].key != NilKey)
  }

  /** A node without a key is not part of a chain. */
  ghost predicate FreeNodes(nodes: seq<Node>) {
    forall i {:trigger nodes[i]} :: 0 <= i < |nodes| ==> FreeAt(nodes, i)
  }

  ghost predicate UniqueKeys(nodes: seq<Node>) {
    forall i, j :: 0 <= i < |nodes| && 0 <= j < |nodes| && nodes[i].key == nodes[j].key != NilKey ==> i == j
  }

  ghost predicate PlacedAt(hash: (Key, nat) -> nat, nodes: seq<Node>, tails: seq<seq<int>>, i: int)
    requires 0 <= i < |nodes| == |tails|
  {
    nodes[i].key != NilKey ==>
      var p := MainPosition(hash, nodes[i].key, |nodes|);
      // the key is reachable from its main position,
      && i in tails[p]
      // and the node there is in its own main position
      && nodes[p].key != NilKey && MainPosition(hash, nodes[p].key, |nodes|) == p
  }

  ghost predicate Placed(hash: (Key, nat) -> nat, nodes: seq<Node>, tails: seq<seq<int>>)
    requires |nodes| == |tails|
  {
    forall i {:trigger nodes[i]} :: 0 <= i < |nodes| ==> PlacedAt(hash, nodes, tails, i)
  }

  /** The invariant of the hash part. */
  ghost predicate HashOk(hash: (Key, nat) -> nat, nodes: seq<Node>, tails: seq<seq<int>>) {
    && |nodes| > 0 && Chained(nodes, tails) && NextInjective(nodes) && FreeNodes(nodes) && UniqueKeys(nodes)
    && Placed(hash, nodes, tails)
  }

  ghost predicate HasKey(nodes: seq<Node>, key: Key) {
    exists i :: 0 <= i < |nodes| && nodes[i].key == key
  }

  /** The value that the hash part holds for a key. */
  ghost function HashValue(nodes: seq<Node>, key: Key): Value {
    if HasKey(nodes, key) then
      var i :| 0 <= i < |nodes| && nodes[i].key == key;
      nodes[i].val
    else Nil
  }

  lemma HashValueAt(nodes: seq<Node>, i: int)
    requires UniqueKeys(nodes) && 0 <= i < |nodes| && nodes[i].key != NilKey
    ensures HashValue(nodes, nodes[i].key) == nodes[i].val
  {
  }

  /** The same keys with the same values: nothing is lost, whatever nodes they sit in. */
  ghost predicate SameValues(nodes: seq<Node>, nodes': seq<Node>) {
    forall key :: key != NilKey ==> HashValue(nodes', key) == HashValue(nodes, key)
  }

  /** If node i of `nodes` holds a value, some node of nodes' holds it for the same key. */
  ghost predicate Carried(nodes: seq<Node>, i: int, nodes': seq<Node>)
    requires 0 <= i < |nodes|
  {
    nodes[i].key != NilKey && nodes[i].val != Nil ==>
      exists j :: 0 <= j < |nodes'| && nodes'[j].key == nodes[i].key && nodes'[j].val == nodes[i].val
  }

  lemma SameItems(nodes: seq<Node>, nodes': seq<Node>)
    requires UniqueKeys(nodes) && UniqueKeys(nodes')
    requires forall i :: 0 <= i < |nodes| ==> Carried(nodes, i, nodes')
    requires forall i :: 0 <= i < |nodes'| ==> Carried(nodes', i, nodes)
    ensures SameValues(nodes, nodes')
  {
    forall k | k != NilKey
      ensures HashValue(nodes', k) == HashValue(nodes, k)
    {
      if HashValue(nodes, k) != Nil { CarriedValue(nodes, nodes', k); }
      if HashValue(nodes', k) != Nil { CarriedValue(nodes', nodes, k); }
    }
  }

  lemma CarriedValue(nodes: seq<Node>, nodes': seq<Node>, k: Key)
    requires UniqueKeys(nodes) && UniqueKeys(nodes') && k != NilKey && HashValue(nodes, k) != Nil
    requires forall i :: 0 <= i < |nodes| ==> Carried(nodes, i, nodes')
    ensures HashValue(nodes', k) == HashValue(nodes, k)
  {
    var i :| 0 <= i < |nodes| && nodes[i].key == k;
    HashValueAt(nodes, i);
    assert Carried(nodes, i, nodes');
    var j :| 0 <= j < |nodes'| && nodes'[j].key == k && nodes'[j].val == nodes[i].val;
    HashValueAt(nodes', j);
  }

  // ----- walks -----

  /** A walk is determined by where it starts. */
  lemma {:induction false} SameWalk(nodes: seq<Node>, t: seq<int>, u: seq<int>)
    requires Links(nodes, t) && Links(nodes, u) && t != [] && u != [] && t[0] == u[0]
    ensures t == u
    decreases |t|
  {
    assert |t| > 1 ==> Links(nodes, t[1..]);
    assert |u| > 1 ==> Links(nodes, u[1..]);
    if |t| > 1 && |u| > 1 { SameWalk(nodes, t[1..], u[1..]); }
    assert t == [t[0]] + t[1..] && u == [u[0]] + u[1..];
  }

  lemma TailNext(nodes: seq<Node>, tails: seq<seq<int>>, i: int)
    requires Chained(nodes, tails) && 0 <= i < |nodes|
    ensures tails[i] != [] && tails[i][0] == i
    ensures nodes[i].next == NULL <==> |tails[i]| == 1
    ensures nodes[i].next != NULL ==> 0 <= nodes[i].next < |nodes| && tails[nodes[i].next] == tails[i][1..]
    ensures nodes[i].next != i
  {
    var t := tails[i];
    if |t| > 1 {
      assert Links(nodes, t[1..]);
      SameWalk(nodes, t[1..], tails[t[1]]);
    }
  }

  lemma {:induction false} LinksInRange(nodes: seq<Node>, t: seq<int>)
    requires Links(nodes, t)
    ensures forall x :: x in t ==> 0 <= x < |nodes|
  {
    if t != [] {
      LinksInRange(nodes, t[1..]);
      assert t == [t[0]] + t[1..];
    }
  }

  /** A walk that starts at a node with a key stays on nodes with keys. */
  lemma {:induction false} WalkHasKeys(nodes: seq<Node>, t: seq<int>)
    requires Links(nodes, t) && FreeNodes(nodes) && t != [] && nodes[t[0]].key != NilKey
    ensures forall x :: x in t ==> 0 <= x < |nodes| && nodes[x].key != NilKey
  {
    assert FreeAt(nodes, t[0]);
    if |t| > 1 {
      assert Links(nodes, t[1..]);
      WalkHasKeys(nodes, t[1..]);
    }
    assert t == [t[0]] + t[1..];
  }

  /** A walk avoids a node without a key, unless it starts there. */
  lemma AvoidsFree(nodes: seq<Node>, tails: seq<seq<int>>, i: int, n: int)
    requires Chained(nodes, tails) && FreeNodes(nodes) && 0 <= i < |nodes| && 0 <= n < |nodes| && nodes[n].key == NilKey
    ensures n in tails[i] ==> i == n
    ensures tails[n] == [n]
  {
    TailNext(nodes, tails, n);
    assert FreeAt(nodes, n) && FreeAt(nodes, i);
    if nodes[i].key != NilKey { WalkHasKeys(nodes, tails[i]); }
    else { TailNext(nodes, tails, i); }
  }

  // ----- a new key in a node of its own chain, or in a free node that is its main position -----

  lemma Overwrite(hash: (Key, nat) -> nat, nodes: seq<Node>, tails: seq<seq<int>>, p: int, key: Key)
    requires HashOk(hash, nodes, tails) && 0 <= p < |nodes| && key != NilKey && !HasKey(nodes, key)
    requires p == MainPosition(hash, key, |nodes|) && nodes[p].val == Nil
    ensures var nodes' := nodes[p := Node(key, Nil, nodes[p].next)];
            HashOk(hash, nodes', tails) && SameValues(nodes, nodes')
  {
    var nodes' := nodes[p := Node(key, Nil, nodes[p].next)];
    forall t | Links(nodes, t) ensures Links(nodes', t) { SameLinks(nodes, nodes', t); }
    forall i | 0 <= i < |nodes|
      ensures FreeAt(nodes', i) && PlacedAt(hash, nodes', tails, i)
    {
      assert FreeAt(nodes, i) && PlacedAt(hash, nodes, tails, i);
      assert tails[p][0] == p;
    }
    assert forall i :: 0 <= i < |nodes| ==> nodes'[i].next == nodes[i].next;
    forall i | 0 <= i < |nodes|
      ensures Carried(nodes, i, nodes') && Carried(nodes', i, nodes)
    {
      assert i != p ==> nodes'[i] == nodes[i];
    }
    SameItems(nodes, nodes');
  }

  lemma {:induction false} SameLinks(nodes: seq<Node>, nodes': seq<Node>, t: seq<int>)
    requires Links(nodes, t) && |nodes'| == |nodes| && forall i :: 0 <= i < |nodes| ==> nodes'[i].next == nodes[i].next
    ensures Links(nodes', t)
  {
    if t != [] { SameLinks(nodes, nodes', t[1..]); }
  }

  // ----- a new key in a free node n behind its main position p -----

  ghost function InsertBehind(t: seq<int>, p: int, n: int): (r: seq<int>)
    ensures t != [] ==> r != [] && r[0] == t[0]
  {
    if t == [] then []
    else [t[0]] + (if t[0] == p then [n] else []) + InsertBehind(t[1..], p, n)
  }

  lemma {:induction false} InsertBehindElems(t: seq<int>, p: int, n: int, x: int)
    ensures x in InsertBehind(t, p, n) <==> x in t || (x == n && p in t)
  {
    if t != [] {
      InsertBehindElems(t[1..], p, n, x);
      assert t == [t[0]] + t[1..];
      assert InsertBehind(t, p, n) == [t[0]] + (if t[0] == p then [n] else []) + InsertBehind(t[1..], p, n);
    }
  }

  ghost predicate InsertedBehind(nodes: seq<Node>, nodes': seq<Node>, p: int, n: int) {
    && |nodes'| == |nodes| && 0 <= p < |nodes| && 0 <= n < |nodes| && n != p
    && nodes'[p].next == n && nodes'[n].next == nodes[p].next
    && forall i :: 0 <= i < |nodes| && i != p && i != n ==> nodes'[i].next == nodes[i].next
  }

  lemma {:induction false} LinksInsert(nodes: seq<Node>, nodes': seq<Node>, p: int, n: int, t: seq<int>)
    requires Links(nodes, t) && InsertedBehind(nodes, nodes', p, n) && n !in t
    ensures Links(nodes', InsertBehind(t, p, n))
  {
    if t != [] {
      var u := InsertBehind(t[1..], p, n);
      LinksInsert(nodes, nodes', p, n, t[1..]);
      if t[0] == p {
        LinksCons(nodes', n, u);
        LinksCons(nodes', p, [n] + u);
        assert [p] + [n] + u == [p] + ([n] + u);
      } else {
        LinksCons(nodes', t[0], u);
        assert [t[0]] + [] + u == [t[0]] + u;
      }
    }
  }

  lemma LinksCons(nodes: seq<Node>, x: int, t: seq<int>)
    requires 0 <= x < |nodes| && Links(nodes, t) && nodes[x].next == if t == [] then NULL else t[0]
    ensures Links(nodes, [x] + t)
  {
    assert ([x] + t)[1..] == t;
  }

  ghost function InsertTails(tails: seq<seq<int>>, p: int, n: int): (r: seq<seq<int>>)
    requires 0 <= p < |tails| && tails[p] != []
    ensures |r| == |tails|
    ensures forall i ::
              0 <= i < |tails| ==> r[i] == if i == n then [n] + tails[p][1..] else InsertBehind(tails[i], p, n)
  {
    seq(|tails|, i requires 0 <= i < |tails| => if i == n then [n] + tails[p][1..] else InsertBehind(tails[i], p, n))
  }

  lemma InsertChained(nodes: seq<Node>, nodes': seq<Node>, tails: seq<seq<int>>, p: int, n: int)
    requires Chained(nodes, tails) && FreeNodes(nodes) && InsertedBehind(nodes, nodes', p, n)
    requires nodes[n].key == NilKey && nodes[p].key != NilKey
    ensures Chained(nodes', InsertTails(tails, p, n))
  {
    var r := InsertTails(tails, p, n);
    forall i | 0 <= i < |nodes|
      ensures IsTail(nodes', i, r[i])
    {
      AvoidsFree(nodes, tails, i, n);
      TailNext(nodes, tails, p);
      if i == n {
        AvoidsFree(nodes, tails, p, n);
        var u := tails[p][1..];
        assert p !in u by { if p in u { NotBehindItself(nodes, tails, p); } }
        LinksInsert(nodes, nodes', p, n, u);
        NothingInserted(u, p, n);
        assert ([n] + u)[1..] == u;
      } else {
        LinksInsert(nodes, nodes', p, n, tails[i]);
      }
    }
  }

  lemma {:induction false} NothingInserted(t: seq<int>, p: int, n: int)
    requires p !in t
    ensures InsertBehind(t, p, n) == t
  {
    if t != [] {
      NothingInserted(t[1..], p, n);
      assert t == [t[0]] + t[1..];
    }
  }

  /** There are no cycles. */
  lemma NotBehindItself(nodes: seq<Node>, tails: seq<seq<int>>, p: int)
    requires Chained(nodes, tails) && 0 <= p < |nodes|
    ensures p !in tails[p][1..]
  {
    var t := tails[p];
    if p in t[1..] {
      var k :| 1 <= k < |t| && t[k] == p;
      SuffixLinks(nodes, t, k);
      SameWalk(nodes, t, t[k..]);
    }
  }

  lemma {:induction false} SuffixLinks(nodes: seq<Node>, t: seq<int>, k: nat)
    requires Links(nodes, t) && k <= |t|
    ensures Links(nodes, t[k..])
  {
    if k > 0 {
      SuffixLinks(nodes, t[1..], k - 1);
      assert t[1..][k-1..] == t[k..];
    } else {
      assert t[0..] == t;
    }
  }

  lemma Insert(hash: (Key, nat) -> nat, nodes: seq<Node>, tails: seq<seq<int>>, p: int, n: int, key: Key)
    requires HashOk(hash, nodes, tails) && 0 <= p < |nodes| && key != NilKey && !HasKey(nodes, key)
    requires p == MainPosition(hash, key, |nodes|)
    requires nodes[p].key != NilKey && MainPosition(hash, nodes[p].key, |nodes|) == p
    requires 0 <= n < |nodes| && nodes[n].key == NilKey
    ensures var nodes' := nodes[n := Node(key, Nil, nodes[p].next)][p := nodes[p].(next := n)];
            HashOk(hash, nodes', InsertTails(tails, p, n)) && SameValues(nodes, nodes')
  {
    hide Links, IsTail, Placed, PlacedAt, FreeAt, InsertTails, UniqueKeys;
    var nodes' := nodes[n := Node(key, Nil, nodes[p].next)][p := nodes[p].(next := n)];
    ChainHead(nodes, tails, p);
    var r := InsertTails(tails, p, n);
    assert n != p;
    InsertedLength(tails, p, n);
    NothingBefore(nodes, n);
    InsertChained(nodes, nodes', tails, p, n);
    forall i | 0 <= i < |nodes|
      ensures FreeAt(nodes', i) && PlacedAt(hash, nodes', r, i)
    {
      InsertedFree(nodes, p, n, key, i);
      InsertedPlaced(hash, nodes, tails, p, n, key, i);
    }
    AllPlaced(hash, nodes', r);
    InsertedItems(nodes, p, n, key);
  }

  lemma ChainHead(nodes: seq<Node>, tails: seq<seq<int>>, p: int)
    requires Chained(nodes, tails) && 0 <= p < |nodes|
    ensures |tails| == |nodes| && tails[p] != [] && tails[p][0] == p
  {
    assert IsTail(nodes, p, tails[p]);
  }

  lemma InsertedLength(tails: seq<seq<int>>, p: int, n: int)
    requires 0 <= p < |tails| && tails[p] != []
    ensures |InsertTails(tails, p, n)| == |tails|
  {
  }

  /** No node leads to a node without a key. */
  lemma NothingBefore(nodes: seq<Node>, n: int)
    requires FreeNodes(nodes) && 0 <= n < |nodes| && nodes[n].key == NilKey
    ensures forall i :: 0 <= i < |nodes| ==> nodes[i].next != n
  {
    forall i | 0 <= i < |nodes| ensures nodes[i].next != n { assert FreeAt(nodes, i); }
  }

  lemma AllPlaced(hash: (Key, nat) -> nat, nodes: seq<Node>, tails: seq<seq<int>>)
    requires |nodes| == |tails| > 0 && forall i :: 0 <= i < |nodes| ==> PlacedAt(hash, nodes, tails, i)
    ensures Placed(hash, nodes, tails)
  {
  }

  lemma InsertedItems(nodes: seq<Node>, p: int, n: int, key: Key)
    requires UniqueKeys(nodes) && 0 <= p < |nodes| && 0 <= n < |nodes| && n != p
    requires nodes[n].key == NilKey && key != NilKey && !HasKey(nodes, key)
    ensures var nodes' := nodes[n := Node(key, Nil, nodes[p].next)][p := nodes[p].(next := n)];
            UniqueKeys(nodes') && SameValues(nodes, nodes')
  {
    var nodes' := nodes[n := Node(key, Nil, nodes[p].next)][p := nodes[p].(next := n)];
    forall i | 0 <= i < |nodes|
      ensures Carried(nodes, i, nodes') && Carried(nodes', i, nodes)
    {
      assert i != p && i != n ==> nodes'[i] == nodes[i];
      assert nodes'[p].key == nodes[p].key && nodes'[p].val == nodes[p].val;
    }
    SameItems(nodes, nodes');
  }

  lemma InsertedFree(nodes: seq<Node>, p: int, n: int, key: Key, i: int)
    requires FreeNodes(nodes) && 0 <= p < |nodes| && 0 <= n < |nodes| && n != p && key != NilKey
    requires nodes[p].key != NilKey && 0 <= i < |nodes|
    ensures FreeAt(nodes[n := Node(key, Nil, nodes[p].next)][p := nodes[p].(next := n)], i)
  {
    assert FreeAt(nodes, i) && FreeAt(nodes, p);
  }

  lemma InsertedPlaced(hash: (Key, nat) -> nat, nodes: seq<Node>, tails: seq<seq<int>>, p: int, n: int, key: Key,
                       i: int)
    requires |tails| == |nodes| && Placed(hash, nodes, tails) && 0 <= p < |nodes| && key != NilKey
    requires p == MainPosition(hash, key, |nodes|) && tails[p] != [] && tails[p][0] == p
    requires nodes[p].key != NilKey && MainPosition(hash, nodes[p].key, |nodes|) == p
    requires 0 <= n < |nodes| && n != p && nodes[n].key == NilKey && 0 <= i < |nodes|
    ensures var nodes' := nodes[n := Node(key, Nil, nodes[p].next)][p := nodes[p].(next := n)];
            PlacedAt(hash, nodes', InsertTails(tails, p, n), i)
  {
    var nodes' := nodes[n := Node(key, Nil, nodes[p].next)][p := nodes[p].(next := n)];
    assert PlacedAt(hash, nodes, tails, i);
    if i == n {
      InsertBehindElems(tails[p], p, n, n);
    } else if nodes[i].key != NilKey {
      var q := MainPosition(hash, nodes[i].key, |nodes|);
      InsertBehindElems(tails[q], p, n, i);
      assert q != n;
    }
  }

  // ----- a new key in its main position p, which a node of another chain leaves for the free node n -----

  ghost function Subst(t: seq<int>, p: int, n: int): (r: seq<int>)
    ensures |r| == |t| && forall i :: 0 <= i < |t| ==> r[i] == if t[i] == p then n else t[i]
  {
    seq(|t|, i requires 0 <= i < |t| => if t[i] == p then n else t[i])
  }

  /** q is the node in front of p. */
  ghost predicate Moved(nodes: seq<Node>, nodes': seq<Node>, q: int, p: int, n: int) {
    && |nodes'| == |nodes| && 0 <= p < |nodes| && 0 <= n < |nodes| && 0 <= q < |nodes| && n != p && q != p && q != n
    && nodes[q].next == p && nodes'[q].next == n && nodes'[n].next == nodes[p].next && nodes'[p].next == NULL
    && forall i :: 0 <= i < |nodes| && i != p && i != n && i != q ==> nodes'[i].next == nodes[i].next
  }

  lemma {:induction false} LinksSubst(nodes: seq<Node>, nodes': seq<Node>, q: int, p: int, n: int, t: seq<int>)
    requires Links(nodes, t) && Moved(nodes, nodes', q, p, n) && n !in t
    requires NextInjective(nodes) && nodes[p].next != p
    ensures Links(nodes', Subst(t, p, n))
  {
    if t != [] {
      LinksSubst(nodes, nodes', q, p, n, t[1..]);
      assert Subst(t, p, n)[1..] == Subst(t[1..], p, n);
      if |t| > 1 { assert t[1] == nodes[t[0]].next; }
    }
  }

  ghost function MoveTails(tails: seq<seq<int>>, p: int, n: int): (r: seq<seq<int>>)
    requires 0 <= p < |tails| && tails[p] != []
    ensures |r| == |tails|
    ensures forall i :: 0 <= i < |tails| ==>
              r[i] == if i == p then [p] else if i == n then Subst(tails[p], p, n) else Subst(tails[i], p, n)
  {
    seq(|tails|, i requires 0 <= i < |tails| =>
      if i == p then [p] else if i == n then Subst(tails[p], p, n) else Subst(tails[i], p, n))
  }

  lemma MoveChained(nodes: seq<Node>, nodes': seq<Node>, tails: seq<seq<int>>, q: int, p: int, n: int)
    requires Chained(nodes, tails) && FreeNodes(nodes) && NextInjective(nodes) && Moved(nodes, nodes', q, p, n)
    requires nodes[n].key == NilKey && nodes[p].key != NilKey
    ensures Chained(nodes', MoveTails(tails, p, n))
  {
    var r := MoveTails(tails, p, n);
    TailNext(nodes, tails, p);
    forall i | 0 <= i < |nodes|
      ensures IsTail(nodes', i, r[i])
    {
      AvoidsFree(nodes, tails, i, n);
      AvoidsFree(nodes, tails, p, n);
      if i == n { LinksSubst(nodes, nodes', q, p, n, tails[p]); }
      else if i != p { LinksSubst(nodes, nodes', q, p, n, tails[i]); }
    }
  }

  lemma SubstElems(t: seq<int>, p: int, n: int, x: int)
    requires x in t
    ensures (if x == p then n else x) in Subst(t, p, n)
  {
    var k :| 0 <= k < |t| && t[k] == x;
    assert Subst(t, p, n)[k] == if x == p then n else x;
  }

  lemma Move(hash: (Key, nat) -> nat, nodes: seq<Node>, tails: seq<seq<int>>, q: int, p: int, n: int, key: Key)
    requires HashOk(hash, nodes, tails) && 0 <= p < |nodes| && key != NilKey && !HasKey(nodes, key)
    requires p == MainPosition(hash, key, |nodes|)
    requires nodes[p].key != NilKey && MainPosition(hash, nodes[p].key, |nodes|) != p
    requires 0 <= n < |nodes| && nodes[n].key == NilKey
    requires 0 <= q < |nodes| && nodes[q].next == p
    ensures var nodes' := nodes[q := nodes[q].(next := n)][n := nodes[p]][p := Node(key, Nil, NULL)];
            HashOk(hash, nodes', MoveTails(tails, p, n)) && SameValues(nodes, nodes')
  {
    var nodes' := nodes[q := nodes[q].(next := n)][n := nodes[p]][p := Node(key, Nil, NULL)];
    var r := MoveTails(tails, p, n);
    assert FreeAt(nodes, n) && FreeAt(nodes, q) && FreeAt(nodes, p);
    TailNext(nodes, tails, p);
    MoveChained(nodes, nodes', tails, q, p, n);
    forall i | 0 <= i < |nodes|
      ensures nodes[i].next != n
    {
      assert FreeAt(nodes, i);
    }
    forall i | 0 <= i < |nodes|
      ensures FreeAt(nodes', i) && PlacedAt(hash, nodes', r, i)
    {
      MovedFree(nodes, tails, q, p, n, key, i);
      MovedPlaced(hash, nodes, tails, q, p, n, key, i);
    }
    MovedItems(nodes, q, p, n, key);
  }

  lemma MovedItems(nodes: seq<Node>, q: int, p: int, n: int, key: Key)
    requires UniqueKeys(nodes) && 0 <= p < |nodes| && 0 <= q < |nodes| && 0 <= n < |nodes| && q != p && q != n && n != p
    requires nodes[n].key == NilKey && !HasKey(nodes, key)
    ensures var nodes' := nodes[q := nodes[q].(next := n)][n := nodes[p]][p := Node(key, Nil, NULL)];
            UniqueKeys(nodes') && SameValues(nodes, nodes')
  {
    var nodes' := nodes[q := nodes[q].(next := n)][n := nodes[p]][p := Node(key, Nil, NULL)];
    forall i | 0 <= i < |nodes|
      ensures Carried(nodes, i, nodes') && Carried(nodes', i, nodes)
    {
      assert i != p && i != n && i != q ==> nodes'[i] == nodes[i];
      assert nodes'[n] == nodes[p] && nodes'[q].key == nodes[q].key && nodes'[q].val == nodes[q].val;
    }
    SameItems(nodes, nodes');
  }

  lemma MovedFree(nodes: seq<Node>, tails: seq<seq<int>>, q: int, p: int, n: int, key: Key, i: int)
    requires FreeNodes(nodes) && NextInjective(nodes) && 0 <= p < |nodes| && nodes[p].next != p && key != NilKey
    requires nodes[p].key != NilKey && 0 <= n < |nodes| && nodes[n].key == NilKey
    requires 0 <= q < |nodes| && nodes[q].next == p && q != p && q != n && 0 <= i < |nodes|
    ensures FreeAt(nodes[q := nodes[q].(next := n)][n := nodes[p]][p := Node(key, Nil, NULL)], i)
  {
    assert FreeAt(nodes, i) && FreeAt(nodes, p) && FreeAt(nodes, q);
  }

  lemma MovedPlaced(hash: (Key, nat) -> nat, nodes: seq<Node>, tails: seq<seq<int>>, q: int, p: int, n: int, key: Key,
                    i: int)
    requires |tails| == |nodes| && Placed(hash, nodes, tails) && 0 <= p < |nodes| && key != NilKey
    requires p == MainPosition(hash, key, |nodes|) && tails[p] != []
    requires nodes[p].key != NilKey && MainPosition(hash, nodes[p].key, |nodes|) != p
    requires 0 <= n < |nodes| && nodes[n].key == NilKey
    requires 0 <= q < |nodes| && q != p && q != n && 0 <= i < |nodes|
    ensures var nodes' := nodes[q := nodes[q].(next := n)][n := nodes[p]][p := Node(key, Nil, NULL)];
            PlacedAt(hash, nodes', MoveTails(tails, p, n), i)
  {
    hide IsTail, FreeNodes, Links;
    var nodes' := nodes[q := nodes[q].(next := n)][n := nodes[p]][p := Node(key, Nil, NULL)];
    var r := MoveTails(tails, p, n);
    var x := if i == n then p else i;
    if i != p && nodes[x].key != NilKey {
      assert nodes'[i].key == nodes[x].key;
      assert PlacedAt(hash, nodes, tails, x);
      var m := MainPosition(hash, nodes[x].key, |nodes|);
      assert m != p && m != n;
      SubstElems(tails[m], p, n, x);
      assert nodes'[m].key == nodes[m].key;
    }
  }

  // ----- storing a value -----

  lemma StoreValue(hash: (Key, nat) -> nat, nodes: seq<Node>, tails: seq<seq<int>>, i: int, v: Value)
    requires HashOk(hash, nodes, tails) && 0 <= i < |nodes| && nodes[i].key != NilKey
    ensures var nodes' := nodes[i := nodes[i].(val := v)];
            HashOk(hash, nodes', tails)
            && forall k :: k != NilKey ==> HashValue(nodes', k) == if k == nodes[i].key then v else HashValue(nodes, k)
  {
    var nodes' := nodes[i := nodes[i].(val := v)];
    forall t | Links(nodes, t) ensures Links(nodes', t) { SameLinks(nodes, nodes', t); }
    forall j | 0 <= j < |nodes|
      ensures FreeAt(nodes', j) && PlacedAt(hash, nodes', tails, j)
    {
      assert FreeAt(nodes, j) && PlacedAt(hash, nodes, tails, j);
    }
    assert UniqueKeys(nodes') by {
      forall a, b | 0 <= a < |nodes| && 0 <= b < |nodes| && nodes'[a].key == nodes'[b].key != NilKey
        ensures a == b
      {
        assert nodes[a].key == nodes'[a].key && nodes[b].key == nodes'[b].key;
      }
    }
    StoredValue(nodes, i, v);
  }

  lemma StoredValue(nodes: seq<Node>, i: int, v: Value)
    requires 0 <= i < |nodes| && nodes[i].key != NilKey && UniqueKeys(nodes)
    requires UniqueKeys(nodes[i := nodes[i].(val := v)])
    ensures forall k :: k != NilKey ==>
              HashValue(nodes[i := nodes[i].(val := v)], k) == if k == nodes[i].key then v else HashValue(nodes, k)
  {
    var nodes' := nodes[i := nodes[i].(val := v)];
    HashValueAt(nodes', i);
    forall k | k != NilKey && k != nodes[i].key
      ensures HashValue(nodes', k) == HashValue(nodes, k)
    {
      assert forall j :: 0 <= j < |nodes| ==> nodes'[j].key == nodes[j].key;
      if HasKey(nodes, k) {
        var j :| 0 <= j < |nodes| && nodes[j].key == k;
        assert nodes'[j] == nodes[j];
        HashValueAt(nodes, j);
        HashValueAt(nodes', j);
      }
    }
  }

  /** A node vector in which every node is free. */
  function EmptyNodes(size: nat): (r: seq<Node>)
    ensures |r| == size && forall i {:trigger r[i]} :: 0 <= i < size ==> r[i] == Node(NilKey, Nil, NULL)
  {
    seq(size, _ => Node(NilKey, Nil, NULL))
  }

  ghost function EmptyTails(size: nat): (r: seq<seq<int>>)
    ensures |r| == size && forall i {:trigger r[i]} :: 0 <= i < size ==> r[i] == [i]
  {
    seq(size, i => [i])
  }

  lemma EmptyHash(hash: (Key, nat) -> nat, size: nat)
    requires size > 0
    ensures HashOk(hash, EmptyNodes(size), EmptyTails(size))
    ensures forall k :: k != NilKey ==> HashValue(EmptyNodes(size), k) == Nil
  {
    var nodes, tails := EmptyNodes(size), EmptyTails(size);
    forall i | 0 <= i < size
      ensures IsTail(nodes, i, tails[i]) && FreeAt(nodes, i) && PlacedAt(hash, nodes, tails, i)
    {
      assert Links(nodes, []);
      assert [i][1..] == [];
      assert nodes[i] == Node(NilKey, Nil, NULL);
    }
  }
}
