/** Tables (ltable.c) as objects: a table refines a finite map. */
module LuaTable {
  import opened Limits
  import opened Wrappers
  import opened TableSpec
  import opened TableSize

  /** A pointer to the value of a key; `NilObject` is luaO_nilobject. */
  datatype Slot = ArraySlot(i: nat) | NodeSlot(i: nat) | NilObject

  datatype Error = IndexIsNil | TableOverflow | InvalidKeyToNext

  class Table {
    const hash: (Key, nat) -> nat
    var arr: seq<Value>
    var node: seq<Node>
    var lsizenode: nat
    var isDummy: bool        // no node vector of its own
    var lastfree: int        // all nodes from here on are taken
    ghost var tails: seq<seq<int>>

    ghost predicate Valid()
      reads this
    {
      && HashOk(hash, node, tails)
      && |node| == Pow2(lsizenode) && |arr| <= MAXASIZE && lastfree <= |node|
      && (isDummy ==> node == [Node(NilKey, Nil, NULL)] && lastfree <= 0)
      && (!isDummy ==> forall i :: 0 <= i < |node| && lastfree <= i ==> node[i].key != NilKey)
      && forall i {:trigger node[i]} :: 0 <= i < |node| ==> !InArray(node[i].key, |arr|)
    }

    ghost function Lookup(key: Key): Value
      reads this
    {
      ValueIn(arr, node, key)
    }

    /** The table as a finite map: its entries. */
    ghost function Contents(): map<Key, Value>
      reads this
    {
      ContentsOf(arr, node)
    }

    /** Does the pointer point to the value of `key`? */
    ghost predicate IsSlot(slot: Slot, key: Key)
      reads this
    {
      match slot
      case ArraySlot(i) => i < |arr| && key == Number(i + 1)
      case NodeSlot(i) => i < |node| && node[i].key == key != NilKey && !InArray(key, |arr|)
      case NilObject => false
    }

    ghost predicate HasRoom()
      reads this
    {
      !isDummy && CountKeys(node) < |node|
    }

    /** A key that has an element or a node already, whatever its value. */
    ghost predicate HasField(key: Key)
      reads this
    {
      key != NilKey && (InArray(key, |arr|) || HasKey(node, key))
    }

    /** No entry was changed. */
    twostate predicate SameEntries()
      reads this
    {
      forall key :: key != NilKey ==> Lookup(key) == old(Lookup(key))
    }

    // ----- looking up -----

    function ValueAt(slot: Slot): Value
      reads this
    {
      match slot
      case ArraySlot(i) => if i < |arr| then arr[i] else Nil
      case NodeSlot(i) => if i < |node| then node[i].val else Nil
      case NilObject => Nil
    }

    lemma SlotValue(slot: Slot, key: Key)
      requires Valid() && IsSlot(slot, key)
      ensures ValueAt(slot) == Lookup(key) && key != NilKey
    {
      if slot.NodeSlot? { HashValueAt(node, slot.i); }
    }

    /** The walk along the chain of a key. */
    method FindNode(key: Key) returns (slot: Slot)
      requires Valid() && key != NilKey
      ensures if HasKey(node, key) then slot.NodeSlot? && slot.i < |node| && node[slot.i].key == key
              else slot == NilObject
    {
      var n: int := MainPosition(hash, key, |node|);
      forall i | 0 <= i < |node| && node[i].key == key
        ensures i in tails[n]
      {
        assert PlacedAt(hash, node, tails, i);
      }
      while n != NULL
        invariant n == NULL || 0 <= n < |node|
        invariant forall i :: 0 <= i < |node| && node[i].key == key ==> n != NULL && i in tails[n]
        decreases if n == NULL then 0 else |tails[n]|
      {
        if node[n].key == key { return NodeSlot(n); }
        TailNext(node, tails, n);
        assert tails[n] == [n] + tails[n][1..];
        n := node[n].next;
      }
      return NilObject;
    }

    /** luaH_getnum */
    method GetNum(key: int) returns (slot: Slot)
      requires Valid()
      ensures if HasKey(node, Number(key)) || InArray(Number(key), |arr|) then IsSlot(slot, Number(key))
              else slot == NilObject
      ensures ValueAt(slot) == Lookup(Number(key))
    {
      if 1 <= key <= |arr| { return ArraySlot(key - 1); }
      slot := FindNode(Number(key));
      if slot != NilObject { SlotValue(slot, Number(key)); }
    }

    /** luaH_get */
    method Get(key: Key) returns (slot: Slot)
      requires Valid()
      ensures key == NilKey ==> slot == NilObject
      ensures key != NilKey ==>
                if HasKey(node, key) || InArray(key, |arr|) then IsSlot(slot, key) else slot == NilObject
      ensures key != NilKey ==> ValueAt(slot) == Lookup(key)
    {
      if key == NilKey { return NilObject; }
      if key.Number? {
        slot := GetNum(key.n);
        return;
      }
      slot := FindNode(key);
      if slot != NilObject { SlotValue(slot, key); }
    }

    // ----- storing -----

    /** The caller's assignment through a pointer that luaH_set returned. */
    method Store(slot: Slot, v: Value, ghost key: Key)
      requires Valid() && IsSlot(slot, key)
      modifies this`arr, this`node
      ensures Valid() && |arr| == |old(arr)| && |node| == |old(node)|
      ensures forall k :: k != NilKey ==> Lookup(k) == if k == key then v else old(Lookup(k))
      ensures forall i :: 0 <= i < |node| ==> node[i].key == old(node)[i].key && node[i].next == old(node)[i].next
    {
      match slot {
        case ArraySlot(i) => arr := arr[i := v];
        case NodeSlot(i) =>
          StoreValue(hash, node, tails, i, v);
          node := node[i := node[i].(val := v)];
        case NilObject => assert false;
      }
    }

    // ----- inserting -----

    method GetFreePos() returns (n: int)
      requires Valid()
      modifies this`lastfree
      ensures n == NULL ==> Valid() && !HasRoom()
      ensures n != NULL ==> 0 <= n < |node| && node[n].key == NilKey && !isDummy && lastfree == n
                            && forall i :: n < i < |node| ==> node[i].key != NilKey
    {
      while lastfree > 0
        invariant lastfree <= |node| && (isDummy ==> lastfree <= 0)
        invariant !isDummy ==> forall i :: 0 <= i < |node| && lastfree <= i ==> node[i].key != NilKey
      {
        lastfree := lastfree - 1;
        if node[lastfree].key == NilKey { return lastfree; }
      }
      lastfree := lastfree - 1;
      if !isDummy && CountKeys(node) < |node| { FreeNodeExists(node); }
      return NULL;
    }

    /** newkey: a key that the table does not hold gets a node. */
    method NewKey(key: Key) returns (r: Result<Slot, Error>)
      requires Valid() && key != NilKey && !InArray(key, |arr|) && !HasKey(node, key)
      modifies this
      ensures r.Ok? ==> Valid() && IsSlot(r.value, key) && SameEntries()
      ensures r.Err? ==> r.error == TableOverflow && old(EntryCount()) >= MAXASIZE
      ensures old(HasRoom()) ==> r.Ok? && Added(key, 1)
      decreases if HasRoom() then 0 else 1, 2
    {
      hide HashOk, CountKeys, HashValue;
      HashFacts(key);
      var mp: int := MainPosition(hash, key, |node|);
      if node[mp].val != Nil || isDummy {
        var n := GetFreePos();
        if n == NULL {
          var ok := Rehash(key);
          if !ok { return Err(TableOverflow); }
          r := Set(key);
          return;
        }
        r := UseFreePos(key, mp, n);
      } else {
        Overwrite(hash, node, tails, mp, key);
        OverwriteAdds(node, mp, key);
        node := node[mp := Node(key, Nil, node[mp].next)];
        return Ok(NodeSlot(mp));
      }
    }

    /** newkey has found a free place n, because the main position mp of the key is taken. */
    ghost predicate ReadyToAdd(key: Key, mp: int, n: int)
      reads this
    {
      && HashOk(hash, node, tails) && |node| == Pow2(lsizenode) && |arr| <= MAXASIZE
      && (forall i {:trigger node[i]} :: 0 <= i < |node| ==> !InArray(node[i].key, |arr|))
      && key != NilKey && !InArray(key, |arr|) && !HasKey(node, key)
      && mp == MainPosition(hash, key, |node|) && node[mp].val != Nil
      && 0 <= n < |node| && node[n].key == NilKey && !isDummy && lastfree == n
      && forall i :: n < i < |node| ==> node[i].key != NilKey
    }

    method UseFreePos(key: Key, mp: int, n: int) returns (r: Result<Slot, Error>)
      requires ReadyToAdd(key, mp, n)
      modifies this`node, this`tails
      ensures Valid() && r.Ok? && IsSlot(r.value, key) && SameEntries() && Added(key, 1)
    {
      hide HashOk, CountKeys, HashValue, MoveTails, InsertTails;
      TakenFacts(mp);
      var othern: int := MainPosition(hash, node[mp].key, |node|);
      if othern != mp {
        MoveColliding(key, mp, n, othern);
        return Ok(NodeSlot(mp));
      } else {
        Insert(hash, node, tails, mp, n, key);
        InsertAdds(node, mp, n, key);
        tails := InsertTails(tails, mp, n);
        node := node[n := Node(key, Nil, node[mp].next)][mp := node[mp].(next := n)];
        return Ok(NodeSlot(n));
      }
    }

    /** The node before mp, in the chain that starts at othern0. */
    method FindPrevious(mp: int, othern0: int) returns (othern: int)
      requires HashOk(hash, node, tails) && |tails| == |node| && 0 <= mp < |node| && 0 <= othern0 < |node|
      requires othern0 != mp && mp in tails[othern0]
      ensures 0 <= othern < |node| && othern != mp && mp in tails[othern] && node[othern].next == mp
    {
      hide HashOk;
      othern := othern0;
      while node[othern].next != mp
        invariant 0 <= othern < |node| && othern != mp && mp in tails[othern]
        decreases |tails[othern]|
      {
        ChainStep(othern, mp);
        othern := node[othern].next;
      }
    }

    method MoveColliding(key: Key, mp: int, n: int, othern0: int)
      requires ReadyToAdd(key, mp, n) && othern0 == MainPosition(hash, node[mp].key, |node|) != mp
      modifies this`node, this`tails
      ensures Valid() && IsSlot(NodeSlot(mp), key) && SameEntries() && Added(key, 1)
    {
      hide HashOk, CountKeys, HashValue, MoveTails;
      TakenFacts(mp);
      var othern := FindPrevious(mp, othern0);
      FreeIsNotBefore(othern, mp, n);
      Move(hash, node, tails, othern, mp, n, key);
      MoveAdds(node, othern, mp, n, key);
      tails := MoveTails(tails, mp, n);
      node := node[othern := node[othern].(next := n)];  // the chain goes on through the new place
      node := node[n := node[mp]];
      node := node[mp := Node(key, Nil, NULL)];
    }

    lemma HashFacts(key: Key)
      requires HashOk(hash, node, tails)
      ensures |node| > 0 && |tails| == |node|
    {
    }

    lemma TakenFacts(mp: int)
      requires HashOk(hash, node, tails) && 0 <= mp < |node| && node[mp].val != Nil
      ensures node[mp].key != NilKey && |tails| == |node| && tails[mp] != []
      ensures mp in tails[MainPosition(hash, node[mp].key, |node|)]
    {
      assert FreeAt(node, mp) && PlacedAt(hash, node, tails, mp);
      TailNext(node, tails, mp);
    }

    lemma ChainStep(i: int, mp: int)
      requires HashOk(hash, node, tails) && 0 <= i < |node| && i != mp && mp in tails[i] && node[i].next != mp
      ensures 0 <= node[i].next < |node| && mp in tails[node[i].next] && |tails[node[i].next]| < |tails[i]|
    {
      TailNext(node, tails, i);
      assert tails[i] == [i] + tails[i][1..];
    }

    lemma FreeIsNotBefore(i: int, mp: int, n: int)
      requires HashOk(hash, node, tails) && 0 <= i < |node| && node[i].next == mp >= 0
      requires 0 <= n < |node| && node[n].key == NilKey
      ensures i != n
    {
      assert FreeAt(node, n);
    }

    /** At most `key` was added, in at most n more nodes; nothing was resized. */
    twostate predicate Added(key: Key, n: nat)
      reads this
    {
      && arr == old(arr) && |node| == |old(node)| && isDummy == old(isDummy)
      && CountKeys(node) <= CountKeys(old(node)) + n
      && forall k :: k != NilKey && HasKey(node, k) ==> k == key || HasKey(old(node), k)
    }

    /** luaH_set */
    method Set(key: Key) returns (r: Result<Slot, Error>)
      requires Valid()
      modifies this
      ensures key == NilKey ==> r == Err(IndexIsNil) && Valid() && SameEntries()
      ensures key != NilKey ==>
                && (r.Ok? ==> Valid() && IsSlot(r.value, key) && SameEntries())
                && (r.Err? ==> r.error == TableOverflow && old(EntryCount()) >= MAXASIZE)
                && (old(HasRoom()) || InArray(key, |old(arr)|) ==>
                      r.Ok? && Added(key, if InArray(key, |arr|) then 0 else 1))
      ensures old(HasField(key)) ==> r.Ok? && arr == old(arr) && node == old(node)
      decreases if HasRoom() || InArray(key, |arr|) then 0 else 1, 3
    {
      var p := Get(key);
      if p != NilObject { return Ok(p); }
      if key == NilKey { return Err(IndexIsNil); }
      r := NewKey(key);
    }

    /** luaH_setnum */
    method SetNum(key: int) returns (r: Result<Slot, Error>)
      requires Valid()
      modifies this
      ensures r.Ok? ==> Valid() && IsSlot(r.value, Number(key)) && SameEntries()
      ensures r.Err? ==> r.error == TableOverflow && old(EntryCount()) >= MAXASIZE
      ensures old(HasRoom()) || InArray(Number(key), |old(arr)|) ==>
                r.Ok? && Added(Number(key), if InArray(Number(key), |arr|) then 0 else 1)
      ensures old(HasField(Number(key))) ==> r.Ok? && arr == old(arr) && node == old(node)
      decreases if HasRoom() || InArray(Number(key), |arr|) then 0 else 1, 3
    {
      var p := GetNum(key);
      if p != NilObject { return Ok(p); }
      r := NewKey(Number(key));
    }

    // ----- rehash -----

    method SetNodeVector(size: nat) returns (ok: bool)
      modifies this`node, this`lsizenode, this`isDummy, this`lastfree, this`tails
      ensures ok == (size == 0 || CeilLog2(size) <= MAXBITS)
      ensures ok ==>
                && |node| == Pow2(lsizenode) && |node| >= size && (isDummy <==> size == 0)
                && node == EmptyNodes(|node|) && tails == EmptyTails(|node|)
                && lastfree == (if size == 0 then 0 else |node|) && (size == 0 ==> |node| == 1)
      ensures !ok ==> node == old(node) && tails == old(tails) && lsizenode == old(lsizenode)
                      && isDummy == old(isDummy) && lastfree == old(lastfree)
    {
      if size == 0 {
        node, tails, isDummy, lsizenode, lastfree := EmptyNodes(1), EmptyTails(1), true, 0, 0;
      } else {
        var lsize := CeilLog2(size);
        if lsize > MAXBITS { return false; }
        node, tails, isDummy, lsizenode := EmptyNodes(Pow2(lsize)), EmptyTails(Pow2(lsize)), false, lsize;
        lastfree := |node|;
      }
      return true;
    }

    /** Every node with a key has a value. */
    ghost predicate NoDeadKeys()
      reads this
    {
      forall key :: key != NilKey && HasKey(node, key) ==> Lookup(key) != Nil
    }

    /** luaH_set or luaH_setnum, and the assignment behind it, while a table is refilled: there is room for the
        key, so nothing is resized. */
    method Refill(key: Key, v: Value)
      requires Valid() && NoDeadKeys() && key != NilKey && v != Nil && (HasRoom() || InArray(key, |arr|))
      modifies this
      ensures Valid() && NoDeadKeys() && |arr| == |old(arr)| && |node| == |old(node)| && isDummy == old(isDummy)
      ensures Stored(old(arr), old(node), arr, node, key, v)
      ensures CountKeys(node) <= CountKeys(old(node)) + if InArray(key, |arr|) then 0 else 1
      decreases 0, 5
    {
      hide HashOk, CountKeys, HashValue;
      var r := Set(key);
      label L:
      Store(r.value, v, key);
      SameKeysCount(old@L(node), node);
      forall k | k != NilKey && HasKey(node, k)
        ensures HasKey(old@L(node), k)
      {
        var i :| 0 <= i < |node| && node[i].key == k;
        assert old@L(node)[i].key == k;
      }
      forall k | k != NilKey
        ensures ValueIn(arr, node, k) == if k == key then v else ValueIn(old(arr), old(node), k)
      {
        assert Lookup(k) == if k == key then v else old@L(Lookup(k));
        assert old@L(Lookup(k)) == old(Lookup(k));
      }
    }

    /** Before resize refills the table: the array part has its new size, the hash part is empty. */
    ghost predicate Emptied(oldarr: seq<Value>, nasize: nat)
      reads this
    {
      && |arr| == nasize <= MAXASIZE
      && arr[..Min(|oldarr|, nasize)] == oldarr[..Min(|oldarr|, nasize)]
      && (forall j :: Min(|oldarr|, nasize) <= j < |arr| ==> arr[j] == Nil)
      && |node| == Pow2(lsizenode) && node == EmptyNodes(|node|) && tails == EmptyTails(|node|)
      && lastfree == (if isDummy then 0 else |node|) && (isDummy ==> |node| == 1)
    }

    lemma EmptiedFacts(oldarr: seq<Value>, nasize: nat, oldnode: seq<Node>)
      requires Emptied(oldarr, nasize)
      requires UniqueKeys(oldnode) && forall j :: 0 <= j < |oldnode| ==> !InArray(oldnode[j].key, |oldarr|)
      ensures Valid() && NoDeadKeys() && CountKeys(node) == 0
      ensures Transferring(oldarr, Min(|oldarr|, nasize), oldnode, |oldnode|, arr, node)
    {
      EmptyHash(hash, |node|);
      NoKeys(node);
      TransferStart(oldarr, oldnode, arr, node, Min(|oldarr|, nasize));
    }

    /** The first loop of resize: what the array part loses goes to the hash part. */
    method RefillSlice(oldarr: seq<Value>, nasize: nat, ghost oldnode: seq<Node>)
      requires Valid() && NoDeadKeys() && nasize < |oldarr| && |arr| == nasize && CountKeys(node) == 0
      requires forall j :: 0 <= j < |oldnode| ==> !InArray(oldnode[j].key, |oldarr|)
      requires Transferring(oldarr, nasize, oldnode, |oldnode|, arr, node)
      requires CountValues(oldarr) > CountValues(oldarr[..nasize]) ==>
                 !isDummy && CountValues(oldarr) - CountValues(oldarr[..nasize]) <= |node|
      modifies this
      ensures Valid() && NoDeadKeys() && |arr| == nasize && |node| == |old(node)| && isDummy == old(isDummy)
      ensures Transferring(oldarr, |oldarr|, oldnode, |oldnode|, arr, node)
      ensures CountKeys(node) <= CountValues(oldarr) - CountValues(oldarr[..nasize])
      decreases 0, 6
    {
      hide HashOk, CountKeys, HashValue, Transferring, Stored, NoDeadKeys, CountValues;
      var i := nasize;
      while i < |oldarr|
        invariant nasize <= i <= |oldarr| && Valid() && NoDeadKeys() && |arr| == nasize
        invariant |node| == |old(node)| && isDummy == old(isDummy)
        invariant Transferring(oldarr, i, oldnode, |oldnode|, arr, node)
        invariant CountKeys(node) <= CountValues(oldarr[..i]) - CountValues(oldarr[..nasize])
      {
        ghost var arr', node' := arr, node;
        CountValuesStep(oldarr, i);
        CountValuesPrefix(oldarr, i + 1);
        if oldarr[i] != Nil { Refill(Number(i + 1), oldarr[i]); }
        TransferValue(oldarr, i, oldnode, arr', node', arr, node);
        i := i + 1;
      }
      assert oldarr[..i] == oldarr;
    }

    /** The second loop of resize: the old nodes, from the last one down. */
    method RefillNodes(oldnode: seq<Node>, nasize: nat, ghost oldarr: seq<Value>)
      requires Valid() && NoDeadKeys() && |arr| == nasize && UniqueKeys(oldnode)
      requires forall j :: 0 <= j < |oldnode| ==> !InArray(oldnode[j].key, |oldarr|)
      requires forall j :: 0 <= j < |oldnode| && oldnode[j].val != Nil ==> oldnode[j].key != NilKey
      requires Transferring(oldarr, |oldarr|, oldnode, |oldnode|, arr, node)
      requires CountAbove(oldnode, nasize) > 0 ==> !isDummy && CountKeys(node) + CountAbove(oldnode, nasize) <= |node|
      modifies this
      ensures Valid() && NoDeadKeys() && |arr| == nasize && |node| == |old(node)| && isDummy == old(isDummy)
      ensures Transferring(oldarr, |oldarr|, oldnode, 0, arr, node)
      ensures CountKeys(node) <= CountKeys(old(node)) + CountAbove(oldnode, nasize)
      decreases 0, 6
    {
      hide HashOk, CountKeys, HashValue, Transferring, Stored, NoDeadKeys, CountAbove;
      var i := |oldnode|;
      assert oldnode[..i] == oldnode;
      while i > 0
        invariant 0 <= i <= |oldnode| && Valid() && NoDeadKeys() && |arr| == nasize
        invariant |node| == |old(node)| && isDummy == old(isDummy)
        invariant Transferring(oldarr, |oldarr|, oldnode, i, arr, node)
        invariant CountKeys(node) + CountAbove(oldnode[..i], nasize)
               <= CountKeys(old(node)) + CountAbove(oldnode, nasize)
      {
        i := i - 1;
        ghost var arr', node' := arr, node;
        CountAboveStep(oldnode, i, nasize);
        if oldnode[i].val != Nil { Refill(oldnode[i].key, oldnode[i].val); }
        TransferNode(oldarr, oldnode, i, arr', node', arr, node);
      }
    }

    method Resize(nasize: nat, nhsize: nat) returns (ok: bool)
      requires Valid() && nasize <= MAXASIZE && nhsize >= HashNeed(arr, node, nasize)
      modifies this
      ensures ok == (nhsize == 0 || CeilLog2(nhsize) <= MAXBITS)
      ensures ok ==>
                && Valid() && SameEntries() && NoDeadKeys() && |arr| == nasize && |node| >= nhsize
                && (isDummy <==> nhsize == 0) && CountKeys(node) <= HashNeed(old(arr), old(node), nasize)
      decreases 1, 0
    {
      hide HashOk, CountKeys, HashValue, Transferring, CountValues, CountAbove;
      var oldarr, oldnode := arr, node;
      OldFacts();
      if nasize > |arr| { arr := arr + seq(nasize - |arr|, _ => Nil); }
      ok := SetNodeVector(nhsize);
      if !ok { return; }
      CountValuesPrefix(oldarr, Min(nasize, |oldarr|));
      if nasize < |oldarr| {
        arr := arr[..nasize];
        EmptiedFacts(oldarr, nasize, oldnode);
        RefillSlice(oldarr, nasize, oldnode);
      } else {
        assert oldarr[..|oldarr|] == oldarr;
        EmptiedFacts(oldarr, nasize, oldnode);
      }
      RefillNodes(oldnode, nasize, oldarr);
      forall key | key != NilKey
        ensures Lookup(key) == old(Lookup(key))
      {
        TransferEnd(oldarr, oldnode, arr, node, key);
      }
    }

    lemma OldFacts()
      requires Valid()
      ensures UniqueKeys(node) && forall j :: 0 <= j < |node| && node[j].val != Nil ==> node[j].key != NilKey
    {
      forall j | 0 <= j < |node| && node[j].val != Nil
        ensures node[j].key != NilKey
      {
        assert FreeAt(node, j);
      }
    }

    /** countint */
    method CountInt(key: Key, nums: array<int>, ghost used: int -> bool, ghost used': int -> bool) returns (c: int)
      requires Counts(nums[..], used)
      requires key.Number? ==> !used(key.n) && forall x :: used'(x) <==> used(x) || x == key.n
      requires !key.Number? ==> forall x :: used'(x) <==> used(x)
      modifies nums
      ensures Counts(nums[..], used') && c == if InArray(key, MAXASIZE) then 1 else 0
    {
      hide Counts;
      CountsLength(nums[..], used);
      if key.Number? { CountMore(nums[..], used, used', key.n); } else { SameUsed(nums[..], used, used'); }
      if InArray(key, MAXASIZE) {
        var l := CeilLog2(key.n);
        nums[l] := nums[l] + 1;
        return 1;
      }
      return 0;
    }

    lemma CountsLength(nums: seq<int>, used: int -> bool)
      requires Counts(nums, used)
      ensures |nums| == MAXBITS + 1
    {
    }

    /** numusearray */
    method NumUseArray(nums: array<int>) returns (ause: int)
      requires |arr| <= MAXASIZE && nums.Length == MAXBITS + 1 && forall i :: 0 <= i < nums.Length ==> nums[i] == 0
      modifies nums
      ensures Counts(nums[..], ArrayInts(arr)) && ause == CountValues(arr)
    {
      hide SlicesCounted, Counts, Within, CountValues;
      ghost var used := ArrayInts(arr);
      NoSlices(nums[..], used);
      var lg, ttlg: nat := 0, 1;
      var i := 1;
      ause := 0;
      ghost var half: nat := 0;
      while lg <= MAXBITS
        invariant 0 <= lg <= MAXBITS + 1 && ttlg == Pow2(lg) && half == (if lg == 0 then 0 else Pow2(lg - 1))
        invariant i == Min(half, |arr|) + 1 && ause == |Within(used, half)| && SlicesCounted(nums[..], used, lg)
      {
        var lc := 0;
        var lim := ttlg;
        if lim > |arr| {
          lim := |arr|;
          if i > lim { break; }
        }
        while i <= lim
          invariant half < i <= lim + 1 && lc == |Within(used, i - 1)| - |Within(used, half)| && lc >= 0
          invariant SlicesCounted(nums[..], used, lg)
        {
          WithinStep(used, i);
          if arr[i-1] != Nil { lc := lc + 1; }
          i := i + 1;
        }
        WithinBeyond(arr, lim, ttlg);
        SliceCounted(nums[..], used, lg, lc);
        nums[lg] := nums[lg] + lc;
        ause := ause + lc;
        half := ttlg;
        lg, ttlg := lg + 1, 2 * ttlg;
      }
      MaxArraySize();
      AllSlices(nums[..], arr, lg, half);
      ArrayCount(arr, half);
      assert arr[..Min(half, |arr|)] == arr;
    }

    /** numusehash */
    method NumUseHash(nums: array<int>) returns (totaluse: int, ause: int)
      requires Valid() && Counts(nums[..], ArrayInts(arr))
      modifies nums
      ensures Counts(nums[..], UsedIn(arr, node, 0, |node|)) && totaluse == CountEntries(node)
      ensures ause == |Within(UsedIn(arr, node, 0, |node|), MAXASIZE)| - |Within(ArrayInts(arr), MAXASIZE)|
    {
      hide Counts, HashOk, CountEntries;
      OldFacts();
      totaluse, ause := 0, 0;
      var i := |node|;
      SameUsed(nums[..], ArrayInts(arr), UsedIn(arr, node, i, |node|));
      assert Within(UsedIn(arr, node, i, |node|), MAXASIZE) == Within(ArrayInts(arr), MAXASIZE);
      assert node[..i] == node;
      while i > 0
        invariant 0 <= i <= |node| && Counts(nums[..], UsedIn(arr, node, i, |node|))
        invariant totaluse == CountEntries(node) - CountEntries(node[..i])
        invariant ause == |Within(UsedIn(arr, node, i, |node|), MAXASIZE)| - |Within(ArrayInts(arr), MAXASIZE)|
      {
        i := i - 1;
        ghost var used, used' := UsedIn(arr, node, i + 1, |node|), UsedIn(arr, node, i, |node|);
        EntriesStep(node, i);
        OneMoreNode(i);
        if node[i].val != Nil {
          var c := CountInt(node[i].key, nums, used, used');
          if node[i].key.Number? { WithinAdd(used, used', node[i].key.n, MAXASIZE); }
          ause := ause + c;
          totaluse := totaluse + 1;
        } else {
          SameUsed(nums[..], used, used');
        }
        if !(node[i].val != Nil && node[i].key.Number?) { assert Within(used', MAXASIZE) == Within(used, MAXASIZE); }
      }
      EntriesNone(node);
    }

    lemma OneMoreNode(i: nat)
      requires Valid() && i < |node|
      ensures var used, used' := UsedIn(arr, node, i + 1, |node|), UsedIn(arr, node, i, |node|);
              if node[i].val != Nil && node[i].key.Number?
              then !used(node[i].key.n) && forall x :: used'(x) <==> used(x) || x == node[i].key.n
              else forall x :: used'(x) <==> used(x)
    {
      OldFacts();
    }

    lemma EntriesNone(nodes: seq<Node>)
      ensures CountEntries(nodes[..0]) == 0
    {
    }

    /** What computesizes is called with, and what its result is good for. */
    lemma SizeFacts(nums: seq<int>, ek: Key, n: nat, na: int)
      requires Valid() && Counts(nums, UsedInts(arr, node, ek)) && Lookup(ek) == Nil && ek != NilKey
      requires Optimal(nums, n) && n <= Pow2(|nums| - 1)
      requires forall j: nat :: j < |nums| && n == Pow2(j) ==> na == Total(nums, j)
      requires n / 2 <= na <= n
      ensures n <= MAXASIZE && OptimalSize(UsedInts(arr, node, ek), n)
      ensures CountValues(arr) + CountEntries(node) + 1 - na == HashNeed(arr, node, n) + if InArray(ek, n) then 0 else 1
    {
      hide HashOk, HashValue, CountBelow, CountAbove, UsedInts, Total, Pow2;
      var used := UsedInts(arr, node, ek);
      MaxArraySize();
      UsedCount(ek, n);
      EntriesSplit(node, n);
      CountedSizes(nums, used, n, na);
      if n > 0 { PowerWithin(nums, n); }
    }

    /** The optimal size, in terms of the integers that were counted. */
    lemma CountedSizes(nums: seq<int>, used: int -> bool, n: nat, na: int)
      requires Counts(nums, used) && Optimal(nums, n)
      requires forall j: nat :: j < |nums| && n == Pow2(j) ==> na == Total(nums, j)
      requires n / 2 <= na <= n
      ensures OptimalSize(used, n) && na == |Within(used, n)|
    {
      forall j: nat | j < |nums| ensures Total(nums, j) == |Within(used, Pow2(j))| { }
      if n == 0 { assert Within(used, 0) == {}; }
    }

    lemma PowerWithin(nums: seq<int>, n: nat)
      requires Optimal(nums, n) && n > 0 && |nums| == MAXBITS + 1
      ensures n <= MAXASIZE
    {
      var j: nat :| j < |nums| && n == Pow2(j);
      MaxArraySize();
      Pow2Grows(j, MAXBITS);
    }

    /** The used integers up to n, counted entry by entry. */
    lemma UsedCount(ek: Key, n: nat)
      requires Valid() && Lookup(ek) == Nil && ek != NilKey
      ensures |Within(UsedInts(arr, node, ek), n)|
           == CountValues(arr[..Min(n, |arr|)]) + CountBelow(node, n) + if InArray(ek, n) then 1 else 0
    {
      OldFacts();
      var used, before := UsedInts(arr, node, ek), UsedIn(arr, node, 0, |node|);
      NodeCount(arr, node, |node|, n);
      assert node[..|node|] == node;
      forall k ensures used(k) <==> before(k) || ek == Number(k) { AllUsed(arr, node, ek, k); }
      if ek.Number? {
        assert !before(ek.n) by { AllUsed(arr, node, NilKey, ek.n); }
        WithinAdd(before, used, ek.n, n);
      } else {
        assert Within(used, n) == Within(before, n);
      }
    }

    /** The number of entries. */
    ghost function EntryCount(): nat
      reads this
    {
      CountValues(arr) + CountEntries(node)
    }

    /** The first part of rehash: the new sizes. */
    method NewSizes(ek: Key) returns (nasize: nat, nhsize: nat)
      requires Valid() && ek != NilKey && !InArray(ek, |arr|) && !HasKey(node, ek)
      ensures nasize <= MAXASIZE && OptimalSize(UsedInts(arr, node, ek), nasize)
      ensures nhsize == HashNeed(arr, node, nasize) + if InArray(ek, nasize) then 0 else 1
      ensures nhsize <= EntryCount() + 1
    {
      hide HashOk, Counts, Optimal, OptimalSize, HashNeed, CountKeys, HashValue, CountValues, CountEntries, UsedInts,
           UsedIn, Total, Pow2, Within;
      var nums := new int[MAXBITS + 1](_ => 0);
      var narray := NumUseArray(nums);
      var totaluse := narray;
      var total, ause := NumUseHash(nums);
      totaluse := totaluse + total;
      narray := narray + ause;
      ExtraKey(ek);
      var c := CountInt(ek, nums, UsedIn(arr, node, 0, |node|), UsedInts(arr, node, ek));
      narray := narray + c;
      totaluse := totaluse + 1;
      NumsFacts(nums[..], ek, narray);
      var n, na := ComputeSizes(nums, narray);
      SizeFacts(nums[..], ek, n, na);
      NeedFacts(n);
      nasize, nhsize := n, totaluse - na;
    }

    /** rehash: the table gets the best size for its entries and the extra key.  It fails only when more hash nodes
        would be needed than 2^MAXBITS. */
    method Rehash(ek: Key) returns (ok: bool)
      requires Valid() && ek != NilKey && !InArray(ek, |arr|) && !HasKey(node, ek)
      modifies this
      ensures ok ==> Valid() && SameEntries() && !HasKey(node, ek) && (HasRoom() || InArray(ek, |arr|))
      ensures ok ==> OptimalSize(UsedInts(old(arr), old(node), ek), |arr|)
      ensures !ok ==> old(EntryCount()) >= MAXASIZE
      decreases 1, 1
    {
      hide HashOk, OptimalSize, HashNeed, CountKeys, HashValue, EntryCount;
      ExtraKey(ek);
      var nasize, nhsize := NewSizes(ek);
      ok := Resize(nasize, nhsize);
      if !ok { TooManyNodes(nhsize); }
    }

    lemma NeedFacts(n: nat)
      ensures HashNeed(arr, node, n) >= 0
    {
      CountValuesPrefix(arr, Min(n, |arr|));
    }

    lemma TooManyNodes(n: nat)
      requires n > 0 && CeilLog2(n) > MAXBITS
      ensures n > MAXASIZE
    {
      MaxArraySize();
      CeilLog2Order(n, MAXBITS);
    }

    lemma ExtraKey(ek: Key)
      requires Valid() && ek != NilKey && !InArray(ek, |arr|) && !HasKey(node, ek)
      ensures Lookup(ek) == Nil
      ensures var used, used' := UsedIn(arr, node, 0, |node|), UsedInts(arr, node, ek);
              && (ek.Number? ==> !used(ek.n) && forall x :: used'(x) <==> used(x) || x == ek.n)
              && (!ek.Number? ==> forall x :: used'(x) <==> used(x))
    {
      forall x
        ensures UsedInts(arr, node, ek)(x) <==> UsedIn(arr, node, 0, |node|)(x) || ek == Number(x)
      {
        AllUsed(arr, node, ek, x);
      }
    }

    lemma NumsFacts(nums: seq<int>, ek: Key, narray: int)
      requires Valid() && ek != NilKey && Lookup(ek) == Nil && Counts(nums, UsedInts(arr, node, ek))
      requires narray == CountValues(arr)
                         + |Within(UsedIn(arr, node, 0, |node|), MAXASIZE)| - |Within(ArrayInts(arr), MAXASIZE)|
                         + if InArray(ek, MAXASIZE) then 1 else 0
      ensures |nums| == MAXBITS + 1 && (forall i :: 0 <= i < |nums| ==> nums[i] >= 0)
      ensures narray == Total(nums, |nums| - 1) && forall j: nat :: j < |nums| ==> Total(nums, j) <= Pow2(j)
    {
      var used, before := UsedInts(arr, node, ek), UsedIn(arr, node, 0, |node|);
      forall j: nat | j < |nums| ensures Total(nums, j) <= Pow2(j) { WithinAtMost(used, Pow2(j)); }
      MaxArraySize();
      UsedCount(ek, MAXASIZE);
      OldFacts();
      NodeCount(arr, node, |node|, MAXASIZE);
      assert node[..|node|] == node;
      ArrayCount(arr, MAXASIZE);
      assert arr[..|arr|] == arr;
      assert Total(nums, |nums| - 1) == |Within(used, Pow2(|nums| - 1))|;
    }

    // ----- a table is a finite map -----

    /** luaH_new */
    constructor (hash: (Key, nat) -> nat, narray: nat, nhash: nat)
      requires narray <= MAXASIZE && (nhash == 0 || CeilLog2(nhash) <= MAXBITS)
      ensures Valid() && Contents() == map[] && |arr| == narray && |node| >= nhash
    {
      this.hash := hash;
      arr, node, lsizenode, isDummy, lastfree, tails := seq(narray, _ => Nil), EmptyNodes(1), 0, true, 0, EmptyTails(1);
      new;
      var ok := SetNodeVector(nhash);
      assert arr[..0] == [];
      EmptiedFacts([], narray, []);
      forall key | key in Contents() ensures false { NewLookup(key); }
    }

    lemma NewLookup(key: Key)
      requires Valid() && CountKeys(node) == 0 && forall j :: 0 <= j < |arr| ==> arr[j] == Nil
      ensures key !in Contents()
    {
      forall i | 0 <= i < |node| ensures node[i].key == NilKey { NoKeysCounted(node, i); }
    }

    /** The value of an integer key, by luaH_getnum. */
    method GetNumValue(key: int) returns (v: Value)
      requires Valid()
      ensures v == if Number(key) in Contents() then Contents()[Number(key)] else Nil
    {
      var slot := GetNum(key);
      v := ValueAt(slot);
      ContentsValue(arr, node, Number(key));
    }

    /** The value of a key, by luaH_get. */
    method GetValue(key: Key) returns (v: Value)
      requires Valid()
      ensures v == if key in Contents() then Contents()[key] else Nil
    {
      var slot := Get(key);
      v := ValueAt(slot);
      ContentsValue(arr, node, key);
    }

    /** t[key] = v, by luaH_set. */
    method SetValue(key: Key, v: Value) returns (r: Result<(), Error>)
      requires Valid()
      modifies this
      ensures key == NilKey ==> r == Err(IndexIsNil) && Valid() && Contents() == old(Contents())
      ensures key != NilKey && r.Ok? ==>
                Valid() && Contents() == if v == Nil then old(Contents()) - {key} else old(Contents())[key := v]
      ensures key != NilKey && r.Err? ==> r.error == TableOverflow && old(EntryCount()) >= MAXASIZE
      ensures old(HasField(key)) ==> r.Ok? && SameFields(old(Snapshot(arr, node)), Snapshot(arr, node))
    {
      hide HashOk, HashValue, EntryCount, ContentsOf;
      ghost var arr', node' := arr, node;
      var slot := Set(key);
      if slot.Err? {
        if key == NilKey { SameContents(arr', node'); }
        return Err(slot.error);
      }
      label M:
      Store(slot.value, v, key);
      forall k | k != NilKey
        ensures ValueIn(arr, node, k) == if k == key then v else ValueIn(arr', node', k)
      {
        assert Lookup(k) == if k == key then v else old@M(Lookup(k));
        assert old@M(Lookup(k)) == old(Lookup(k));
      }
      ContentsStored(arr', node', arr, node, key, v);
      return Ok(());
    }

    /** t[key] = v for an integer, by luaH_setnum, which looks in the array part first. */
    method SetNumValue(key: int, v: Value) returns (r: Result<(), Error>)
      requires Valid()
      modifies this
      ensures r.Ok? ==>
                && Valid()
                && Contents() == if v == Nil then old(Contents()) - {Number(key)} else old(Contents())[Number(key) := v]
      ensures r.Err? ==> r.error == TableOverflow && old(EntryCount()) >= MAXASIZE
      ensures old(HasField(Number(key))) ==> r.Ok? && SameFields(old(Snapshot(arr, node)), Snapshot(arr, node))
    {
      hide HashOk, HashValue, EntryCount, ContentsOf;
      ghost var arr', node' := arr, node;
      var slot := SetNum(key);
      if slot.Err? { return Err(slot.error); }
      label M:
      Store(slot.value, v, Number(key));
      forall k | k != NilKey
        ensures ValueIn(arr, node, k) == if k == Number(key) then v else ValueIn(arr', node', k)
      {
        assert Lookup(k) == if k == Number(key) then v else old@M(Lookup(k));
        assert old@M(Lookup(k)) == old(Lookup(k));
      }
      ContentsStored(arr', node', arr, node, Number(key), v);
      return Ok(());
    }

    /** The number of entries is the size of the map. */
    lemma CountIsSize()
      requires Valid()
      ensures EntryCount() == |Contents()|
    {
      hide HashOk;
      OldFacts();
      EntriesCounted(arr, node);
    }

    /** One store, by luaH_setnum for an integer. */
    method StoreOne(key: Key, v: Value) returns (r: Result<(), Error>)
      requires Valid() && key != NilKey
      modifies this
      ensures r.Ok? ==>
                Valid() && Contents() == if v == Nil then old(Contents()) - {key} else old(Contents())[key := v]
      ensures r.Err? ==> r.error == TableOverflow && |old(Contents())| >= MAXASIZE
      ensures old(HasField(key)) ==> r.Ok? && SameFields(old(Snapshot(arr, node)), Snapshot(arr, node))
    {
      hide HashOk, HashValue, EntryCount, ContentsOf, SameFields;
      CountIsSize();
      if key.Number? {
        r := SetNumValue(key.n, v);
      } else {
        r := SetValue(key, v);
      }
    }

    /** A sequence of stores, with all the rehashes that they cause: the table holds what a finite map would hold.  It
        fails only with 2^26 entries.  Stores to existing fields never fail, and move nothing. */
    method StoreAll(stores: seq<(Key, Value)>) returns (r: Result<(), Error>)
      requires Valid() && forall i :: 0 <= i < |stores| ==> stores[i].0 != NilKey
      modifies this
      ensures r.Ok? ==> Valid() && Contents() == Applied(old(Contents()), stores)
      ensures r.Err? ==> r.error == TableOverflow
                         && exists i :: 0 <= i < |stores| && |Applied(old(Contents()), stores[..i])| >= MAXASIZE
      ensures old(AllFields(stores)) ==> r.Ok? && SameFields(old(Snapshot(arr, node)), Snapshot(arr, node))
    {
      hide HashOk, HashValue, ContentsOf, SameFields;
      ghost var st := Snapshot(arr, node);
      NothingAssigned(st, x => x);
      var i := 0;
      while i < |stores|
        invariant 0 <= i <= |stores| && Valid() && Contents() == Applied(old(Contents()), stores[..i])
        invariant old(AllFields(stores)) ==> SameFields(st, Snapshot(arr, node))
      {
        var (key, v) := stores[i];
        assert stores[..i+1][..i] == stores[..i];
        if old(AllFields(stores)) { FieldStays(st, Snapshot(arr, node), key); }
        ghost var st1 := Snapshot(arr, node);
        r := StoreOne(key, v);
        if r.Err? { return; }
        if old(AllFields(stores)) { SameFieldsTrans(st, st1, Snapshot(arr, node)); }
        i := i + 1;
      }
      assert stores[..i] == stores;
      r := Ok(());
    }

    ghost predicate AllFields(stores: seq<(Key, Value)>)
      reads this
    {
      forall i :: 0 <= i < |stores| ==> HasField(stores[i].0)
    }

    lemma SameContents(arr': seq<Value>, node': seq<Node>)
      requires forall k :: k != NilKey ==> ValueIn(arr', node', k) == Lookup(k)
      ensures Contents() == ContentsOf(arr', node')
    {
      forall k
        ensures k in Contents() <==> k in ContentsOf(arr', node')
      {
        ContentsValue(arr, node, k);
        ContentsValue(arr', node', k);
      }
    }

    // ----- traversal -----

    /** findindex: where a traversal goes on; array elements come before nodes. */
    method FindIndex(key: Key) returns (r: Result<int, Error>)
      requires Valid()
      ensures key == NilKey ==> r == Ok(-1)
      ensures key != NilKey ==>
                if InArray(key, |arr|) || HasKey(node, key)
                then r.Ok? && 0 <= r.value < |arr| + |node| && KeyAt(arr, node, r.value) == key
                else r == Err(InvalidKeyToNext)
    {
      hide HashOk, HashValue;
      if key == NilKey { return Ok(-1); }
      if InArray(key, |arr|) { return Ok(key.n - 1); }
      var slot := FindNode(key);
      if slot == NilObject { return Err(InvalidKeyToNext); }
      return Ok(slot.i + |arr|);
    }

    /** luaH_next: the next entry of a traversal, or nil at its end. */
    method Next(key: Key) returns (r: Result<(Key, Value), Error>)
      requires Valid()
      ensures if key == NilKey || InArray(key, |arr|) || HasKey(node, key)
              then r.Ok? && IsNext(arr, node, key, r.value.0) && r.value.1 == Lookup(r.value.0)
                   && (r.value.0 != NilKey ==> HasField(r.value.0) && r.value.1 != Nil)
              else r == Err(InvalidKeyToNext)
    {
      hide HashOk, HashValue, IndexOf;
      var f := FindIndex(key);
      if f.Err? { return Err(f.error); }
      var i := f.value + 1;
      IndexUnique(f.value, key);
      while i < |arr|
        invariant f.value < i && i <= |arr| + |node|
        invariant forall j :: f.value < j < i ==> EntryAt(arr, node, j) == Nil
      {
        if arr[i] != Nil {
          IndexUnique(i, Number(i + 1));
          assert Lookup(Number(i + 1)) == arr[i];
          return Ok((Number(i + 1), arr[i]));
        }
        i := i + 1;
      }
      while i < |arr| + |node|
        invariant f.value < i && |arr| <= i <= |arr| + |node|
        invariant forall j :: f.value < j < i ==> EntryAt(arr, node, j) == Nil
      {
        var n := node[i-|arr|];
        if n.val != Nil {
          NodeEntry(i - |arr|);
          return Ok((n.key, n.val));
        }
        i := i + 1;
      }
      NoValueForNil();
      return Ok((NilKey, Nil));
    }

    lemma NoValueForNil()
      requires Valid()
      ensures Lookup(NilKey) == Nil
    {
      OldFacts();
    }

    lemma NodeEntry(n: nat)
      requires Valid() && n < |node| && node[n].val != Nil
      ensures node[n].key != NilKey && Lookup(node[n].key) == node[n].val
      ensures IndexOf(arr, node, node[n].key) == n + |arr|
    {
      assert FreeAt(node, n);
      HashValueAt(node, n);
      IndexUnique(n + |arr|, node[n].key);
    }

    /** A key has one index. */
    lemma IndexUnique(i: int, key: Key)
      requires Valid()
      requires if key == NilKey then i == -1 else 0 <= i < |arr| + |node| && KeyAt(arr, node, i) == key
      ensures IndexOf(arr, node, key) == i
    {
      if i >= 0 {
        forall j | 0 <= j < |arr| + |node| && KeyAt(arr, node, j) == key
          ensures j == i
        {
          assert j >= |arr| ==> !InArray(node[j-|arr|].key, |arr|);
          assert i >= |arr| ==> !InArray(node[i-|arr|].key, |arr|);
        }
      }
    }

    lemma KeysAreOnce()
      requires Valid()
      ensures Snapshot(arr, node).KeysOnce()
    {
      forall i, j | 0 <= i < |arr| + |node| && 0 <= j < |arr| + |node|
                    && KeyAt(arr, node, i) == KeyAt(arr, node, j) != NilKey
        ensures i == j
      {
        IndexUnique(i, KeyAt(arr, node, i));
        IndexUnique(j, KeyAt(arr, node, i));
      }
    }

    lemma EntriesAreIndexed()
      requires Valid()
      ensures Snapshot(arr, node).Indexed()
    {
      hide HashOk, ContentsOf;
      OldFacts();
      var st := Snapshot(arr, node);
      forall key | key in st.Contents()
        ensures exists i :: 0 <= i < st.Size() && KeyAt(st.arr, st.node, i) == key && EntryAt(st.arr, st.node, i) != Nil
      {
        ContentsValue(arr, node, key);
        if InArray(key, |arr|) {
          assert KeyAt(st.arr, st.node, key.n - 1) == key;
        } else {
          var n :| 0 <= n < |node| && node[n].key == key;
          HashValueAt(node, n);
          assert KeyAt(st.arr, st.node, |arr| + n) == key;
        }
      }
    }

    lemma EntryInContents(key: Key)
      requires key != NilKey && Lookup(key) != Nil
      ensures key in Contents() && Contents()[key] == Lookup(key)
    {
      ContentsValue(arr, node, key);
    }

    lemma AllFieldsStay(st0: Snapshot, stores: seq<(Key, Value)>)
      requires SameFields(st0, Snapshot(arr, node))
      requires forall i :: 0 <= i < |stores| ==>
        stores[i].0 != NilKey && (InArray(stores[i].0, |st0.arr|) || HasKey(st0.node, stores[i].0))
      ensures AllFields(stores)
    {
      forall i | 0 <= i < |stores| ensures HasField(stores[i].0) { FieldStays(st0, Snapshot(arr, node), stores[i].0); }
    }

    /** A whole traversal: after each call of luaH_next the caller assigns to existing fields, whatever it likes,
        knowing all entries that it has seen.  The traversal ends, and each entry that stays there is visited exactly
        once. */
    method Traverse(assign: seq<(Key, Value)> -> seq<(Key, Value)>)
      returns (es: seq<(Key, Value)>, ghost sts: seq<Snapshot>)
      requires Valid() && forall seen :: AllFields(assign(seen))
      modifies this
      ensures Valid() && |es| <= |old(arr)| + |old(node)| && |sts| == |es| + 1
      ensures sts[0] == old(Snapshot(arr, node)) && sts[|es|] == Snapshot(arr, node)
      ensures Traversal(sts, KeysOf(es) + [NilKey]) && Assigns(sts, es, assign)
      ensures forall j :: 0 <= j < |es| ==>
                es[j].1 != Nil && es[j].0 in sts[j].Contents() && sts[j].Contents()[es[j].0] == es[j].1
      ensures forall key :: (forall j :: 0 <= j < |sts| ==> key in sts[j].Contents()) ==> VisitedOnce(es, key)
    {
      hide HashOk, HashValue, ContentsOf, Traversal, IsNext, IndexOf, SameFields, Assigns, Snapshot.KeysOnce,
           Snapshot.Indexed, KeysOf, VisitedOnce;
      ghost var st0 := Snapshot(arr, node);
      es, sts := [], [];
      var key := NilKey;
      NothingAssigned(st0, assign);
      while true
        invariant Valid() && SameFields(st0, Snapshot(arr, node)) && |sts| == |es| <= st0.Size()
        invariant if es == [] then key == NilKey && Snapshot(arr, node) == st0
                  else key == es[|es|-1].0 && HasField(key) && sts[0] == st0 && Traversal(sts, KeysOf(es))
        invariant Assigns(sts + [Snapshot(arr, node)], es, assign)
        invariant forall j :: 0 <= j < |sts| ==> sts[j].KeysOnce() && sts[j].Indexed()
        invariant forall j :: 0 <= j < |es| ==>
                    es[j].1 != Nil && es[j].0 in sts[j].Contents() && sts[j].Contents()[es[j].0] == es[j].1
        decreases st0.Size() - |es|
      {
        KeysAreOnce();
        EntriesAreIndexed();
        var r := Next(key);
        var e := r.value;
        ghost var st := Snapshot(arr, node);
        TraversalGoesOn(st0, sts, es, st, e);
        sts := sts + [st];
        if e.0 == NilKey {
          AllVisited(sts, es);
          return;
        }
        EntryInContents(e.0);
        TraversalEnds(sts, KeysOf(es + [e]));
        AllFieldsStay(st0, assign(es + [e]));
        var stored := StoreAll(assign(es + [e]));
        AssignsMore(sts, es, e, Snapshot(arr, node), assign);
        SameFieldsTrans(st0, st, Snapshot(arr, node));
        FieldStays(st, Snapshot(arr, node), e.0);
        es, key := es + [e], e.0;
      }
    }

    // ----- length -----

    /** t[n] is not nil and t[n+1] is nil; 0 is a boundary if t[1] is nil. */
    ghost predicate IsBoundary(n: int)
      reads this
    {
      n >= 0 && (n > 0 ==> Lookup(Number(n)) != Nil) && Lookup(Number(n + 1)) == Nil
    }

    lemma {:induction false} RunIsShort(n: nat)
      requires Valid() && forall k :: 1 <= k <= n ==> Lookup(Number(k)) != Nil
      ensures n <= |arr| + |node|
    {
      var used := UsedInts(arr, node, NilKey);
      assert forall k :: 1 <= k <= n ==> Lookup(Number(k)) != Nil && used(k);
      WithinAll(used, n);
      OldFacts();
      var before := UsedIn(arr, node, 0, |node|);
      forall k ensures used(k) <==> before(k) { AllUsed(arr, node, NilKey, k); }
      assert Within(used, n) == Within(before, n);
      NodeCount(arr, node, |node|, n);
    }

    method UnboundSearch(j0: nat) returns (n: int)
      requires Valid() && (j0 > 0 ==> Lookup(Number(j0)) != Nil) && j0 < MAX_INT
      ensures IsBoundary(n)
    {
      hide HashOk, HashValue;
      var i, j := j0, j0 + 1;
      var slot := GetNum(j);
      while ValueAt(slot) != Nil
        invariant 0 <= i < j <= MAX_INT && (i > 0 ==> Lookup(Number(i)) != Nil) && ValueAt(slot) == Lookup(Number(j))
        decreases MAX_INT - j
      {
        i := j;
        j := j * 2;
        if j > MAX_INT {  // give up doubling
          n := LinearSearch();
          return;
        }
        slot := GetNum(j);
      }
      while j - i > 1
        invariant 0 <= i < j && (i > 0 ==> Lookup(Number(i)) != Nil) && Lookup(Number(j)) == Nil
      {
        var m := (i + j) / 2;
        slot := GetNum(m);
        if ValueAt(slot) == Nil { j := m; } else { i := m; }
      }
      return i;
    }

    method LinearSearch() returns (n: int)
      requires Valid()
      ensures IsBoundary(n)
    {
      hide HashOk, HashValue;
      var i := 1;
      var slot := GetNum(i);
      while ValueAt(slot) != Nil
        invariant i >= 1 && ValueAt(slot) == Lookup(Number(i)) && forall k :: 1 <= k < i ==> Lookup(Number(k)) != Nil
        decreases |arr| + |node| + 1 - i
      {
        RunIsShort(i);
        i := i + 1;
        slot := GetNum(i);
      }
      return i - 1;
    }

    /** luaH_getn */
    method GetN() returns (n: int)
      requires Valid()
      ensures IsBoundary(n)
    {
      hide HashOk;
      var j := |arr|;
      if j > 0 && arr[j-1] == Nil {
        var i := 0;
        while j - i > 1
          invariant 0 <= i < j <= |arr| && (i > 0 ==> arr[i-1] != Nil) && arr[j-1] == Nil
        {
          var m := (i + j) / 2;
          if arr[m-1] == Nil { j := m; } else { i := m; }
        }
        return i;
      }
      if isDummy { return j; }
      n := UnboundSearch(j);
    }
  }

  /** The finite map after a sequence of stores; a store of nil removes the key. */
  ghost function Applied(m: map<Key, Value>, stores: seq<(Key, Value)>): map<Key, Value> {
    if stores == [] then m
    else
      var m', (key, v) := Applied(m, stores[..|stores|-1]), stores[|stores|-1];
      if v == Nil then m' - {key} else m'[key := v]
  }

  /** The key and the value at an index of a traversal. */
  function KeyAt(arr: seq<Value>, node: seq<Node>, i: int): Key
    requires 0 <= i < |arr| + |node|
  {
    if i < |arr| then Number(i + 1) else node[i-|arr|].key
  }

  function EntryAt(arr: seq<Value>, node: seq<Node>, i: int): Value
    requires 0 <= i < |arr| + |node|
  {
    if i < |arr| then arr[i] else node[i-|arr|].val
  }

  ghost function IndexOf(arr: seq<Value>, node: seq<Node>, key: Key): int {
    if key == NilKey then -1
    else if exists i :: 0 <= i < |arr| + |node| && KeyAt(arr, node, i) == key then
      var i :| 0 <= i < |arr| + |node| && KeyAt(arr, node, i) == key; i
    else -1
  }

  /** key' is the key of the first entry behind `key`, or nil if there is none. */
  ghost predicate IsNext(arr: seq<Value>, node: seq<Node>, key: Key, key': Key) {
    var i := IndexOf(arr, node, key);
    if key' == NilKey then forall j :: i < j < |arr| + |node| ==> EntryAt(arr, node, j) == Nil
    else
      var i' := IndexOf(arr, node, key');
      && i < i' < |arr| + |node| && KeyAt(arr, node, i') == key' && EntryAt(arr, node, i') != Nil
      && forall j :: i < j < i' ==> EntryAt(arr, node, j) == Nil
  }

  /** The two parts of a table at one time. */
  datatype Snapshot = Snapshot(arr: seq<Value>, node: seq<Node>) {
    ghost predicate KeysOnce() {
      forall i, j :: 0 <= i < Size() && 0 <= j < Size() && KeyAt(arr, node, i) == KeyAt(arr, node, j) != NilKey ==>
        i == j
    }

    function Size(): nat {
      |arr| + |node|
    }

    ghost function Contents(): map<Key, Value> {
      ContentsOf(arr, node)
    }

    /** Each entry is in one of the two parts. */
    ghost predicate Indexed() {
      forall key :: key in Contents() ==>
        exists i :: 0 <= i < Size() && KeyAt(arr, node, i) == key && EntryAt(arr, node, i) != Nil
    }
  }

  /** Only values differ: existing fields were assigned to, or set to nil. */
  ghost predicate SameFields(a: Snapshot, b: Snapshot) {
    && |a.arr| == |b.arr| && |a.node| == |b.node|
    && forall i {:trigger KeyAt(a.arr, a.node, i)} {:trigger KeyAt(b.arr, b.node, i)} :: 0 <= i < a.Size() ==>
         KeyAt(a.arr, a.node, i) == KeyAt(b.arr, b.node, i)
  }

  lemma FieldStays(a: Snapshot, b: Snapshot, key: Key)
    requires SameFields(a, b) && key != NilKey
    ensures InArray(key, |a.arr|) || HasKey(a.node, key) ==> InArray(key, |b.arr|) || HasKey(b.node, key)
  {
    if HasKey(a.node, key) {
      var n :| 0 <= n < |a.node| && a.node[n].key == key;
      assert KeyAt(a.arr, a.node, |a.arr| + n) == KeyAt(b.arr, b.node, |a.arr| + n);
    }
  }

  function KeysOf(es: seq<(Key, Value)>): (ks: seq<Key>)
    ensures |ks| == |es| && forall j :: 0 <= j < |es| ==> ks[j] == es[j].0
  {
    seq(|es|, j requires 0 <= j < |es| => es[j].0)
  }

  /** The states between the calls: after call j, the entry es[j] was returned, and then the caller assigned. */
  ghost predicate Assigns(sts: seq<Snapshot>, es: seq<(Key, Value)>, assign: seq<(Key, Value)> -> seq<(Key, Value)>) {
    |sts| == |es| + 1 && forall j: nat :: j < |es| ==> AssignsAt(sts, es, assign, j)
  }

  ghost predicate AssignsAt(sts: seq<Snapshot>, es: seq<(Key, Value)>, assign: seq<(Key, Value)> -> seq<(Key, Value)>,
                            j: nat)
    requires j < |es| < |sts|
  {
    sts[j+1].Contents() == Applied(sts[j].Contents(), assign(es[..j+1]))
  }

  ghost predicate VisitedOnce(es: seq<(Key, Value)>, key: Key) {
    exists j :: 0 <= j < |es| && es[j].0 == key && forall m :: 0 <= m < |es| && es[m].0 == key ==> m == j
  }

  ghost function ArrayKeys(arr: seq<Value>, k: nat): set<Key>
    requires k <= |arr|
  {
    set n | 1 <= n <= k && arr[n-1] != Nil :: Number(n)
  }

  ghost function NodeKeys(nodes: seq<Node>, m: nat): set<Key>
    requires m <= |nodes|
  {
    set i | 0 <= i < m && IsEntry(nodes[i]) :: nodes[i].key
  }

  lemma ArrayKeysStep(arr: seq<Value>, k: nat)
    requires k < |arr|
    ensures Number(k + 1) !in ArrayKeys(arr, k)
    ensures ArrayKeys(arr, k + 1) == ArrayKeys(arr, k) + if arr[k] == Nil then {} else {Number(k + 1)}
  {
  }

  /** The entries of the array part, as far as k, are counted. */
  lemma {:induction false} ArrayEntries(arr: seq<Value>, k: nat)
    requires k <= |arr|
    ensures |ArrayKeys(arr, k)| == CountValues(arr[..k])
    decreases k
  {
    hide ArrayKeys;
    if k == 0 {
      assert ArrayKeys(arr, k) == {} by { NoArrayKeys(arr); }
    } else {
      ArrayEntries(arr, k - 1);
      CountValuesStep(arr, k - 1);
      ArrayKeysStep(arr, k - 1);
    }
  }

  lemma NoArrayKeys(arr: seq<Value>)
    ensures ArrayKeys(arr, 0) == {}
  {
  }

  lemma NodeKeysStep(nodes: seq<Node>, m: nat)
    requires m < |nodes| && UniqueKeys(nodes)
    ensures IsEntry(nodes[m]) ==> nodes[m].key !in NodeKeys(nodes, m)
    ensures NodeKeys(nodes, m + 1) == NodeKeys(nodes, m) + if IsEntry(nodes[m]) then {nodes[m].key} else {}
    ensures CountEntries(nodes[..m+1]) == CountEntries(nodes[..m]) + if IsEntry(nodes[m]) then 1 else 0
  {
    assert nodes[..m+1][..m] == nodes[..m];
  }

  lemma NoNodeKeys(nodes: seq<Node>)
    ensures NodeKeys(nodes, 0) == {} && CountEntries(nodes[..0]) == 0
  {
  }

  lemma {:induction false} NodeEntries(nodes: seq<Node>, m: nat)
    requires m <= |nodes| && UniqueKeys(nodes)
    ensures |NodeKeys(nodes, m)| == CountEntries(nodes[..m])
    decreases m
  {
    hide NodeKeys, UniqueKeys, CountEntries, IsEntry;
    if m == 0 {
      NoNodeKeys(nodes);
    } else {
      NodeEntries(nodes, m - 1);
      NodeKeysStep(nodes, m - 1);
    }
  }

  /** An entry is in the array or in a node. */
  lemma EntryPlace(arr: seq<Value>, nodes: seq<Node>, key: Key)
    requires UniqueKeys(nodes) && forall i :: 0 <= i < |nodes| ==> !InArray(nodes[i].key, |arr|)
    ensures key in ContentsOf(arr, nodes) <==>
      key in ArrayKeys(arr, |arr|) || key in NodeKeys(nodes, |nodes|)
    ensures !(key in ArrayKeys(arr, |arr|) && key in NodeKeys(nodes, |nodes|))
  {
    hide ContentsOf;
    ContentsValue(arr, nodes, key);
    if InArray(key, |arr|) {
      assert key in ArrayKeys(arr, |arr|) <==> arr[key.n-1] != Nil;
    } else if key != NilKey && HasKey(nodes, key) {
      var i :| 0 <= i < |nodes| && nodes[i].key == key;
      HashValueAt(nodes, i);
    }
  }

  lemma EntriesCounted(arr: seq<Value>, nodes: seq<Node>)
    requires UniqueKeys(nodes) && forall i :: 0 <= i < |nodes| ==> !InArray(nodes[i].key, |arr|)
    ensures CountValues(arr) + CountEntries(nodes) == |ContentsOf(arr, nodes)|
  {
    hide ContentsOf, ArrayKeys, NodeKeys, UniqueKeys;
    var s, t := ArrayKeys(arr, |arr|), NodeKeys(nodes, |nodes|);
    ArrayEntries(arr, |arr|);
    NodeEntries(nodes, |nodes|);
    assert arr[..|arr|] == arr && nodes[..|nodes|] == nodes;
    forall key
      ensures (key in ContentsOf(arr, nodes) <==> key in s || key in t) && !(key in s && key in t)
    {
      EntryPlace(arr, nodes, key);
    }
    assert ContentsOf(arr, nodes).Keys == s + t && s * t == {};
    assert |ContentsOf(arr, nodes)| == |ContentsOf(arr, nodes).Keys|;
  }

  /** ks are the keys that successive calls of luaH_next return, from nil on; before call j the table is sts[j]. */
  ghost predicate Traversal(sts: seq<Snapshot>, ks: seq<Key>) {
    && |sts| == |ks| > 0
    && (forall j {:trigger sts[j]} :: 0 <= j < |sts| ==> sts[j].KeysOnce() && SameFields(sts[0], sts[j]))
    && (forall j {:trigger ks[j]} :: 0 <= j < |ks| - 1 ==> ks[j] != NilKey)
    && forall j: nat :: j < |ks| ==> ReturnsAt(sts, ks, j)
  }

  /** Call j is made with the key before, and returns ks[j]. */
  ghost predicate ReturnsAt(sts: seq<Snapshot>, ks: seq<Key>, j: nat)
    requires j < |ks| == |sts|
  {
    IsNext(sts[j].arr, sts[j].node, if j == 0 then NilKey else ks[j-1], ks[j])
  }

  lemma SameIndex(a: Snapshot, b: Snapshot, key: Key)
    requires a.KeysOnce() && b.KeysOnce() && SameFields(a, b)
    ensures IndexOf(a.arr, a.node, key) == IndexOf(b.arr, b.node, key)
  {
    assert forall i {:trigger KeyAt(a.arr, a.node, i)} {:trigger KeyAt(b.arr, b.node, i)} :: 0 <= i < a.Size() ==>
             (KeyAt(a.arr, a.node, i) == key <==> KeyAt(b.arr, b.node, i) == key);
  }

  ghost function Visited(sts: seq<Snapshot>, ks: seq<Key>, j: int): int
    requires |sts| > 0 && -1 <= j < |ks|
  {
    if j < 0 then -1 else IndexOf(sts[0].arr, sts[0].node, ks[j])
  }

  /** The next key, seen in any state with the same fields. */
  lemma NextInFirst(a: Snapshot, b: Snapshot, key: Key, key': Key)
    requires a.KeysOnce() && b.KeysOnce() && SameFields(a, b) && IsNext(b.arr, b.node, key, key')
    ensures a.Size() == b.Size()
    ensures var i := IndexOf(a.arr, a.node, key);
            var hi := if key' == NilKey then a.Size() else IndexOf(a.arr, a.node, key');
            && (key' != NilKey ==> i < hi < a.Size() && KeyAt(a.arr, a.node, hi) == key')
            && forall p :: i < p < hi ==> 0 <= p < b.Size() && EntryAt(b.arr, b.node, p) == Nil
  {
    SameIndex(a, b, key);
    SameIndex(a, b, key');
    assert IndexOf(a.arr, a.node, key) >= -1;
  }

  /** One step of a traversal, seen in the first state. */
  lemma TraversalStep(sts: seq<Snapshot>, ks: seq<Key>, j: nat)
    requires Traversal(sts, ks) && j < |ks|
    ensures ks[j] != NilKey ==> Visited(sts, ks, j - 1) < Visited(sts, ks, j) < sts[0].Size()
    ensures var hi := if ks[j] == NilKey then sts[0].Size() else Visited(sts, ks, j);
            forall p :: Visited(sts, ks, j - 1) < p < hi ==>
              0 <= p < sts[j].Size() && EntryAt(sts[j].arr, sts[j].node, p) == Nil
    ensures j > 0 ==> ks[j-1] != NilKey
    ensures ks[j] != NilKey ==> KeyAt(sts[0].arr, sts[0].node, Visited(sts, ks, j)) == ks[j]
  {
    hide IsNext, Snapshot.KeysOnce, SameFields, KeyAt, EntryAt;
    assert ReturnsAt(sts, ks, j);
    assert sts[0].KeysOnce() && sts[j].KeysOnce() && SameFields(sts[0], sts[j]);
    var key := if j == 0 then NilKey else ks[j-1];
    NextInFirst(sts[0], sts[j], key, ks[j]);
    assert Visited(sts, ks, j - 1) == IndexOf(sts[0].arr, sts[0].node, key);
    var hi := if ks[j] == NilKey then sts[0].Size() else Visited(sts, ks, j);
    forall p | Visited(sts, ks, j - 1) < p < hi
      ensures 0 <= p < sts[j].Size() && EntryAt(sts[j].arr, sts[j].node, p) == Nil
    {
    }
  }

  lemma {:induction false} VisitedGrows(sts: seq<Snapshot>, ks: seq<Key>, i: int, j: nat)
    requires Traversal(sts, ks) && -1 <= i < j < |ks| && ks[j] != NilKey
    ensures Visited(sts, ks, i) < Visited(sts, ks, j) < sts[0].Size() && j <= Visited(sts, ks, j)
    decreases j
  {
    hide Traversal, Visited;
    VisitedNone(sts, ks);
    TraversalStep(sts, ks, j);
    if j > 0 {
      if i < j - 1 { VisitedGrows(sts, ks, i, j - 1); }
      VisitedGrows(sts, ks, -1, j - 1);
    }
  }

  lemma VisitedNone(sts: seq<Snapshot>, ks: seq<Key>)
    requires Traversal(sts, ks)
    ensures |sts| == |ks| > 0 && Visited(sts, ks, -1) == -1
    ensures forall j {:trigger sts[j]} :: 0 <= j < |sts| ==> sts[j].Size() == sts[0].Size()
  {
  }

  /** A traversal ends: it returns at most one key for each element and node. */
  lemma TraversalEnds(sts: seq<Snapshot>, ks: seq<Key>)
    requires Traversal(sts, ks)
    ensures |ks| <= sts[0].Size() + if ks[|ks|-1] == NilKey then 1 else 0
  {
    if ks[|ks|-1] != NilKey {
      VisitedGrows(sts, ks, -1, |ks| - 1);
    } else if |ks| > 1 {
      assert ks[|ks|-2] != NilKey;
      VisitedGrows(sts, ks, -1, |ks| - 2);
    }
  }

  /** A complete traversal visits every field that stays non-nil exactly once. */
  lemma TraversalVisitsOnce(sts: seq<Snapshot>, ks: seq<Key>, p: nat) returns (j: nat)
    requires Traversal(sts, ks) && ks[|ks|-1] == NilKey && p < sts[0].Size()
    requires forall m {:trigger sts[m]} :: 0 <= m < |sts| ==> EntryAt(sts[m].arr, sts[m].node, p) != Nil
    requires KeyAt(sts[0].arr, sts[0].node, p) != NilKey
    ensures j < |ks| && ks[j] == KeyAt(sts[0].arr, sts[0].node, p)
    ensures forall m :: 0 <= m < |ks| && ks[m] == KeyAt(sts[0].arr, sts[0].node, p) ==> m == j
  {
    hide Traversal, Visited, IndexOf, IsNext, KeyAt, EntryAt;
    VisitedNone(sts, ks);
    j := 0;
    TraversalStep(sts, ks, j);
    while ks[j] == NilKey || Visited(sts, ks, j) != p
      invariant j < |ks| && Visited(sts, ks, j - 1) < p
      decreases |ks| - j
    {
      assert EntryAt(sts[j].arr, sts[j].node, p) != Nil;
      TraversalStep(sts, ks, j);
      j := j + 1;
    }
    TraversalStep(sts, ks, j);
    forall m | 0 <= m < |ks| && ks[m] == ks[j]
      ensures m == j
    {
      SameVisited(sts, ks, j, m);
    }
  }

  lemma SameFieldsTrans(a: Snapshot, b: Snapshot, c: Snapshot)
    requires SameFields(a, b) && SameFields(b, c)
    ensures SameFields(a, c)
  {
    hide KeyAt;
  }

  lemma NothingAssigned(st0: Snapshot, assign: seq<(Key, Value)> -> seq<(Key, Value)>)
    ensures SameFields(st0, st0) && Assigns([] + [st0], [], assign)
  {
  }

  lemma AssignsMore(sts: seq<Snapshot>, es: seq<(Key, Value)>, e: (Key, Value), st: Snapshot,
                    assign: seq<(Key, Value)> -> seq<(Key, Value)>)
    requires Assigns(sts, es, assign)
    requires st.Contents() == Applied(sts[|es|].Contents(), assign(es + [e]))
    ensures Assigns(sts + [st], es + [e], assign)
  {
    hide ContentsOf;
    var sts', es' := sts + [st], es + [e];
    forall j: nat | j < |es'|
      ensures AssignsAt(sts', es', assign, j)
    {
      if j < |es| {
        assert AssignsAt(sts, es, assign, j) && es'[..j+1] == es[..j+1] && sts[j] == sts'[j] && sts[j+1] == sts'[j+1];
      } else {
        assert es'[..j+1] == es + [e];
      }
    }
  }

  /** The next state, and what luaH_next returns in it. */
  lemma TraversalGoesOn(st0: Snapshot, sts: seq<Snapshot>, es: seq<(Key, Value)>, st: Snapshot, e: (Key, Value))
    requires |sts| == |es| && st.KeysOnce() && SameFields(st0, st)
    requires if es == [] then st == st0 else sts[0] == st0 && Traversal(sts, KeysOf(es)) && es[|es|-1].0 != NilKey
    requires IsNext(st.arr, st.node, if es == [] then NilKey else es[|es|-1].0, e.0)
    ensures Traversal(sts + [st], KeysOf(es) + [e.0]) && KeysOf(es + [e]) == KeysOf(es) + [e.0]
  {
    hide IsNext, Snapshot.KeysOnce, SameFields;
    var sts', ks, ks' := sts + [st], KeysOf(es), KeysOf(es) + [e.0];
    if es == [] { assert SameFields(st0, st0) by { NothingAssigned(st0, x => x); } }
    forall j: nat | j < |ks'|
      ensures ReturnsAt(sts', ks', j)
    {
      if j < |sts| {
        assert ReturnsAt(sts, ks, j) && sts'[j] == sts[j] && ks'[j] == ks[j] && (j > 0 ==> ks'[j-1] == ks[j-1]);
      }
    }
    forall j | 0 <= j < |ks'|
      ensures sts'[j].KeysOnce() && SameFields(sts'[0], sts'[j])
    {
      if j < |sts| { assert sts'[j] == sts[j] && sts'[0] == sts[0]; }
    }
    forall j | 0 <= j < |ks'| - 1 ensures ks'[j] != NilKey { assert ks'[j] == ks[j]; }
  }

  /** In a complete traversal each entry that is always there is visited exactly once. */
  lemma EntryVisitedOnce(sts: seq<Snapshot>, es: seq<(Key, Value)>, key: Key)
    requires Traversal(sts, KeysOf(es) + [NilKey])
    requires forall j :: 0 <= j < |sts| ==> sts[j].KeysOnce() && sts[j].Indexed() && key in sts[j].Contents()
    ensures VisitedOnce(es, key)
  {
    hide IsNext, ContentsOf;
    var ks := KeysOf(es) + [NilKey];
    var p :| 0 <= p < sts[0].Size() && KeyAt(sts[0].arr, sts[0].node, p) == key;
    ContentsValue(sts[0].arr, sts[0].node, key);
    forall m | 0 <= m < |sts|
      ensures EntryAt(sts[m].arr, sts[m].node, p) != Nil
    {
      var q :| 0 <= q < sts[m].Size() && KeyAt(sts[m].arr, sts[m].node, q) == key
                && EntryAt(sts[m].arr, sts[m].node, q) != Nil;
      assert KeyAt(sts[0].arr, sts[0].node, q) == key;
    }
    var j := TraversalVisitsOnce(sts, ks, p);
    assert j < |es| && es[j].0 == ks[j];
    forall m | 0 <= m < |es| && es[m].0 == key ensures m == j { assert ks[m] == key; }
  }

  lemma AllVisited(sts: seq<Snapshot>, es: seq<(Key, Value)>)
    requires Traversal(sts, KeysOf(es) + [NilKey])
    requires forall j :: 0 <= j < |sts| ==> sts[j].KeysOnce() && sts[j].Indexed()
    ensures forall key :: (forall j :: 0 <= j < |sts| ==> key in sts[j].Contents()) ==> VisitedOnce(es, key)
  {
    hide Traversal, VisitedOnce, ContentsOf;
    forall key | forall j :: 0 <= j < |sts| ==> key in sts[j].Contents()
      ensures VisitedOnce(es, key)
    {
      EntryVisitedOnce(sts, es, key);
    }
  }

  lemma SameVisited(sts: seq<Snapshot>, ks: seq<Key>, j: nat, m: nat)
    requires Traversal(sts, ks) && j < |ks| && m < |ks| && ks[j] == ks[m] != NilKey
    ensures j == m
  {
    if m < j { VisitedGrows(sts, ks, m, j); } else if j < m { VisitedGrows(sts, ks, j, m); }
  }

  /** The counters below lg count the used integers; the others are still zero. */
  ghost predicate SlicesCounted(nums: seq<int>, used: int -> bool, lg: int) {
    && |nums| == MAXBITS + 1 && 0 <= lg <= |nums|
    && (forall i :: 0 <= i < lg ==> nums[i] >= 0) && (forall i :: lg <= i < |nums| ==> nums[i] == 0)
    && forall j: nat {:trigger Total(nums, j)} :: j < lg ==> Total(nums, j) == |Within(used, Pow2(j))|
  }

  lemma NoSlices(nums: seq<int>, used: int -> bool)
    requires |nums| == MAXBITS + 1 && forall i :: 0 <= i < |nums| ==> nums[i] == 0
    ensures Within(used, 0) == {} && SlicesCounted(nums, used, 0)
  {
  }

  lemma SliceCounted(nums: seq<int>, used: int -> bool, lg: nat, lc: int)
    requires lg <= MAXBITS && SlicesCounted(nums, used, lg) && lc >= 0
    requires lc == |Within(used, Pow2(lg))| - |Within(used, if lg == 0 then 0 else Pow2(lg - 1))|
    ensures SlicesCounted(nums[lg := nums[lg] + lc], used, lg + 1)
  {
    var nums' := nums[lg := nums[lg] + lc];
    forall j: nat | j < lg + 1
      ensures Total(nums', j) == |Within(used, Pow2(j))|
    {
      TotalUpdate(nums, lg, nums[lg] + lc, j);
      if j < lg { assert Total(nums, j) == |Within(used, Pow2(j))|; }
      else if lg > 0 { assert Total(nums, lg - 1) == |Within(used, Pow2(lg - 1))|; }
      else { assert Within(used, 0) == {}; }
    }
  }

  lemma WithinBeyond(arr: seq<Value>, m: nat, n: nat)
    requires m == n || (m <= n && m == |arr|)
    ensures Within(ArrayInts(arr), n) == Within(ArrayInts(arr), m)
  {
  }

  lemma AllSlices(nums: seq<int>, arr: seq<Value>, lg: nat, half: nat)
    requires SlicesCounted(nums, ArrayInts(arr), lg) && half == (if lg == 0 then 0 else Pow2(lg - 1))
    requires half >= |arr|
    ensures Counts(nums, ArrayInts(arr))
  {
    forall j: nat | j < |nums|
      ensures Total(nums, j) == |Within(ArrayInts(arr), Pow2(j))|
    {
      if j < lg {
        assert Total(nums, j) == |Within(ArrayInts(arr), Pow2(j))|;
      } else {
        TotalZero(nums, lg - 1, j);
        if lg > 0 {
          assert Total(nums, lg - 1) == |Within(ArrayInts(arr), Pow2(lg - 1))|;
          Pow2Grows(lg - 1, j);
        } else {
          assert Within(ArrayInts(arr), 0) == {};
        }
        WithinBeyond(arr, |arr|, Pow2(j));
        WithinBeyond(arr, |arr|, half);
      }
    }
  }
}
