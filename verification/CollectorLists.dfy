/** Objects that are freed, linked and closed: the lists of the collector stay in order. */
module CollectorLists {
  import opened Wrappers
  import opened CollectorSpec

  function Remove(s: seq<Ref>, k: nat): (r: seq<Ref>)
    requires k < |s|
    ensures |r| == |s| - 1
  {
    s[..k] + s[k+1..]
  }

  lemma RemoveElems(s: seq<Ref>, k: nat)
    requires k < |s| && NoDup(s)
    ensures NoDup(Remove(s, k))
    ensures forall x {:trigger x in Remove(s, k)} {:trigger x in s} :: x in Remove(s, k) <==> x in s && x != s[k]
  {
    var r := Remove(s, k);
    forall x
      ensures x in r <==> x in s && x != s[k]
    {
      if x in s && x != s[k] {
        var i :| 0 <= i < |s| && s[i] == x;
        assert r[if i < k then i else i - 1] == x;
      }
    }
  }

  function Without(s: seq<Ref>, x: Ref): seq<Ref> {
    if s == [] then [] else if s[0] == x then s[1..] else [s[0]] + Without(s[1..], x)
  }

  lemma {:induction false} WithoutElems(s: seq<Ref>, x: Ref)
    requires NoDup(s)
    ensures NoDup(Without(s, x))
    ensures forall y {:trigger y in Without(s, x)} {:trigger y in s} :: y in Without(s, x) <==> y in s && y != x
  {
    if s != [] {
      var t, r := s[1..], Without(s[1..], x);
      forall i, j | 0 <= i < j < |t| ensures t[i] != t[j] { assert t[i] == s[i+1] && t[j] == s[j+1]; }
      WithoutElems(t, x);
      assert s == [s[0]] + t;
      assert forall y :: y in s <==> y == s[0] || y in t;
      assert forall i :: 0 <= i < |t| ==> t[i] != s[0];
      if s[0] != x {
        var u := [s[0]] + r;
        forall i, j | 0 <= i < j < |u| ensures u[i] != u[j] { if i == 0 { assert u[j] in r; } }
        assert forall y :: y in u <==> y == s[0] || y in r;
      }
    }
  }

  /** Without the object: it is not the child of a live one, so nothing that can be reached changes. */
  lemma FreeLive(h: Heap, m: Marks, cw: bool, o: Ref)
    requires LiveClosed(h, m, cw) && !Live(m, cw, o)
    requires forall x :: x in h && IsOpen(h[x]) && h[x].owner == Some(o) ==> x == o
    ensures LiveClosed(h - {o}, m - {o}, cw)
    ensures forall x, c :: x in h && x != o ==> (IsChild(h - {o}, x, c) <==> IsChild(h, x, c))
  {
    forall x, c | x in h && x != o
      ensures IsChild(h - {o}, x, c) <==> IsChild(h, x, c)
    {
      if IsOpen(h[x]) { assert h[x].owner.value != o; }
    }
  }

  lemma FreeKept(h: Heap, m: Marks, cw: bool, o: Ref)
    requires m.Keys == h.Keys && LiveClosed(h, m, cw) && !Live(m, cw, o)
    requires forall x :: x in h && IsOpen(h[x]) && h[x].owner == Some(o) ==> x == o
    ensures LiveClosed(h - {o}, m - {o}, cw) && Kept(h, m, h - {o}, m - {o}, cw)
  {
    FreeLive(h, m, cw, o);
  }

  // ----- strings -----

  lemma FreeString(h: Heap, rootgc: seq<Ref>, strt: seq<seq<Ref>>, uvhead: seq<Ref>, i: nat, k: nat)
    requires ListsOk(h, rootgc, strt, uvhead) && i < |strt| && k < |strt[i]|
    ensures var o := strt[i][k];
            && o in h && h[o].kind == StringObj
            && ListsOk(h - {o}, rootgc, strt[i := Remove(strt[i], k)], uvhead)
  {
    hide OpenOk, Falling;
    var o := strt[i][k];
    var h', s' := h - {o}, strt[i := Remove(strt[i], k)];
    RemoveElems(strt[i], k);
    assert o in strt[i];
    assert OpenOk(h, o);
    OnlyThreadsOpen(h, o);
    forall j, x | 0 <= j < |s'| && x in s'[j] ensures x in strt[j] && x != o { }
    forall x | x in h' ensures KeptAt(h', rootgc, s', uvhead, x) {
      assert KeptAt(h, rootgc, strt, uvhead, x) && OpenOk(h, x);
      if h[x].kind == StringObj {
        var j :| 0 <= j < |strt| && x in strt[j];
        assert x in s'[j];
      }
    }
    forall t | t in h' ensures OpenOk(h', t) {
      assert OpenOk(h, t);
      OpenSame(h, h', t);
    }
  }

  lemma NewString(h: Heap, rootgc: seq<Ref>, strt: seq<seq<Ref>>, uvhead: seq<Ref>, i: nat, o: Ref, fixed: bool)
    requires ListsOk(h, rootgc, strt, uvhead) && i < |strt| && o !in h
    ensures ListsOk(h[o := Object(StringObj, fixed, [], None, 0, [])], rootgc, strt[i := [o] + strt[i]], uvhead)
  {
    hide OpenOk, Falling;
    var h', s' := h[o := Object(StringObj, fixed, [], None, 0, [])], strt[i := [o] + strt[i]];
    assert o !in strt[i];
    forall a, b | 0 <= a < b < |s'[i]| ensures s'[i][a] != s'[i][b] { if a == 0 { assert s'[i][b] in strt[i]; } }
    forall j, x | 0 <= j < |s'| && x in s'[j] ensures x in strt[j] || (x == o && j == i) { }
    assert o in s'[i];
    forall x | x in h' ensures KeptAt(h', rootgc, s', uvhead, x) {
      if x != o {
        assert KeptAt(h, rootgc, strt, uvhead, x);
        if h[x].kind == StringObj {
          var j :| 0 <= j < |strt| && x in strt[j];
          assert x in s'[j];
        }
      }
    }
    NothingOpen(h', o);
    forall t | t in h' ensures OpenOk(h', t) { if t != o { assert OpenOk(h, t); OpenSame(h, h', t); } }
  }

  lemma SameFalling(h: Heap, h': Heap, list: seq<Ref>)
    requires Falling(h, list) && forall x :: x in list ==> x in h && x in h' && h'[x].level == h[x].level
    ensures Falling(h', list)
  {
    forall i, j | 0 <= i < j < |list| ensures Above(h', list[i], list[j]) {
      assert Above(h, list[i], list[j]) && list[i] in list && list[j] in list;
    }
  }

  lemma RemoveFalling(h: Heap, list: seq<Ref>, k: nat)
    requires Falling(h, list) && k < |list|
    ensures Falling(h, Remove(list, k))
  {
    var r := Remove(list, k);
    forall i, j | 0 <= i < j < |r| ensures Above(h, r[i], r[j]) {
      var a, b := if i < k then i else i + 1, if j < k then j else j + 1;
      assert r[i] == list[a] && r[j] == list[b];
    }
  }

  // ----- open upvalues -----

  /** The heap without the k-th open upvalue in the list of thread t. */
  function DropOpen(h: Heap, t: Ref, k: nat): Heap
    requires t in h && k < |h[t].open|
  {
    h[t := h[t].(open := Remove(h[t].open, k))]
  }

  lemma DropOpenOk(h: Heap, t: Ref, k: nat, h': Heap)
    requires t in h && k < |h[t].open| && OpenOk(h, t)
    requires var x := h[t].open[k];
             || h' == DropOpen(h, t, k) - {x}
             || (x in h' && x != t && !IsOpen(h'[x]) && h' == DropOpen(h, t, k)[x := h'[x]])
    requires h[t].kind == ThreadObj
    ensures OpenOk(h', t)
  {
    RemoveElems(h[t].open, k);
    var r := Remove(h[t].open, k);
    assert h[t].open[k] != t by { assert h[t].open[k] in h[t].open; }
    assert h'[t].open == r;
    RemoveFalling(h, h[t].open, k);
    assert forall y :: y in r ==> y in h[t].open;
    SameFalling(h, h', r);
  }

  lemma OpenElement(h: Heap, t: Ref, k: nat)
    requires OpenOk(h, t) && t in h && k < |h[t].open|
    ensures var x := h[t].open[k];
            && x in h && IsOpen(h[x]) && h[x].owner == Some(t) && x != t && x in h[t].open && NoDup(h[t].open)
            && h[t].kind == ThreadObj
  {
    assert h[t].open[k] in h[t].open;
  }

  lemma OnlyThreadsOpen(h: Heap, x: Ref)
    requires x in h && OpenOk(h, x) && h[x].kind != ThreadObj
    ensures h[x].open == []
  {
  }

  lemma FreeOpen(h: Heap, rootgc: seq<Ref>, strt: seq<seq<Ref>>, uvhead: seq<Ref>, t: Ref, k: nat)
    requires ListsOk(h, rootgc, strt, uvhead) && t in h && k < |h[t].open|
    ensures var x := h[t].open[k];
            && x in h && IsOpen(h[x]) && h[x].owner == Some(t) && x != t
            && ListsOk(DropOpen(h, t, k) - {x}, rootgc, strt, Without(uvhead, x))
  {
    hide OpenOk, Falling, Remove, Without;
    var x := h[t].open[k];
    var h', u' := DropOpen(h, t, k) - {x}, Without(uvhead, x);
    assert OpenOk(h, t);
    OpenElement(h, t, k);
    OnlyThreadsOpen(h, x);
    WithoutElems(uvhead, x);
    RemoveElems(h[t].open, k);
    DropOpenOk(h, t, k, h');
    forall y | y in h' ensures KeptAt(h', rootgc, strt, u', y) {
      assert KeptAt(h, rootgc, strt, uvhead, y);
    }
    forall s | s in h' && s != t ensures OpenOk(h', s) { OtherOpen(h, s, x, t, h'); }
  }

  lemma OtherOpen(h: Heap, s: Ref, x: Ref, t: Ref, h': Heap)
    requires s in h && s != t && OpenOk(h, s) && x in h && h[x].owner == Some(t) && IsOpen(h[x])
    requires s in h' && h'[s].open == h[s].open && h'[s].kind == h[s].kind && h'[s].fields == h[s].fields
    requires forall y :: y in h && y != x && y != t ==> y in h' && h'[y] == h[y]
    requires t in h && !IsOpen(h[t])
    ensures OpenOk(h', s)
  {
    assert x !in h[s].open && t !in h[s].open;
    SameFalling(h, h', h[s].open);
  }

  /** luaF_close and luaC_linkupval: the upvalue gets its value, leaves the list of its thread, and is linked into
      rootgc. */
  function CloseOpen(h: Heap, t: Ref, k: nat): Heap
    requires t in h && k < |h[t].open| && h[t].open[k] in h
  {
    var x := h[t].open[k];
    DropOpen(h, t, k)[x := Object(UpvalObj, false, [StackValue(h, h[x])], None, 0, [])]
  }

  lemma CloseOpenShape(h: Heap, t: Ref, k: nat)
    requires t in h && k < |h[t].open| && h[t].open[k] in h && h[t].open[k] != t
    ensures var h', x := CloseOpen(h, t, k), h[t].open[k];
            && h'.Keys == h.Keys && h'[t] == h[t].(open := Remove(h[t].open, k))
            && h'[x].kind == UpvalObj && !IsOpen(h'[x]) && |h'[x].fields| == 1
            && forall y :: y in h && y != x ==> h'[y].kind == h[y].kind && h'[y].owner == h[y].owner
  {
  }

  lemma CloseOpenLists(h: Heap, rootgc: seq<Ref>, strt: seq<seq<Ref>>, uvhead: seq<Ref>, t: Ref, k: nat)
    requires ListsOk(h, rootgc, strt, uvhead) && t in h && k < |h[t].open|
    ensures var x := h[t].open[k];
            && x in h && IsOpen(h[x]) && h[x].owner == Some(t) && x != t && x !in rootgc
            && ListsOk(CloseOpen(h, t, k), [x] + rootgc, strt, Without(uvhead, x))
  {
    hide OpenOk, Falling, Remove, Without, KeptAt;
    var x := h[t].open[k];
    assert OpenOk(h, t);
    OpenElement(h, t, k);
    OnlyThreadsOpen(h, x);
    assert KeptAt(h, rootgc, strt, uvhead, x);
    var h', u', r' := CloseOpen(h, t, k), Without(uvhead, x), [x] + rootgc;
    WithoutElems(uvhead, x);
    RemoveElems(h[t].open, k);
    NothingOpen(h', x);
    DropOpenOk(h, t, k, h');
    forall i, j | 0 <= i < j < |r'| ensures r'[i] != r'[j] { if i == 0 { assert r'[j] in rootgc; } }
    assert forall y :: y in r' <==> y == x || y in rootgc;
    forall y | y in h' ensures KeptAt(h', r', strt, u', y) {
      assert KeptAt(h, rootgc, strt, uvhead, y);
      CloseOpenKept(h, rootgc, strt, uvhead, t, k, y);
    }
    forall s | s in h' && s != t ensures OpenOk(h', s) {
      if s != x { OtherOpen(h, s, x, t, h'); }
    }
  }

  lemma CloseOpenKept(h: Heap, rootgc: seq<Ref>, strt: seq<seq<Ref>>, uvhead: seq<Ref>, t: Ref, k: nat, y: Ref)
    requires t in h && h[t].kind == ThreadObj && k < |h[t].open| && NoDup(h[t].open) && NoDup(uvhead)
    requires var x := h[t].open[k]; x in h && IsOpen(h[x]) && h[x].owner == Some(t) && h[x].open == []
    requires y in h && KeptAt(h, rootgc, strt, uvhead, y)
    ensures var x := h[t].open[k]; KeptAt(CloseOpen(h, t, k), [x] + rootgc, strt, Without(uvhead, x), y)
  {
    hide Remove, Without;
    var x := h[t].open[k];
    WithoutElems(uvhead, x);
    RemoveElems(h[t].open, k);
    assert forall z :: z == x || z in rootgc ==> z in [x] + rootgc;
  }

  /** The closed upvalue has the same child. */
  lemma CloseOpenChildren(h: Heap, t: Ref, k: nat, o: Ref, c: Ref)
    requires t in h && k < |h[t].open| && OpenOk(h, t) && h[t].kind == ThreadObj && h[t].open[k] in h
    requires forall x :: x in h && IsOpen(h[x]) ==> h[x].owner.value != h[t].open[k]
    ensures IsChild(CloseOpen(h, t, k), o, c) <==> IsChild(h, o, c)
  {
    var x := h[t].open[k];
    assert x in h[t].open;
  }

  // ----- other objects -----

  lemma FreeRoot(h: Heap, rootgc: seq<Ref>, strt: seq<seq<Ref>>, uvhead: seq<Ref>, p: nat)
    requires ListsOk(h, rootgc, strt, uvhead) && p < |rootgc| && (rootgc[p] in h ==> h[rootgc[p]].open == [])
    ensures var o := rootgc[p];
            && o in h && ListsOk(h - {o}, Remove(rootgc, p), strt, uvhead)
            && forall x :: x in h && IsOpen(h[x]) ==> h[x].owner != Some(o)
  {
    hide OpenOk, Falling;
    var o := rootgc[p];
    assert o in rootgc;
    var h', r' := h - {o}, Remove(rootgc, p);
    RemoveElems(rootgc, p);
    forall x | x in h && IsOpen(h[x]) ensures h[x].owner != Some(o) { assert KeptAt(h, rootgc, strt, uvhead, x); }
    forall x | x in h' ensures KeptAt(h', r', strt, uvhead, x) { assert KeptAt(h, rootgc, strt, uvhead, x); }
    forall t | t in h' ensures OpenOk(h', t) {
      assert OpenOk(h, t);
      OpenSame(h, h', t);
    }
  }

  /** luaC_link */
  lemma NewRoot(h: Heap, rootgc: seq<Ref>, strt: seq<seq<Ref>>, uvhead: seq<Ref>, o: Ref, x: Object)
    requires ListsOk(h, rootgc, strt, uvhead) && o !in h && x.kind != StringObj && !IsOpen(x) && x.open == []
    ensures ListsOk(h[o := x], [o] + rootgc, strt, uvhead)
  {
    hide OpenOk, Falling;
    var h', r' := h[o := x], [o] + rootgc;
    forall i, j | 0 <= i < j < |r'| ensures r'[i] != r'[j] { if i == 0 { assert r'[j] in rootgc; } }
    assert forall y :: y in r' <==> y == o || y in rootgc;
    forall y | y in h' ensures KeptAt(h', r', strt, uvhead, y) {
      if y != o { assert KeptAt(h, rootgc, strt, uvhead, y); }
    }
    NothingOpen(h', o);
    forall t | t in h' ensures OpenOk(h', t) {
      if t != o {
        assert OpenOk(h, t);
        OpenSame(h, h', t);
      }
    }
  }

  /** A new value in a field. */
  lemma StoreLists(h: Heap, rootgc: seq<Ref>, strt: seq<seq<Ref>>, uvhead: seq<Ref>, o: Ref, fields: seq<Option<Ref>>)
    requires ListsOk(h, rootgc, strt, uvhead) && o in h && |fields| == |h[o].fields|
    ensures ListsOk(h[o := h[o].(fields := fields)], rootgc, strt, uvhead)
  {
    hide OpenOk, Falling;
    var h' := h[o := h[o].(fields := fields)];
    forall y | y in h' ensures KeptAt(h', rootgc, strt, uvhead, y) { assert KeptAt(h, rootgc, strt, uvhead, y); }
    forall t | t in h' ensures OpenOk(h', t) {
      assert OpenOk(h, t);
      OpenSame(h, h', t);
    }
  }

  function InsertAt(s: seq<Ref>, k: nat, x: Ref): seq<Ref>
    requires k <= |s|
  {
    s[..k] + [x] + s[k..]
  }

  lemma InsertElems(s: seq<Ref>, k: nat, x: Ref)
    requires k <= |s|
    ensures forall y {:trigger y in InsertAt(s, k, x)} {:trigger y in s} :: y in InsertAt(s, k, x) <==> y == x || y in s
  {
    assert s == s[..k] + s[k..];
  }

  lemma InsertFalling(h: Heap, s: seq<Ref>, k: nat, x: Ref)
    requires k <= |s| && Falling(h, s) && x in h && x !in s && NoDup(s)
    requires forall i :: 0 <= i < k ==> Above(h, s[i], x)
    requires forall i :: k <= i < |s| ==> Above(h, x, s[i])
    ensures Falling(h, InsertAt(s, k, x)) && NoDup(InsertAt(s, k, x))
  {
    var l := InsertAt(s, k, x);
    forall i, j | 0 <= i < j < |l| ensures Above(h, l[i], l[j]) && l[i] != l[j] {
      var a, b := if i <= k then i else i - 1, if j <= k then j else j - 1;
      if i == k {
        assert l[j] == s[b] && l[j] in s;
      } else if j == k {
        assert l[i] == s[a] && l[i] in s;
      } else {
        assert l[i] == s[a] && l[j] == s[b] && Above(h, s[a], s[b]);
      }
    }
  }

  /** A new open upvalue of thread t, at position k of its list. */
  function AddOpen(h: Heap, t: Ref, k: nat, o: Ref, level: nat): Heap
    requires t in h && k <= |h[t].open|
  {
    h[o := Object(UpvalObj, false, [], Some(t), level, [])][t := h[t].(open := InsertAt(h[t].open, k, o))]
  }

  lemma AddOpenLists(h: Heap, rootgc: seq<Ref>, strt: seq<seq<Ref>>, uvhead: seq<Ref>, t: Ref, k: nat, o: Ref,
                     level: nat)
    requires ListsOk(h, rootgc, strt, uvhead) && o !in h && t in h && h[t].kind == ThreadObj && level < |h[t].fields|
    requires k <= |h[t].open|
    requires forall i :: 0 <= i < k ==> h[t].open[i] in h && h[h[t].open[i]].level > level
    requires forall i :: k <= i < |h[t].open| ==> h[t].open[i] in h && h[h[t].open[i]].level < level
    ensures ListsOk(AddOpen(h, t, k, o, level), rootgc, strt, [o] + uvhead)
  {
    hide OpenOk, Falling, InsertAt, KeptAt;
    var h', u' := AddOpen(h, t, k, o, level), [o] + uvhead;
    assert OpenOk(h, t);
    AddedOpen(h, t, k, o, level);
    NothingOpen(h', o);
    forall i, j | 0 <= i < j < |u'| ensures u'[i] != u'[j] { if i == 0 { assert u'[j] in uvhead; } }
    assert forall y :: y in u' <==> y == o || y in uvhead;
    forall y | y in h' ensures KeptAt(h', rootgc, strt, u', y) {
      assert y != o ==> KeptAt(h, rootgc, strt, uvhead, y);
      AddOpenKept(h, rootgc, strt, uvhead, t, k, o, level, y);
    }
    forall s | s in h' ensures OpenOk(h', s) {
      if s != o && s != t {
        assert OpenOk(h, s);
        OpenSame(h, h', s);
      }
    }
  }

  lemma AddOpenKept(h: Heap, rootgc: seq<Ref>, strt: seq<seq<Ref>>, uvhead: seq<Ref>, t: Ref, k: nat, o: Ref,
                    level: nat, y: Ref)
    requires y == o || (y in h && KeptAt(h, rootgc, strt, uvhead, y))
    requires o !in h && t in h && h[t].kind == ThreadObj && k <= |h[t].open|
    ensures KeptAt(AddOpen(h, t, k, o, level), rootgc, strt, [o] + uvhead, y)
  {
    hide InsertAt;
    InsertElems(h[t].open, k, o);
    assert forall x :: x in uvhead ==> x in [o] + uvhead;
  }

  lemma NothingOpen(h: Heap, o: Ref)
    requires o in h && h[o].open == []
    ensures OpenOk(h, o)
  {
  }

  /** The list of a thread that nothing happens to. */
  lemma OpenSame(h: Heap, h': Heap, s: Ref)
    requires OpenOk(h, s) && s in h' && h'[s].kind == h[s].kind && h'[s].open == h[s].open
    requires |h'[s].fields| == |h[s].fields|
    requires forall x :: x in h && IsOpen(h[x]) ==>
               x in h' && IsOpen(h'[x]) && h'[x].owner == h[x].owner && h'[x].level == h[x].level
    ensures OpenOk(h', s)
  {
    SameFalling(h, h', h[s].open);
  }

  lemma AddedOpen(h: Heap, t: Ref, k: nat, o: Ref, level: nat)
    requires t in h && o !in h && h[t].kind == ThreadObj && OpenOk(h, t) && level < |h[t].fields| && k <= |h[t].open|
    requires forall i :: 0 <= i < k ==> h[t].open[i] in h && h[h[t].open[i]].level > level
    requires forall i :: k <= i < |h[t].open| ==> h[t].open[i] in h && h[h[t].open[i]].level < level
    ensures OpenOk(AddOpen(h, t, k, o, level), t)
  {
    var h', l := AddOpen(h, t, k, o, level), h[t].open;
    assert forall x :: x in l ==> x in h && x != t;
    SameFalling(h, h', l);
    InsertElems(l, k, o);
    forall i | 0 <= i < |l| ensures if i < k then Above(h', l[i], o) else Above(h', o, l[i]) { assert l[i] in l; }
    InsertFalling(h', l, k, o);
  }

  // ----- the position of the sweep -----

  lemma SweptFreeString(h: Heap, m: Marks, cw: bool, rootgc: seq<Ref>, strt: seq<seq<Ref>>, ss: nat, sg: nat, k: nat)
    requires sg <= |rootgc| && SweptWhite(h, m, cw, rootgc, strt, ss, sg) && ss < |strt| && k < |strt[ss]|
    requires NoDup(strt[ss]) && m.Keys == h.Keys
    ensures SweptWhite(h - {strt[ss][k]}, m - {strt[ss][k]}, cw, rootgc, strt[ss := Remove(strt[ss], k)], ss, sg)
  {
    var o := strt[ss][k];
    var s' := strt[ss := Remove(strt[ss], k)];
    RemoveElems(strt[ss], k);
    forall x | x in m && x != o && m[x] != White(cw)
      ensures Unswept(h - {o}, rootgc, s', ss, sg, x)
    {
      assert Unswept(h, rootgc, strt, ss, sg, x);
      if h[x].kind == StringObj {
        var i :| 0 <= i < |strt| && ss <= i && x in strt[i];
        assert x in s'[i];
      }
    }
  }

  lemma BucketSwept(h: Heap, m: Marks, cw: bool, rootgc: seq<Ref>, strt: seq<seq<Ref>>, ss: nat, sg: nat)
    requires sg <= |rootgc| && SweptWhite(h, m, cw, rootgc, strt, ss, sg) && ss < |strt|
    requires forall j :: 0 <= j < |strt[ss]| ==> strt[ss][j] in m && m[strt[ss][j]] == White(cw)
    ensures SweptWhite(h, m, cw, rootgc, strt, ss + 1, sg)
  {
    forall x | x in m && m[x] != White(cw)
      ensures Unswept(h, rootgc, strt, ss + 1, sg, x)
    {
      assert Unswept(h, rootgc, strt, ss, sg, x);
      if h[x].kind == StringObj {
        var i :| 0 <= i < |strt| && ss <= i && x in strt[i];
        assert i != ss;
      }
    }
  }

  lemma SweptFreeRoot(h: Heap, m: Marks, cw: bool, rootgc: seq<Ref>, strt: seq<seq<Ref>>, ss: nat, sg: nat, p: nat)
    requires sg <= |rootgc| && SweptWhite(h, m, cw, rootgc, strt, ss, sg) && p < |rootgc|
    requires forall x :: x in h && IsOpen(h[x]) ==> h[x].owner != Some(rootgc[p])
    ensures var o := rootgc[p]; var sg' := if p < sg then sg - 1 else sg;
            SweptWhite(h - {o}, m - {o}, cw, Remove(rootgc, p), strt, ss, sg')
  {
    var o, r, sg' := rootgc[p], Remove(rootgc, p), if p < sg then sg - 1 else sg;
    forall y | y in rootgc[sg..] && y != o ensures y in r[sg'..] {
      var i :| sg <= i < |rootgc| && rootgc[i] == y;
      assert r[if i < p then i else i - 1] == y;
    }
    forall x | x in m && x != o && m[x] != White(cw)
      ensures Unswept(h - {o}, r, strt, ss, sg', x)
    {
      assert Unswept(h, rootgc, strt, ss, sg, x);
    }
  }

  /** The object at the position of the sweep, and its open upvalues, are done. */
  lemma RootSwept(h: Heap, m: Marks, cw: bool, rootgc: seq<Ref>, strt: seq<seq<Ref>>, uvhead: seq<Ref>, ss: nat,
                  sg: nat)
    requires sg < |rootgc| && SweptWhite(h, m, cw, rootgc, strt, ss, sg) && ListsOk(h, rootgc, strt, uvhead)
    requires rootgc[sg] in m && m[rootgc[sg]] == White(cw) && rootgc[sg] in h
    requires forall x :: x in h[rootgc[sg]].open && x in m ==> m[x] == White(cw)
    ensures SweptWhite(h, m, cw, rootgc, strt, ss, sg + 1)
  {
    assert rootgc[sg..] == [rootgc[sg]] + rootgc[sg+1..];
    forall x | x in m && m[x] != White(cw)
      ensures Unswept(h, rootgc, strt, ss, sg + 1, x)
    {
      assert Unswept(h, rootgc, strt, ss, sg, x);
      assert KeptAt(h, rootgc, strt, uvhead, x);
    }
  }

  lemma SweptFreeOpen(h: Heap, m: Marks, cw: bool, rootgc: seq<Ref>, strt: seq<seq<Ref>>, ss: nat, sg: nat, t: Ref,
                      k: nat)
    requires sg <= |rootgc| && SweptWhite(h, m, cw, rootgc, strt, ss, sg) && t in h && k < |h[t].open|
    requires h[t].kind == ThreadObj && h[t].open[k] != t
    ensures SweptWhite(DropOpen(h, t, k) - {h[t].open[k]}, m - {h[t].open[k]}, cw, rootgc, strt, ss, sg)
  {
    var x := h[t].open[k];
    forall y | y in m && y != x && m[y] != White(cw)
      ensures Unswept(DropOpen(h, t, k) - {x}, rootgc, strt, ss, sg, y)
    {
      assert Unswept(h, rootgc, strt, ss, sg, y);
    }
  }

  /** Without an open upvalue that is dead. */
  lemma FreeOpenKept(h: Heap, m: Marks, cw: bool, t: Ref, k: nat)
    requires m.Keys == h.Keys && LiveClosed(h, m, cw) && t in h && k < |h[t].open| && !Live(m, cw, h[t].open[k])
    requires h[t].kind == ThreadObj && h[t].open[k] != t && h[t].open[k] in h && !h[h[t].open[k]].fixed
    requires forall x :: x in h && IsOpen(h[x]) ==> h[x].owner != Some(h[t].open[k])
    ensures var x := h[t].open[k]; var h' := DropOpen(h, t, k) - {x};
            LiveClosed(h', m - {x}, cw) && Kept(h, m, h', m - {x}, cw)
  {
    var x := h[t].open[k];
    var h' := DropOpen(h, t, k) - {x};
    forall o, c | o in h && o != x
      ensures IsChild(h', o, c) <==> IsChild(h, o, c)
    {
    }
  }

  lemma OwnersAreThreads(h: Heap, rootgc: seq<Ref>, strt: seq<seq<Ref>>, uvhead: seq<Ref>)
    requires ListsOk(h, rootgc, strt, uvhead)
    ensures forall x :: x in h && IsOpen(h[x]) ==> h[x].owner.value in h && h[h[x].owner.value].kind == ThreadObj
  {
    forall x | x in h && IsOpen(h[x])
      ensures h[x].owner.value in h && h[h[x].owner.value].kind == ThreadObj
    {
      assert KeptAt(h, rootgc, strt, uvhead, x) && OpenOk(h, h[x].owner.value);
    }
  }

  lemma OpenFacts(h: Heap, m: Marks, cw: bool, rootgc: seq<Ref>, strt: seq<seq<Ref>>, uvhead: seq<Ref>,
                  mainthread: Ref, roots: set<Ref>, t: Ref, k: nat)
    requires SharedOf(h, m, cw, rootgc, strt, uvhead, mainthread, roots) && t in h && k < |h[t].open|
    ensures var x := h[t].open[k];
            && OpenOk(h, t) && h[t].kind == ThreadObj && x in h && IsOpen(h[x]) && h[x].owner == Some(t) && x != t
            && x in m && m[x] != Black && !h[x].fixed && x !in rootgc
            && forall y :: y in h && IsOpen(h[y]) ==> h[y].owner.value in h && h[y].owner.value != x
  {
    assert OpenOk(h, t) && h[t].open[k] in h[t].open;
    OwnersAreThreads(h, rootgc, strt, uvhead);
  }

  lemma NeverBlackLess(h: Heap, m: Marks, h': Heap, m': Marks)
    requires NeverBlack(h, m)
    requires forall o :: o in m' && m'[o] == Black ==>
               o in m && m[o] == Black && (o in h ==> o in h' && h'[o].kind == h[o].kind && h'[o].owner == h[o].owner)
    ensures NeverBlack(h', m')
  {
  }

  lemma WhitenShared(h: Heap, m: Marks, cw: bool, rootgc: seq<Ref>, strt: seq<seq<Ref>>, uvhead: seq<Ref>,
                     mainthread: Ref, roots: set<Ref>, o: Ref)
    requires SharedOf(h, m, cw, rootgc, strt, uvhead, mainthread, roots) && o in h && (Live(m, cw, o) || h[o].fixed)
    ensures SharedOf(h, m[o := White(cw)], cw, rootgc, strt, uvhead, mainthread, roots)
    ensures Kept(h, m, h, m[o := White(cw)], cw)
  {
    hide ListsOk, LiveClosed, Kept, KeptAt;
    FixedString(h, m, cw, rootgc, strt, uvhead, mainthread, roots, o);
    Whiten(h, m, cw, o);
    KeptShared(h, m, h, m[o := White(cw)], cw, mainthread, roots);
    NeverBlackLess(h, m, h, m[o := White(cw)]);
  }

  lemma FixedString(h: Heap, m: Marks, cw: bool, rootgc: seq<Ref>, strt: seq<seq<Ref>>, uvhead: seq<Ref>,
                    mainthread: Ref, roots: set<Ref>, o: Ref)
    requires SharedOf(h, m, cw, rootgc, strt, uvhead, mainthread, roots) && o in h
    ensures h[o].fixed && !Live(m, cw, o) ==> h[o].kind == StringObj && h[o].fields == []
  {
    assert KeptAt(h, rootgc, strt, uvhead, o);
  }

  lemma FreeOpenShared(h: Heap, m: Marks, cw: bool, rootgc: seq<Ref>, strt: seq<seq<Ref>>, uvhead: seq<Ref>,
                       mainthread: Ref, roots: set<Ref>, t: Ref, k: nat)
    requires SharedOf(h, m, cw, rootgc, strt, uvhead, mainthread, roots)
    requires t in h && k < |h[t].open| && !Live(m, cw, h[t].open[k])
    ensures var x := h[t].open[k]; var h' := DropOpen(h, t, k) - {x}; var m' := m - {x};
            SharedOf(h', m', cw, rootgc, strt, Without(uvhead, x), mainthread, roots) && Kept(h, m, h', m', cw)
  {
    hide ListsOk, LiveClosed, Kept, KeptAt, OpenOk, FixedOk, NeverBlack;
    var x := h[t].open[k];
    OpenFacts(h, m, cw, rootgc, strt, uvhead, mainthread, roots, t, k);
    FreeOpen(h, rootgc, strt, uvhead, t, k);
    FreeOpenKept(h, m, cw, t, k);
    KeptShared(h, m, DropOpen(h, t, k) - {x}, m - {x}, cw, mainthread, roots);
    NeverBlackLess(h, m, DropOpen(h, t, k) - {x}, m - {x});
  }

  lemma FreeStringShared(h: Heap, m: Marks, cw: bool, rootgc: seq<Ref>, strt: seq<seq<Ref>>, uvhead: seq<Ref>,
                         mainthread: Ref, roots: set<Ref>, i: nat, k: nat)
    requires SharedOf(h, m, cw, rootgc, strt, uvhead, mainthread, roots)
    requires i < |strt| && k < |strt[i]| && !Live(m, cw, strt[i][k])
    ensures var x := strt[i][k];
            && SharedOf(h - {x}, m - {x}, cw, rootgc, strt[i := Remove(strt[i], k)], uvhead, mainthread, roots)
            && Kept(h, m, h - {x}, m - {x}, cw)
  {
    hide ListsOk, LiveClosed, Kept, KeptAt, FixedOk, NeverBlack;
    var x := strt[i][k];
    FreeString(h, rootgc, strt, uvhead, i, k);
    OwnersAreThreads(h, rootgc, strt, uvhead);
    FreeKept(h, m, cw, x);
    KeptShared(h, m, h - {x}, m - {x}, cw, mainthread, roots);
    NeverBlackLess(h, m, h - {x}, m - {x});
  }

  lemma FreeRootShared(h: Heap, m: Marks, cw: bool, rootgc: seq<Ref>, strt: seq<seq<Ref>>, uvhead: seq<Ref>,
                       mainthread: Ref, roots: set<Ref>, p: nat)
    requires SharedOf(h, m, cw, rootgc, strt, uvhead, mainthread, roots) && p < |rootgc| && !Live(m, cw, rootgc[p])
    requires rootgc[p] in h && h[rootgc[p]].open == []
    ensures var x := rootgc[p];
            && SharedOf(h - {x}, m - {x}, cw, Remove(rootgc, p), strt, uvhead, mainthread, roots)
            && Kept(h, m, h - {x}, m - {x}, cw)
            && forall y :: y in h && IsOpen(h[y]) ==> h[y].owner != Some(x)
  {
    hide ListsOk, LiveClosed, Kept, KeptAt, FixedOk, NeverBlack;
    var x := rootgc[p];
    FreeRoot(h, rootgc, strt, uvhead, p);
    FreeKept(h, m, cw, x);
    KeptShared(h, m, h - {x}, m - {x}, cw, mainthread, roots);
    NeverBlackLess(h, m, h - {x}, m - {x});
  }

  lemma CloseOpenShared(h: Heap, m: Marks, cw: bool, rootgc: seq<Ref>, strt: seq<seq<Ref>>, uvhead: seq<Ref>,
                        mainthread: Ref, roots: set<Ref>, t: Ref, k: nat)
    requires SharedOf(h, m, cw, rootgc, strt, uvhead, mainthread, roots) && t in h && k < |h[t].open|
    ensures var x := h[t].open[k];
            && x in h && SharedOf(CloseOpen(h, t, k), m, cw, [x] + rootgc, strt, Without(uvhead, x), mainthread, roots)
            && Kept(h, m, CloseOpen(h, t, k), m, cw)
  {
    hide ListsOk, KeptAt, OpenOk, FixedOk, NeverBlack, IsChild;
    var x := h[t].open[k];
    OpenFacts(h, m, cw, rootgc, strt, uvhead, mainthread, roots, t, k);
    var h' := CloseOpen(h, t, k);
    CloseOpenLists(h, rootgc, strt, uvhead, t, k);
    forall o, c ensures IsChild(h', o, c) <==> IsChild(h, o, c) { CloseOpenChildren(h, t, k, o, c); }
    assert Kept(h, m, h', m, cw);
    KeptShared(h, m, h', m, cw, mainthread, roots);
    BlackKept(h, m, h', x);
  }

  lemma BlackKept(h: Heap, m: Marks, h': Heap, x: Ref)
    requires NeverBlack(h, m) && x in m && m[x] != Black && m.Keys == h.Keys == h'.Keys
    requires forall y {:trigger h[y]} {:trigger h'[y]} ::
               y in h && y != x ==> h'[y].kind == h[y].kind && h'[y].owner == h[y].owner
    ensures NeverBlack(h', m)
  {
  }

  /** A live object gets another colour that is not that of dead objects. */
  lemma RecolorShared(h: Heap, m: Marks, cw: bool, rootgc: seq<Ref>, strt: seq<seq<Ref>>, uvhead: seq<Ref>,
                      mainthread: Ref, roots: set<Ref>, o: Ref, c: Color)
    requires SharedOf(h, m, cw, rootgc, strt, uvhead, mainthread, roots) && Live(m, cw, o) && c != White(!cw)
    requires c == Black ==> h[o].kind != ThreadObj && !IsOpen(h[o])
    ensures SharedOf(h, m[o := c], cw, rootgc, strt, uvhead, mainthread, roots) && Kept(h, m, h, m[o := c], cw)
  {
    hide ListsOk, KeptAt, FixedOk;
    assert Kept(h, m, h, m[o := c], cw);
    KeptShared(h, m, h, m[o := c], cw, mainthread, roots);
  }

  /** Marking keeps what every phase shares. */
  lemma ShadedShared(h: Heap, m: Marks, m': Marks, cw: bool, rootgc: seq<Ref>, strt: seq<seq<Ref>>, uvhead: seq<Ref>,
                     mainthread: Ref, roots: set<Ref>)
    requires SharedOf(h, m, cw, rootgc, strt, uvhead, mainthread, roots) && m'.Keys == m.Keys && NeverBlack(h, m')
    requires forall o :: Live(m, cw, o) <==> Live(m', cw, o)
    ensures SharedOf(h, m', cw, rootgc, strt, uvhead, mainthread, roots)
  {
  }

  lemma NewShared(h: Heap, m: Marks, cw: bool, mainthread: Ref, roots: set<Ref>, o: Ref, h': Heap)
    requires m.Keys == h.Keys && FixedOk(h, mainthread) && LiveClosed(h, m, cw) && NeverBlack(h, m)
    requires mainthread in h && h[mainthread].kind == ThreadObj && (forall r :: r in roots ==> Live(m, cw, r))
    requires o !in h && h'.Keys == h.Keys + {o} && (h'[o].fixed ==> h'[o].kind == StringObj)
    requires forall y {:trigger h[y]} {:trigger h'[y]} ::
               y in h ==> h'[y].kind == h[y].kind && h'[y].owner == h[y].owner && h'[y].fixed == h[y].fixed
    requires forall y: Ref, c: Ref {:trigger IsChild(h', y, c)} :: y in h ==> (IsChild(h', y, c) <==> IsChild(h, y, c))
    requires forall c: Ref {:trigger IsChild(h', o, c)} :: IsChild(h', o, c) ==> Live(m, cw, c)
    ensures var m' := m[o := White(cw)];
            && m'.Keys == h'.Keys && FixedOk(h', mainthread) && LiveClosed(h', m', cw) && NeverBlack(h', m')
            && h'[mainthread].kind == ThreadObj && forall r :: r in roots ==> Live(m', cw, r)
  {
  }

  lemma NewRootShared(h: Heap, m: Marks, cw: bool, rootgc: seq<Ref>, strt: seq<seq<Ref>>, uvhead: seq<Ref>,
                      mainthread: Ref, roots: set<Ref>, o: Ref, x: Object)
    requires SharedOf(h, m, cw, rootgc, strt, uvhead, mainthread, roots) && o !in h
    requires x.kind != StringObj && !IsOpen(x) && x.open == [] && !x.fixed && forall v :: v in x.fields ==> v == None
    ensures SharedOf(h[o := x], m[o := White(cw)], cw, [o] + rootgc, strt, uvhead, mainthread, roots)
    ensures forall y: Ref, c: Ref :: IsChild(h[o := x], y, c) <==> IsChild(h, y, c)
  {
    hide ListsOk, KeptAt;
    NewRoot(h, rootgc, strt, uvhead, o, x);
    OwnersAreThreads(h, rootgc, strt, uvhead);
    assert forall y: Ref, c: Ref :: IsChild(h[o := x], y, c) <==> IsChild(h, y, c);
    NewShared(h, m, cw, mainthread, roots, o, h[o := x]);
  }

  lemma NewStringShared(h: Heap, m: Marks, cw: bool, rootgc: seq<Ref>, strt: seq<seq<Ref>>, uvhead: seq<Ref>,
                        mainthread: Ref, roots: set<Ref>, i: nat, o: Ref, fixed: bool)
    requires SharedOf(h, m, cw, rootgc, strt, uvhead, mainthread, roots) && i < |strt| && o !in h
    ensures var h' := h[o := Object(StringObj, fixed, [], None, 0, [])];
            && SharedOf(h', m[o := White(cw)], cw, rootgc, strt[i := [o] + strt[i]], uvhead, mainthread, roots)
            && forall y: Ref, c: Ref :: IsChild(h', y, c) <==> IsChild(h, y, c)
  {
    hide ListsOk, KeptAt;
    NewString(h, rootgc, strt, uvhead, i, o, fixed);
    OwnersAreThreads(h, rootgc, strt, uvhead);
    var h' := h[o := Object(StringObj, fixed, [], None, 0, [])];
    assert forall y: Ref, c: Ref :: IsChild(h', y, c) <==> IsChild(h, y, c);
    NewShared(h, m, cw, mainthread, roots, o, h');
  }

  lemma AddOpenShared(h: Heap, m: Marks, cw: bool, rootgc: seq<Ref>, strt: seq<seq<Ref>>, uvhead: seq<Ref>,
                      mainthread: Ref, roots: set<Ref>, t: Ref, k: nat, o: Ref, level: nat)
    requires SharedOf(h, m, cw, rootgc, strt, uvhead, mainthread, roots)
    requires o !in h && t in h && h[t].kind == ThreadObj && level < |h[t].fields| && Live(m, cw, t) && k <= |h[t].open|
    requires forall i :: 0 <= i < k ==> h[t].open[i] in h && h[h[t].open[i]].level > level
    requires forall i :: k <= i < |h[t].open| ==> h[t].open[i] in h && h[h[t].open[i]].level < level
    ensures SharedOf(AddOpen(h, t, k, o, level), m[o := White(cw)], cw, rootgc, strt, [o] + uvhead, mainthread, roots)
    ensures forall y: Ref, c: Ref :: y in h ==> (IsChild(AddOpen(h, t, k, o, level), y, c) <==> IsChild(h, y, c))
    ensures forall c: Ref :: IsChild(AddOpen(h, t, k, o, level), o, c) ==> IsChild(h, t, c)
  {
    hide ListsOk, KeptAt;
    AddOpenLists(h, rootgc, strt, uvhead, t, k, o, level);
    OwnersAreThreads(h, rootgc, strt, uvhead);
    var h' := AddOpen(h, t, k, o, level);
    forall c: Ref | IsChild(h', o, c) ensures IsChild(h, t, c) { assert h[t].fields[level] == Some(c); }
    assert forall y: Ref, c: Ref :: y in h ==> (IsChild(h', y, c) <==> IsChild(h, y, c));
    NewShared(h, m, cw, mainthread, roots, o, h');
  }

  /** A live value is stored into a field. */
  lemma StoreShared(h: Heap, m: Marks, cw: bool, rootgc: seq<Ref>, strt: seq<seq<Ref>>, uvhead: seq<Ref>,
                    mainthread: Ref, roots: set<Ref>, o: Ref, i: nat, v: Option<Ref>)
    requires SharedOf(h, m, cw, rootgc, strt, uvhead, mainthread, roots) && o in h && i < |h[o].fields|
    requires v.Some? ==> Live(m, cw, v.value)
    ensures var h' := h[o := h[o].(fields := h[o].fields[i := v])];
            && SharedOf(h', m, cw, rootgc, strt, uvhead, mainthread, roots)
            && forall y: Ref, c: Ref :: IsChild(h', y, c) ==>
                 IsChild(h, y, c) || (v == Some(c) && (y == o || (y in h && h[y].owner == Some(o) && IsOpen(h[y]))))
  {
    hide ListsOk, KeptAt;
    StoreLists(h, rootgc, strt, uvhead, o, h[o].fields[i := v]);
    var h' := h[o := h[o].(fields := h[o].fields[i := v])];
    assert forall y {:trigger h[y]} {:trigger h'[y]} :: y in h ==>
             h'[y].kind == h[y].kind && h'[y].owner == h[y].owner && h'[y].fixed == h[y].fixed;
    assert h'.Keys == h.Keys;
    assert FixedOk(h', mainthread);
    assert NeverBlack(h', m);
    forall y: Ref, c: Ref | Live(m, cw, y) && IsChild(h', y, c) ensures Live(m, cw, c) {
      assert IsChild(h, y, c) || v == Some(c);
    }
  }

  /** An object is linked at the front of rootgc; the position of the sweep stays behind the same object. */
  function Shift(sg: nat): nat {
    if sg == 0 then 0 else sg + 1
  }

  lemma SweptLink(h: Heap, m: Marks, cw: bool, rootgc: seq<Ref>, strt: seq<seq<Ref>>, ss: nat, sg: nat, o: Ref,
                  h': Heap, m': Marks)
    requires sg <= |rootgc| && SweptWhite(h, m, cw, rootgc, strt, ss, sg)
    requires forall x :: x in m' && x != o && m'[x] != White(cw) ==>
               x in m && m[x] != White(cw) && x in h && x in h' && h'[x].kind == h[x].kind && h'[x].owner == h[x].owner
    requires o in m' && m'[o] == White(cw)
    ensures SweptWhite(h', m', cw, [o] + rootgc, strt, ss, Shift(sg))
  {
    var r := [o] + rootgc;
    assert forall y :: y in rootgc[sg..] ==> y in r[Shift(sg)..] by {
      if sg > 0 { assert r[sg+1..] == rootgc[sg..]; } else { assert rootgc[0..] == rootgc; }
    }
    forall x | x in m' && m'[x] != White(cw)
      ensures Unswept(h', r, strt, ss, Shift(sg), x)
    {
      assert Unswept(h, rootgc, strt, ss, sg, x);
    }
  }

  /** An open upvalue x was closed: its children are the same, but it has to be traversed now. */
  lemma ClosedMark(h: Heap, m: Marks, cw: bool, list: seq<Ref>, again: seq<Ref>, x: Ref, h': Heap)
    requires MarkOk(h, m, cw, list, again, {}) && x in h && IsOpen(h[x]) && h'.Keys == h.Keys
    requires forall o, c :: IsChild(h', o, c) <==> IsChild(h, o, c)
    requires forall y ::
               y in h && y != x ==> h'[y].kind == h[y].kind && h'[y].owner == h[y].owner && h'[y].fields == h[y].fields
    requires h'[x].kind == UpvalObj && !IsOpen(h'[x])
    ensures x in m && x !in list && x !in again && MarkOk(h', m, cw, list, again, if m[x].White? then {} else {x})
  {
    assert Tri(h', m, {x});
    assert forall y :: y in h && y != x ==>
             (Silent(h', y) <==> Silent(h, y)) && (Traversable(h', y) <==> Traversable(h, y));
    assert StringsOk(h');
  }

  /** The heap after luaF_close in the mark phase. */
  lemma CloseOpenMark(h: Heap, m: Marks, cw: bool, list: seq<Ref>, again: seq<Ref>, t: Ref, k: nat)
    requires MarkOk(h, m, cw, list, again, {}) && t in h && k < |h[t].open| && OpenOk(h, t) && h[t].kind == ThreadObj
    requires h[t].open[k] in h && IsOpen(h[h[t].open[k]]) && h[t].open[k] != t
    requires forall x :: x in h && IsOpen(h[x]) ==> h[x].owner.value != h[t].open[k]
    ensures var x := h[t].open[k]; var h' := CloseOpen(h, t, k);
            x in m && x !in list && x !in again && MarkOk(h', m, cw, list, again, if m[x].White? then {} else {x})
  {
    hide MarkOk;
    var x, h' := h[t].open[k], CloseOpen(h, t, k);
    forall o, c ensures IsChild(h', o, c) <==> IsChild(h, o, c) { CloseOpenChildren(h, t, k, o, c); }
    ClosedMark(h, m, cw, list, again, x, h');
  }

  /** A new object without marked children. */
  lemma NewMark(h: Heap, m: Marks, cw: bool, list: seq<Ref>, again: seq<Ref>, o: Ref, h': Heap)
    requires MarkOk(h, m, cw, list, again, {}) && o !in h && h'.Keys == h.Keys + {o}
    requires forall x :: x in h && IsOpen(h[x]) ==> h[x].owner.value in h
    requires forall x {:trigger h[x]} {:trigger h'[x]} :: x in h ==>
               && h'[x].kind == h[x].kind && h'[x].fields == h[x].fields
               && h'[x].owner == h[x].owner && h'[x].level == h[x].level
    requires h'[o].kind == StringObj ==> h'[o].fields == []
    requires forall c :: IsChild(h', o, c) ==> c in m
    ensures MarkOk(h', m[o := White(cw)], cw, list, again, {})
  {
    hide MarkOk;
    forall x, c | x in h ensures IsChild(h', x, c) <==> IsChild(h, x, c) { }
    MarkedStrings(h, m, cw, list, again);
    MarkMove(h, m, cw, list, again, o, h');
  }

  lemma MarkedStrings(h: Heap, m: Marks, cw: bool, list: seq<Ref>, again: seq<Ref>)
    requires MarkOk(h, m, cw, list, again, {})
    ensures StringsOk(h)
  {
  }

  lemma MarkMove(h: Heap, m: Marks, cw: bool, list: seq<Ref>, again: seq<Ref>, o: Ref, h': Heap)
    requires MarkOk(h, m, cw, list, again, {}) && o !in h && h'.Keys == h.Keys + {o} && StringsOk(h')
    requires forall x, c {:trigger IsChild(h', x, c)} :: x in h ==> (IsChild(h', x, c) <==> IsChild(h, x, c))
    requires forall x {:trigger h[x]} {:trigger h'[x]} ::
               x in h ==> h'[x].kind == h[x].kind && h'[x].owner == h[x].owner
    requires forall c :: IsChild(h', o, c) ==> c in m
    ensures MarkOk(h', m[o := White(cw)], cw, list, again, {})
  {
    var m' := m[o := White(cw)];
    assert GraysListed(h', m', list, again, {}) && NeverBlack(h', m');
    assert ListGray(h', m', list) && ListGray(h', m', again);
    assert Tri(h', m', {});
  }

  // ----- stores of the mutator -----

  function Store(h: Heap, o: Ref, i: nat, v: Option<Ref>): Heap
    requires o in h && i < |h[o].fields|
  {
    h[o := h[o].(fields := h[o].fields[i := v])]
  }

  lemma StoreChildren(h: Heap, o: Ref, i: nat, v: Option<Ref>)
    requires o in h && i < |h[o].fields|
    ensures var h' := Store(h, o, i, v);
            && h'.Keys == h.Keys
            && (forall y {:trigger h[y]} {:trigger h'[y]} ::
                  y in h ==> h'[y].kind == h[y].kind && h'[y].owner == h[y].owner)
            && forall y: Ref, c: Ref {:trigger IsChild(h', y, c)} :: IsChild(h', y, c) ==>
                 IsChild(h, y, c) || (v == Some(c) && (y == o || (y in h && IsOpen(h[y]) && h[y].owner == Some(o))))
  {
  }

  /** In the mark phase; the object is busy if the store needs a barrier. */
  lemma StoreMark(h: Heap, m: Marks, cw: bool, list: seq<Ref>, again: seq<Ref>, o: Ref, i: nat, v: Option<Ref>,
                  busy: set<Ref>)
    requires MarkOk(h, m, cw, list, again, {}) && o in h && i < |h[o].fields| && h[o].kind != StringObj
    requires v.Some? ==> v.value in m
    requires m[o] == Black && v.Some? && m[v.value].White? ==> o in busy
    requires busy == {} || (busy == {o} && m[o] == Black)
    ensures MarkOk(Store(h, o, i, v), m, cw, list, again, busy)
    ensures forall c: Ref :: m[o] == Black && IsChild(Store(h, o, i, v), o, c) ==> v == Some(c) || NonWhite(m, c)
  {
    var h' := Store(h, o, i, v);
    StoreChildren(h, o, i, v);
    assert forall y :: y in h ==> (Silent(h', y) <==> Silent(h, y)) && (Traversable(h', y) <==> Traversable(h, y));
    assert Tri(h', m, busy);
  }

  /** luaC_barrierback: a black table becomes gray again. */
  lemma BackMark(h: Heap, m: Marks, cw: bool, list: seq<Ref>, again: seq<Ref>, o: Ref)
    requires MarkOk(h, m, cw, list, again, {o}) && m[o] == Black && Traversable(h, o)
    ensures o !in list && o !in again && MarkOk(h, m[o := Gray], cw, list, [o] + again, {})
  {
    var l := [o] + again;
    forall i, j | 0 <= i < j < |l| ensures l[i] != l[j] { if i == 0 { assert l[j] in again; } }
    assert forall x :: x in again ==> x in l;
    assert o in l;
  }

  /** Heap and marks change so that the sweep has not less behind it. */
  lemma SweptSame(h: Heap, m: Marks, cw: bool, rootgc: seq<Ref>, strt: seq<seq<Ref>>, ss: nat, sg: nat, h': Heap,
                  m': Marks,
                  strt': seq<seq<Ref>>)
    requires sg <= |rootgc| && SweptWhite(h, m, cw, rootgc, strt, ss, sg)
    requires forall x :: x in m' && m'[x] != White(cw) ==>
               x in m && m[x] != White(cw) && x in h && x in h' && h'[x].kind == h[x].kind && h'[x].owner == h[x].owner
    requires |strt'| == |strt| && forall j, x :: 0 <= j < |strt| && x in strt[j] ==> x in strt'[j]
    ensures SweptWhite(h', m', cw, rootgc, strt', ss, sg)
  {
    forall x | x in m' && m'[x] != White(cw)
      ensures Unswept(h', rootgc, strt', ss, sg, x)
    {
      assert Unswept(h, rootgc, strt, ss, sg, x);
      if h[x].kind == StringObj {
        var j :| 0 <= j < |strt| && ss <= j && x in strt[j];
        assert x in strt'[j];
      }
    }
  }

  /** A dead object whose children are live comes back to life (changewhite). */
  lemma ResurrectShared(h: Heap, m: Marks, cw: bool, rootgc: seq<Ref>, strt: seq<seq<Ref>>, uvhead: seq<Ref>,
                        mainthread: Ref, roots: set<Ref>, o: Ref)
    requires SharedOf(h, m, cw, rootgc, strt, uvhead, mainthread, roots) && o in h
    requires forall c: Ref :: IsChild(h, o, c) ==> Live(m, cw, c)
    ensures SharedOf(h, m[o := White(cw)], cw, rootgc, strt, uvhead, mainthread, roots)
  {
    hide ListsOk, KeptAt;
  }

  // ----- userdata -----

  /** The order of rootgc does not matter. */
  lemma SameElements(h: Heap, m: Marks, cw: bool, rootgc: seq<Ref>, rootgc': seq<Ref>, strt: seq<seq<Ref>>,
                     uvhead: seq<Ref>,
                     mainthread: Ref, roots: set<Ref>)
    requires SharedOf(h, m, cw, rootgc, strt, uvhead, mainthread, roots)
    requires NoDup(rootgc') && forall o {:trigger o in rootgc} {:trigger o in rootgc'} :: o in rootgc <==> o in rootgc'
    ensures SharedOf(h, m, cw, rootgc', strt, uvhead, mainthread, roots)
  {
    hide LiveClosed, NeverBlack, FixedOk, OpenOk;
    forall o | o in h ensures KeptAt(h, rootgc', strt, uvhead, o) { assert KeptAt(h, rootgc, strt, uvhead, o); }
    assert ListsOk(h, rootgc', strt, uvhead);
  }

  lemma InsertNoDup(s: seq<Ref>, q: nat, o: Ref)
    requires q <= |s| && NoDup(s) && o !in s
    ensures NoDup(InsertAt(s, q, o))
  {
    var l := InsertAt(s, q, o);
    forall i, j | 0 <= i < j < |l| ensures l[i] != l[j] {
      if i == q { assert l[j] == s[j-1] && l[j] in s; }
      else if j == q { assert l[i] == s[i] && l[i] in s; }
      else { assert l[i] == s[if i < q then i else i - 1] && l[j] == s[if j < q then j else j - 1]; }
    }
  }

  lemma NewUdataShared(h: Heap, m: Marks, cw: bool, rootgc: seq<Ref>, strt: seq<seq<Ref>>, uvhead: seq<Ref>,
                       mainthread: Ref, roots: set<Ref>, q: nat, o: Ref, x: Object)
    requires SharedOf(h, m, cw, rootgc, strt, uvhead, mainthread, roots) && o !in h && q <= |rootgc|
    requires x.kind != StringObj && !IsOpen(x) && x.open == [] && !x.fixed && forall v :: v in x.fields ==> v == None
    ensures SharedOf(h[o := x], m[o := White(cw)], cw, InsertAt(rootgc, q, o), strt, uvhead, mainthread, roots)
  {
    hide ListsOk, LiveClosed, NeverBlack, FixedOk, KeptAt, IsChild;
    ListsFacts(h, rootgc, strt, uvhead);
    NewRootShared(h, m, cw, rootgc, strt, uvhead, mainthread, roots, o, x);
    InsertElems(rootgc, q, o);
    InsertNoDup(rootgc, q, o);
    assert forall y :: y in [o] + rootgc <==> y == o || y in rootgc;
    SameElements(h[o := x], m[o := White(cw)], cw, [o] + rootgc, InsertAt(rootgc, q, o), strt, uvhead, mainthread,
                 roots);
  }

  lemma ListsFacts(h: Heap, rootgc: seq<Ref>, strt: seq<seq<Ref>>, uvhead: seq<Ref>)
    requires ListsOk(h, rootgc, strt, uvhead)
    ensures NoDup(rootgc) && forall o :: o in rootgc ==> o in h
  {
  }

  /** An object is linked at position q of rootgc: the sweep finds it if it stands there, or before. */
  lemma SweptInsert(h: Heap, m: Marks, cw: bool, rootgc: seq<Ref>, strt: seq<seq<Ref>>, ss: nat, sg: nat, q: nat,
                    o: Ref, x: Object)
    requires sg <= |rootgc| && q <= |rootgc| && SweptWhite(h, m, cw, rootgc, strt, ss, sg) && o !in h
    requires m.Keys == h.Keys
    ensures SweptWhite(h[o := x], m[o := White(cw)], cw, InsertAt(rootgc, q, o), strt, ss,
                       if sg <= q then sg else sg + 1)
  {
    var r, sg' := InsertAt(rootgc, q, o), if sg <= q then sg else sg + 1;
    forall y | y in rootgc[sg..] ensures y in r[sg'..] {
      var i :| sg <= i < |rootgc| && rootgc[i] == y;
      var j := if i < q then i else i + 1;
      assert r[j] == y && r[sg'..][j-sg'] == y;
    }
    forall y | y in m && m[y] != White(cw) ensures Unswept(h[o := x], r, strt, ss, sg', y) {
      assert Unswept(h, rootgc, strt, ss, sg, y);
    }
  }

  // ----- the first state -----

  function FirstHeap(mainthread: Ref, registry: Ref, stack: nat): Heap {
    map[mainthread := Object(ThreadObj, true, seq(stack, _ => None), None, 0, []),
        registry := Object(TableObj, false, [], None, 0, [])]
  }

  lemma FirstLists(mainthread: Ref, registry: Ref, stack: nat, strt: seq<seq<Ref>>)
    requires mainthread != registry && forall i {:trigger strt[i]} :: 0 <= i < |strt| ==> strt[i] == []
    ensures ListsOk(FirstHeap(mainthread, registry, stack), [mainthread, registry], strt, [])
  {
    var h, rootgc := FirstHeap(mainthread, registry, stack), [mainthread, registry];
    assert rootgc[0] == mainthread && rootgc[1] == registry;
    forall o | o in h ensures KeptAt(h, rootgc, strt, [], o) && OpenOk(h, o) { }
  }

  lemma FirstShared(mainthread: Ref, registry: Ref, stack: nat, strt: seq<seq<Ref>>)
    requires mainthread != registry && strt != [] && forall i {:trigger strt[i]} :: 0 <= i < |strt| ==> strt[i] == []
    ensures SharedOf(FirstHeap(mainthread, registry, stack),
                     map[mainthread := White(false), registry := White(false)], false,
                     [mainthread, registry], strt, [], mainthread, {mainthread, registry})
  {
    hide ListsOk, KeptAt;
    FirstLists(mainthread, registry, stack, strt);
    var h := FirstHeap(mainthread, registry, stack);
    assert forall o: Ref, c: Ref :: !IsChild(h, o, c);
  }
}
