/** What a program does to the heap: the same with and without a collector (lvm.c, lapi.c, lfunc.c).

    The reference heap never loses an object and knows no marks and no lists.  A program uses what it can reach, and
    what it has made since the collector last ran. */
module Mutator {
  import opened Wrappers
  import opened CollectorSpec
  import opened CollectorLists

  /** What can happen in a run: a step of the collector, or an operation of the mutator on objects it holds. */
  datatype Event =
    | CollectStep
    | CollectAll
    | NewObject(o: Ref, kind: Kind, size: nat)
    | NewStr(o: Ref, bucket: nat, fixed: bool)
    // a string goes to slot i of a stack: the one that was found, if it was not collected, or else a new one
    | PushStr(found: Ref, o: Ref, bucket: nat, t: Ref, i: nat)
    | Assign(o: Ref, i: nat, v: Option<Ref>)
    // to the upvalue in slot i of a closure
    | AssignUpval(closure: Ref, i: nat, v: Option<Ref>)
    // slot i of a closure gets the upvalue of a variable: uv is used if there is none yet
    | Capture(t: Ref, level: nat, uv: Ref, closure: Ref, i: nat)
    | LeaveBlock(t: Ref, level: nat)
    | SetMt(n: nat, v: Option<Ref>)
    | Switch(t: Ref)

  // ----- the reference run -----

  datatype Program = Program(heap: Heap, mainthread: Ref, registry: Ref, mt: seq<Option<Ref>>, running: Ref,
                             buckets: nat, made: set<Ref>)

  ghost function RootsOf(s: Program): set<Ref> {
    {s.mainthread, s.registry, s.running} + set v | v in s.mt && v.Some? :: v.value
  }

  /** The program can reach o, or can reach it from what is new. */
  ghost predicate Usable(s: Program, o: Ref) {
    o in s.heap && Reachable(s.heap, RootsOf(s) + s.made, o)
  }

  ghost predicate UsableValue(s: Program, v: Option<Ref>) {
    v.Some? ==> Usable(s, v.value)
  }

  function NewOf(kind: Kind, fixed: bool, size: nat): Object {
    Object(kind, fixed, seq(size, _ => None), None, 0, [])
  }

  function StringOf(fixed: bool): Object {
    Object(StringObj, fixed, [], None, 0, [])
  }

  function OpenUpval(t: Ref, level: nat): Object {
    Object(UpvalObj, false, [], Some(t), level, [])
  }

  /** Is x the open upvalue of this slot? */
  predicate AtSlot(h: Heap, x: Ref, t: Ref, level: nat) {
    x in h && IsOpen(h[x]) && h[x].owner == Some(t) && h[x].level == level
  }

  predicate HasField(h: Heap, o: Ref, i: nat) {
    o in h && i < |h[o].fields|
  }

  /** What a program may do. */
  ghost predicate Possible(s: Program, e: Event) {
    match e
    case CollectStep => true
    case CollectAll => true
    case NewObject(o, kind, _) => o !in s.heap && kind != StringObj
    case NewStr(o, bucket, _) => o !in s.heap && bucket < s.buckets
    case PushStr(found, o, bucket, t, i) =>
      && found in s.heap && s.heap[found].kind == StringObj && o !in s.heap && bucket < s.buckets
      && Usable(s, t) && s.heap[t].kind == ThreadObj && HasField(s.heap, t, i)
    case Assign(o, i, v) =>
      && Usable(s, o) && HasField(s.heap, o, i) && s.heap[o].kind != StringObj && !IsOpen(s.heap[o])
      && UsableValue(s, v)
    case AssignUpval(closure, i, v) =>
      && Usable(s, closure) && s.heap[closure].kind == FunctionObj && HasField(s.heap, closure, i)
      && s.heap[closure].fields[i].Some? && UsableValue(s, v)
      && var u := s.heap[closure].fields[i].value;
         u in s.heap && s.heap[u].kind == UpvalObj && (IsOpen(s.heap[u]) || |s.heap[u].fields| > 0)
    case Capture(t, level, uv, closure, i) =>
      && Usable(s, t) && s.heap[t].kind == ThreadObj && HasField(s.heap, t, level) && uv !in s.heap
      && Usable(s, closure) && s.heap[closure].kind == FunctionObj && HasField(s.heap, closure, i)
    case LeaveBlock(t, _) => Usable(s, t) && s.heap[t].kind == ThreadObj
    case SetMt(n, v) => n < |s.mt| && UsableValue(s, v)
    case Switch(t) => Usable(s, t)
  }

  /** The object that an event puts somewhere: what is usable is used again; whether something else is, which the
      program cannot know about, is left open. */
  ghost predicate Choice(s: Program, e: Event, p: Ref)
    requires Possible(s, e)
  {
    match e
    case PushStr(found, o, _, _, _) => p == found || (p == o && !Usable(s, found))
    case Capture(t, level, uv, _, _) =>
      && (p == uv || AtSlot(s.heap, p, t, level))
      && forall x :: AtSlot(s.heap, x, t, level) && Usable(s, x) ==> x == p
    case _ => true
  }

  /** An assignment to an upvalue goes to the stack while it is open. */
  function SetUpvalue(h: Heap, u: Ref, v: Option<Ref>): Heap
    requires u in h
  {
    if IsOpen(h[u]) then Put(h, h[u].owner.value, h[u].level, v) else Put(h, u, 0, v)
  }

  function ClosedUpval(v: Option<Ref>): Object {
    Object(UpvalObj, false, [v], None, 0, [])
  }

  /** Every upvalue of t at the level and above gets its value. */
  predicate Leaves(h: Heap, x: Ref, t: Ref, level: nat)
    requires x in h
  {
    IsOpen(h[x]) && h[x].owner == Some(t) && h[x].level >= level
  }

  function AfterBlock(h: Heap, t: Ref, level: nat): Heap {
    map x | x in h :: if Leaves(h, x, t, level) then ClosedUpval(StackValue(h, h[x])) else h[x]
  }

  function Next(s: Program, e: Event, p: Ref): Program {
    match e
    case CollectStep => s.(made := {})
    case CollectAll => s.(made := {})
    case NewObject(o, kind, size) => s.(heap := s.heap[o := NewOf(kind, false, size)], made := s.made + {o})
    case NewStr(o, _, fixed) => s.(heap := s.heap[o := StringOf(fixed)], made := s.made + {o})
    case PushStr(_, o, _, t, i) =>
      s.(heap := Put(if p == o then s.heap[o := StringOf(false)] else s.heap, t, i, Some(p)))
    case Assign(o, i, v) => s.(heap := Put(s.heap, o, i, v))
    case AssignUpval(closure, i, v) =>
      if HasField(s.heap, closure, i) && s.heap[closure].fields[i].Some?
         && s.heap[closure].fields[i].value in s.heap then
        s.(heap := SetUpvalue(s.heap, s.heap[closure].fields[i].value, v))
      else s
    case Capture(t, level, uv, closure, i) =>
      s.(heap := Put(if p == uv then s.heap[uv := OpenUpval(t, level)] else s.heap, closure, i, Some(p)))
    case LeaveBlock(t, level) => s.(heap := AfterBlock(s.heap, t, level))
    case SetMt(n, v) => if n < |s.mt| then s.(mt := s.mt[n := v]) else s
    case Switch(t) => s.(running := t)
  }

  function Put(h: Heap, o: Ref, i: nat, v: Option<Ref>): Heap {
    if HasField(h, o, i) then Store(h, o, i, v) else h
  }

  /** Whatever is chosen, each event is possible when it comes. */
  ghost predicate Disciplined(s: Program, events: seq<Event>)
    decreases |events|
  {
    events != [] ==>
      && Possible(s, events[0])
      && forall p {:trigger Choice(s, events[0], p)} ::
           Choice(s, events[0], p) ==> Disciplined(Next(s, events[0], p), events[1..])
  }

  /** After the events, with these choices. */
  function After(s: Program, events: seq<Event>, choices: seq<Ref>): Program
    requires |choices| == |events|
  {
    if events == [] then s
    else
      var n := |events| - 1;
      Next(After(s, events[..n], choices[..n]), events[n], choices[n])
  }

  ghost predicate Chosen(s: Program, events: seq<Event>, choices: seq<Ref>)
    requires |choices| == |events|
  {
    events != [] ==>
      var n := |events| - 1;
      && Chosen(s, events[..n], choices[..n])
      && var s' := After(s, events[..n], choices[..n]); Possible(s', events[n]) && Choice(s', events[n], choices[n])
  }

  // ----- the heap of the collector and the reference heap -----

  /** The contents of an object: those of an upvalue are its value. */
  function Contents(h: Heap, o: Ref): seq<Option<Ref>>
    requires o in h
  {
    if IsOpen(h[o]) then [StackValue(h, h[o])] else h[o].fields
  }

  /** An upvalue that was closed because its thread was freed, while in the reference heap the thread stays. */
  predicate Orphan(R: Heap, h: Heap, x: Ref) {
    x in h && x in R && IsOpen(R[x]) && !IsOpen(h[x])
  }

  predicate Agrees(R: Heap, h: Heap, o: Ref)
    requires o in h
  {
    && o in R && R[o].kind == h[o].kind
    && if !IsOpen(R[o]) then !IsOpen(h[o]) && h[o].fields == R[o].fields
       else if IsOpen(h[o]) then h[o].owner == R[o].owner && h[o].level == R[o].level
       else h[o].fields == [StackValue(R, R[o])] && R[o].owner.value !in h
  }

  /** Open upvalues belong to stacks of threads. */
  ghost predicate Owned(h: Heap) {
    forall x {:trigger h[x]} :: x in h && IsOpen(h[x]) ==>
      h[x].owner.value in h && h[h[x].owner.value].kind == ThreadObj && h[x].level < |h[h[x].owner.value].fields|
  }

  ghost predicate OnePerSlot(h: Heap) {
    forall x, y {:trigger h[x], h[y]} ::
      x in h && y in h && IsOpen(h[x]) && IsOpen(h[y]) && h[x].owner == h[y].owner && h[x].level == h[y].level ==>
        x == y
  }

  ghost predicate OrphansApart(R: Heap, h: Heap) {
    forall x, y {:trigger Orphan(R, h, x), Orphan(R, h, y)} ::
      Orphan(R, h, x) && Orphan(R, h, y) && R[x].owner == R[y].owner && R[x].level == R[y].level ==> x == y
  }

  /** All objects that are left agree with the reference heap. */
  ghost predicate Follows(R: Heap, h: Heap) {
    && (forall o {:trigger h[o]} {:trigger Agrees(R, h, o)} :: o in h ==> Agrees(R, h, o))
    && OrphansApart(R, h) && Owned(R)
  }

  lemma SameContents(R: Heap, h: Heap, o: Ref)
    requires Follows(R, h) && Owned(h) && o in h
    ensures o in R && Contents(h, o) == Contents(R, o) && h[o].kind == R[o].kind
    ensures forall c: Ref :: IsChild(R, o, c) <==> IsChild(h, o, c)
  {
    assert Agrees(R, h, o);
    if IsOpen(h[o]) { assert Agrees(R, h, h[o].owner.value); }
  }

  lemma OwnedStore(h: Heap, o: Ref, i: nat, v: Option<Ref>)
    requires Owned(h) && HasField(h, o, i)
    ensures Owned(Store(h, o, i, v))
  {
    var h' := Store(h, o, i, v);
    assert forall x :: x in h ==> h'[x] == h[x].(fields := h'[x].fields) && |h'[x].fields| == |h[x].fields|;
  }

  /** Only the object itself, and the open upvalues of a stack, have other contents after a store. */
  lemma StoreAt(h: Heap, o: Ref, i: nat, v: Option<Ref>, x: Ref)
    requires HasField(h, o, i) && x in h
    ensures var h' := Store(h, o, i, v);
            && x in h' && h'[x].kind == h[x].kind && h'[x].owner == h[x].owner && h'[x].level == h[x].level
            && (x != o ==> h'[x] == h[x])
            && (IsOpen(h[x]) && h[x].owner != Some(o) ==> StackValue(h', h'[x]) == StackValue(h, h[x]))
  {
  }

  lemma FollowsStore(R: Heap, h: Heap, o: Ref, i: nat, v: Option<Ref>)
    requires Follows(R, h) && Owned(h) && HasField(h, o, i) && !IsOpen(h[o]) && (o in R ==> !IsOpen(R[o]))
    ensures HasField(R, o, i) && Follows(Store(R, o, i, v), Store(h, o, i, v)) && Owned(Store(h, o, i, v))
  {
    hide OrphansApart, Owned;
    assert Agrees(R, h, o);
    OwnedStore(h, o, i, v);
    OwnedStore(R, o, i, v);
    var R', h' := Store(R, o, i, v), Store(h, o, i, v);
    forall x | x in h' ensures Agrees(R', h', x) { StoreAgrees(R, h, o, i, v, x); }
    OrphansStay(R, h, R', h');
  }

  lemma StoreAgrees(R: Heap, h: Heap, o: Ref, i: nat, v: Option<Ref>, x: Ref)
    requires HasField(h, o, i) && HasField(R, o, i) && !IsOpen(h[o]) && !IsOpen(R[o]) && h[o].fields == R[o].fields
    requires x in h && Agrees(R, h, x)
    ensures Agrees(Store(R, o, i, v), Store(h, o, i, v), x)
  {
    hide StackValue, Store;
    StoreAt(R, o, i, v, x);
    StoreAt(h, o, i, v, x);
    StoredHere(R, o, i, v);
    StoredHere(h, o, i, v);
  }

  lemma StoredHere(h: Heap, o: Ref, i: nat, v: Option<Ref>)
    requires HasField(h, o, i)
    ensures Store(h, o, i, v).Keys == h.Keys && Store(h, o, i, v)[o].fields == h[o].fields[i := v]
  {
  }

  lemma FollowsSetUpval(R: Heap, h: Heap, u: Ref, v: Option<Ref>)
    requires Follows(R, h) && Owned(h) && u in h && h[u].kind == UpvalObj && (IsOpen(h[u]) || |h[u].fields| > 0)
    ensures u in R && Follows(SetUpvalue(R, u, v), SetUpvalue(h, u, v)) && Owned(SetUpvalue(h, u, v))
  {
    assert Agrees(R, h, u);
    if IsOpen(h[u]) {
      assert Agrees(R, h, h[u].owner.value);
      FollowsStore(R, h, h[u].owner.value, h[u].level, v);
    } else if IsOpen(R[u]) {
      OrphanStore(R, h, u, v);
    } else {
      FollowsStore(R, h, u, 0, v);
    }
  }

  lemma OrphanStore(R: Heap, h: Heap, u: Ref, v: Option<Ref>)
    requires Follows(R, h) && Owned(h) && Orphan(R, h, u) && |h[u].fields| > 0
    ensures Follows(SetUpvalue(R, u, v), Store(h, u, 0, v)) && Owned(Store(h, u, 0, v))
  {
    hide OrphansApart, Owned;
    assert Agrees(R, h, u);
    OwnerThere(R, u);
    var t, level := R[u].owner.value, R[u].level;
    OwnedStore(h, u, 0, v);
    OwnedStore(R, t, level, v);
    var R', h' := Store(R, t, level, v), Store(h, u, 0, v);
    forall x | x in h' ensures Agrees(R', h', x) {
      assert Agrees(R, h, x);
      if x != u && Orphan(R, h, x) { OtherSlot(R, h, x, u); }
      OrphanAgrees(R, h, u, v, x);
    }
    OrphansStay(R, h, R', h');
  }

  lemma OwnerThere(h: Heap, x: Ref)
    requires Owned(h) && x in h && IsOpen(h[x])
    ensures HasField(h, h[x].owner.value, h[x].level) && h[h[x].owner.value].kind == ThreadObj
  {
  }

  lemma OrphanAgrees(R: Heap, h: Heap, u: Ref, v: Option<Ref>, x: Ref)
    requires u in h && Agrees(R, h, u) && Orphan(R, h, u) && |h[u].fields| > 0
    requires HasField(R, R[u].owner.value, R[u].level) && R[R[u].owner.value].kind == ThreadObj
    requires x in h && Agrees(R, h, x)
    requires x != u && Orphan(R, h, x) ==> R[x].owner != R[u].owner || R[x].level != R[u].level
    ensures Agrees(Store(R, R[u].owner.value, R[u].level, v), Store(h, u, 0, v), x)
  {
  }

  lemma OtherSlot(R: Heap, h: Heap, x: Ref, y: Ref)
    requires OrphansApart(R, h) && Orphan(R, h, x) && Orphan(R, h, y) && x != y
    ensures R[x].owner != R[y].owner || R[x].level != R[y].level
  {
  }

  /** What was stored did not change which upvalues are open. */
  lemma OrphansStay(R: Heap, h: Heap, R': Heap, h': Heap)
    requires OrphansApart(R, h) && h'.Keys == h.Keys && R'.Keys == R.Keys
    requires forall x :: x in R ==> R'[x].kind == R[x].kind && R'[x].owner == R[x].owner && R'[x].level == R[x].level
    requires forall x :: x in h ==> h'[x].kind == h[x].kind && h'[x].owner == h[x].owner
    ensures OrphansApart(R', h')
  {
    forall x, y | Orphan(R', h', x) && Orphan(R', h', y) && R'[x].owner == R'[y].owner && R'[x].level == R'[y].level
      ensures x == y
    {
      assert Orphan(R, h, x) && Orphan(R, h, y);
    }
  }

  /** A new object is no orphan. */
  lemma OrphansWithNew(R: Heap, h: Heap, R': Heap, h': Heap, o: Ref)
    requires OrphansApart(R, h) && o in R' && !Orphan(R', h', o) && R' == R[o := R'[o]] && h'.Keys == h.Keys + {o}
    requires forall x :: x in h && x != o ==> h'[x].kind == h[x].kind && h'[x].owner == h[x].owner
    ensures OrphansApart(R', h')
  {
    forall x, y | Orphan(R', h', x) && Orphan(R', h', y) && R'[x].owner == R'[y].owner && R'[x].level == R'[y].level
      ensures x == y
    {
      assert Orphan(R, h, x) && Orphan(R, h, y);
    }
  }

  lemma NoOther(R: Heap, h: Heap)
    requires Follows(R, h)
    ensures h.Keys <= R.Keys
  {
    forall o | o in h ensures o in R { assert Agrees(R, h, o); }
  }

  lemma FollowsNew(R: Heap, h: Heap, o: Ref, x: Object)
    requires Follows(R, h) && Owned(h) && o !in R && !IsOpen(x)
    ensures o !in h && Follows(R[o := x], h[o := x]) && Owned(h[o := x])
  {
    hide OrphansApart;
    NoOther(R, h);
    var R', h' := R[o := x], h[o := x];
    forall y | y in h' ensures Agrees(R', h', y) { if y != o { assert Agrees(R, h, y); } }
    OrphansWithNew(R, h, R', h', o);
  }

  lemma FollowsCapture(R: Heap, h: Heap, t: Ref, k: nat, uv: Ref, level: nat)
    requires Follows(R, h) && Owned(h) && uv !in R
    requires HasField(h, t, level) && h[t].kind == ThreadObj && k <= |h[t].open|
    ensures uv !in h
    ensures Follows(R[uv := OpenUpval(t, level)], AddOpen(h, t, k, uv, level)) && Owned(AddOpen(h, t, k, uv, level))
  {
    hide OrphansApart, Owned, AddOpen;
    assert Agrees(R, h, t);
    NoOther(R, h);
    var R', h' := R[uv := OpenUpval(t, level)], AddOpen(h, t, k, uv, level);
    AddOpenShape(h, t, k, uv, level);
    forall y | y in h' ensures Agrees(R', h', y) {
      if y != uv {
        assert Agrees(R, h, y);
        CaptureAgrees(R, h, t, k, uv, level, y);
      }
    }
    OwnedCapture(R, uv, t, level);
    OwnedAddOpen(h, t, k, uv, level);
    OrphansWithNew(R, h, R', h', uv);
  }

  lemma AddOpenShape(h: Heap, t: Ref, k: nat, uv: Ref, level: nat)
    requires t in h && k <= |h[t].open| && uv !in h
    ensures var h' := AddOpen(h, t, k, uv, level);
            && h'.Keys == h.Keys + {uv} && h'[uv] == OpenUpval(t, level)
            && forall y :: y in h ==> h'[y] == h[y].(open := h'[y].open)
  {
  }

  lemma OwnedCapture(R: Heap, uv: Ref, t: Ref, level: nat)
    requires Owned(R) && uv !in R && HasField(R, t, level) && R[t].kind == ThreadObj
    ensures Owned(R[uv := OpenUpval(t, level)])
  {
  }

  lemma OwnedAddOpen(h: Heap, t: Ref, k: nat, uv: Ref, level: nat)
    requires Owned(h) && uv !in h && HasField(h, t, level) && h[t].kind == ThreadObj && k <= |h[t].open|
    ensures Owned(AddOpen(h, t, k, uv, level))
  {
    hide AddOpen;
    AddOpenShape(h, t, k, uv, level);
  }

  lemma CaptureAgrees(R: Heap, h: Heap, t: Ref, k: nat, uv: Ref, level: nat, y: Ref)
    requires t in h && k <= |h[t].open| && uv !in h && uv !in R && y in h && Agrees(R, h, y) && Owned(R)
    ensures var h' := AddOpen(h, t, k, uv, level); y in h' && Agrees(R[uv := OpenUpval(t, level)], h', y)
  {
    hide AddOpen;
    AddOpenShape(h, t, k, uv, level);
    if IsOpen(R[y]) { OwnerThere(R, y); }
  }

  /** From h to h' the upvalues of t at the level and above were closed, each with its value, or freed. */
  ghost predicate BlockLeft(h: Heap, h': Heap, t: Ref, level: nat) {
    && (forall x {:trigger h[x]} :: x in h && !Leaves(h, x, t, level) ==> x in h')
    && forall x {:trigger h'[x]} :: x in h' ==>
         && x in h
         && h'[x] == if Leaves(h, x, t, level) then ClosedUpval(StackValue(h, h[x])) else h[x].(open := h'[x].open)
  }

  lemma FollowsBlock(R: Heap, h: Heap, h': Heap, t: Ref, level: nat)
    requires Follows(R, h) && Owned(h) && Owned(h') && BlockLeft(h, h', t, level) && t in h && h[t].kind == ThreadObj
    ensures Follows(AfterBlock(R, t, level), h')
  {
    hide OrphansApart, BlockLeft, AfterBlock, Owned;
    var R' := AfterBlock(R, t, level);
    forall y | y in h' ensures y in h && Agrees(R', h', y) {
      BlockAt(h, h', t, level, y);
      SameContents(R, h, y);
      assert Agrees(R, h, y) && Agrees(R, h, t);
      BlockAgrees(R, h, h', t, level, y);
    }
    OwnedAfterBlock(R, t, level);
    OrphansAfterBlock(R, h, h', t, level);
  }

  lemma BlockAt(h: Heap, h': Heap, t: Ref, level: nat, y: Ref)
    requires BlockLeft(h, h', t, level) && y in h'
    ensures y in h
    ensures h'[y] == if Leaves(h, y, t, level) then ClosedUpval(StackValue(h, h[y])) else h[y].(open := h'[y].open)
  {
  }

  lemma BlockAgrees(R: Heap, h: Heap, h': Heap, t: Ref, level: nat, y: Ref)
    requires y in h' && y in h && Agrees(R, h, y) && t in h && Owned(R) && BlockLeft(h, h', t, level)
    requires Contents(h, y) == Contents(R, y) && h[t].kind == ThreadObj && t in R && R[t].kind == ThreadObj
    ensures Agrees(AfterBlock(R, t, level), h', y)
  {
    BlockAt(h, h', t, level, y);
    if IsOpen(R[y]) && !IsOpen(h[y]) {
      assert R[y].owner != Some(t);
      assert R[R[y].owner.value].kind == ThreadObj;
      if R[y].owner.value in h' { BlockAt(h, h', t, level, R[y].owner.value); }
    }
  }

  lemma OwnedAfterBlock(R: Heap, t: Ref, level: nat)
    requires Owned(R)
    ensures Owned(AfterBlock(R, t, level))
  {
  }

  lemma OrphansAfterBlock(R: Heap, h: Heap, h': Heap, t: Ref, level: nat)
    requires Follows(R, h) && t in h && BlockLeft(h, h', t, level)
    ensures OrphansApart(AfterBlock(R, t, level), h')
  {
    var R' := AfterBlock(R, t, level);
    forall y, z | Orphan(R', h', y) && Orphan(R', h', z) && R'[y].owner == R'[z].owner && R'[y].level == R'[z].level
      ensures y == z
    {
      BlockAt(h, h', t, level, y);
      BlockAt(h, h', t, level, z);
      assert Agrees(R, h, y) && Agrees(R, h, z);
      assert Orphan(R, h, y) && Orphan(R, h, z);
    }
  }

  /** The object is as before, or it is an upvalue that was closed because its thread was freed. */
  ghost predicate UntouchedAt(h: Heap, h': Heap, o: Ref)
    requires o in h'
  {
    && o in h
    && (|| h'[o] == h[o].(open := h'[o].open)
        || (IsOpen(h[o]) && h[o].owner.value !in h' && h'[o].(open := []) == ClosedUpval(StackValue(h, h[o]))))
  }

  /** Reserved words, and whatever else is fixed, are never freed. */
  ghost predicate FixedStay(h: Heap, h': Heap) {
    forall o {:trigger h[o]} {:trigger h'[o]} :: o in h && h[o].fixed ==> o in h' && h'[o].fixed
  }

  /** From h to h' objects were freed, and nothing else happened. */
  ghost predicate Untouched(h: Heap, h': Heap) {
    FixedStay(h, h') && forall o {:trigger h'[o]} {:trigger UntouchedAt(h, h', o)} :: o in h' ==> UntouchedAt(h, h', o)
  }

  lemma UntouchedSame(h: Heap)
    ensures Untouched(h, h)
  {
  }

  lemma UntouchedLess(h: Heap, s: set<Ref>)
    requires forall o :: o in s && o in h ==> !h[o].fixed
    ensures Untouched(h, h - s)
  {
  }

  lemma UntouchedDrop(h: Heap, t: Ref, k: nat)
    requires t in h && k < |h[t].open| && (h[t].open[k] in h ==> !h[h[t].open[k]].fixed)
    ensures Untouched(h, DropOpen(h, t, k) - {h[t].open[k]})
  {
  }

  lemma UntouchedKeys(h: Heap, h': Heap)
    requires Untouched(h, h')
    ensures h'.Keys <= h.Keys
  {
    forall o | o in h' ensures o in h { assert UntouchedAt(h, h', o); }
  }

  lemma UntouchedTrans(h0: Heap, h1: Heap, h2: Heap)
    requires Untouched(h0, h1) && Untouched(h1, h2) && Owned(h1)
    ensures Untouched(h0, h2)
  {
    FixedTrans(h0, h1, h2);
    hide Owned, Untouched;
    UntouchedKeys(h1, h2);
    forall o | o in h2 ensures UntouchedAt(h0, h2, o) {
      UntouchedOne(h1, h2, o);
      UntouchedOne(h0, h1, o);
      if IsOpen(h1[o]) { SameStackValue(h0, h1, o); }
    }
    UntouchedAll(h0, h2);
  }

  lemma FixedTrans(h0: Heap, h1: Heap, h2: Heap)
    requires Untouched(h0, h1) && Untouched(h1, h2)
    ensures FixedStay(h0, h2)
  {
  }

  lemma UntouchedOne(h: Heap, h': Heap, o: Ref)
    requires Untouched(h, h') && o in h'
    ensures UntouchedAt(h, h', o)
  {
  }

  lemma UntouchedAll(h: Heap, h': Heap)
    requires FixedStay(h, h') && forall o :: o in h' ==> UntouchedAt(h, h', o)
    ensures Untouched(h, h')
  {
  }

  lemma SameStackValue(h0: Heap, h1: Heap, o: Ref)
    requires Untouched(h0, h1) && Owned(h1) && o in h1 && IsOpen(h1[o])
    ensures o in h0 && h1[o] == h0[o].(open := h1[o].open) && StackValue(h1, h1[o]) == StackValue(h0, h0[o])
  {
    assert UntouchedAt(h0, h1, o) && UntouchedAt(h0, h1, h1[o].owner.value);
  }

  lemma FollowsUntouched(R: Heap, h: Heap, h': Heap)
    requires Follows(R, h) && Owned(h) && Owned(h') && OnePerSlot(h) && Untouched(h, h')
    ensures Follows(R, h')
  {
    forall y | y in h' ensures Agrees(R, h', y) {
      SameContents(R, h, y);
      assert Agrees(R, h, y);
    }
    forall y, z | Orphan(R, h', y) && Orphan(R, h', z) && R[y].owner == R[z].owner && R[y].level == R[z].level
      ensures y == z
    {
      assert Agrees(R, h, y) && Agrees(R, h, z);
      if Orphan(R, h, y) && Orphan(R, h, z) { }
    }
  }

  /** What the program can use is not dead. */
  lemma UsableIsLive(s: Program, h: Heap, m: Marks, cw: bool, o: Ref)
    requires Follows(s.heap, h) && Owned(h) && m.Keys == h.Keys && LiveClosed(h, m, cw)
    requires (forall r :: r in RootsOf(s) + s.made ==> Live(m, cw, r)) && Reachable(s.heap, RootsOf(s) + s.made, o)
    ensures Live(m, cw, o) && o in h
  {
    var live := iset x | Live(m, cw, x);
    forall x, c | x in live && IsChild(s.heap, x, c) ensures c in live {
      SameContents(s.heap, h, x);
      assert IsChild(h, x, c);
    }
    ReachableStays(s.heap, RootsOf(s) + s.made, live, o);
  }

  // ----- events on both heaps -----

  /** The open upvalue is at position k of the list of its thread, if it is new, and in its slot of the closure. */
  ghost predicate Captured(h0: Heap, h: Heap, p: Ref, t: Ref, k: nat, level: nat, uv: Ref, closure: Ref, i: nat) {
    && t in h0 && k <= |h0[t].open|
    && h == Put(if p == uv then AddOpen(h0, t, k, uv, level) else h0, closure, i, Some(p))
  }

  /** The upvalue in slot i of the closure was assigned to. */
  ghost predicate UpvalueAssigned(h0: Heap, h: Heap, closure: Ref, i: nat, v: Option<Ref>) {
    && HasField(h0, closure, i) && h0[closure].fields[i].Some? && h0[closure].fields[i].value in h0
    && h == SetUpvalue(h0, h0[closure].fields[i].value, v)
  }

  /** What an event does to the heap of the collector; p is the object that it put somewhere. */
  ghost predicate Effect(h0: Heap, h: Heap, e: Event, p: Ref) {
    match e
    case CollectStep => Untouched(h0, h)
    case CollectAll => Untouched(h0, h)
    case NewObject(o, kind, size) => h == h0[o := NewOf(kind, false, size)]
    case NewStr(o, _, fixed) => h == h0[o := StringOf(fixed)]
    case PushStr(found, o, _, t, i) =>
      && p == (if found in h0 then found else o)
      && h == Put(if found in h0 then h0 else h0[o := StringOf(false)], t, i, Some(p))
    case Assign(o, i, v) => h == Put(h0, o, i, v)
    case AssignUpval(closure, i, v) => UpvalueAssigned(h0, h, closure, i, v)
    case Capture(t, level, uv, closure, i) =>
      && ((exists x :: AtSlot(h0, x, t, level)) ==> AtSlot(h0, p, t, level))
      && ((forall x :: !AtSlot(h0, x, t, level)) ==> p == uv)
      && exists k: nat :: Captured(h0, h, p, t, k, level, uv, closure, i)
    case LeaveBlock(t, level) => BlockLeft(h0, h, t, level)
    case SetMt(_, _) => h == h0
    case Switch(_) => h == h0
  }

  /** What the program can use is in the heap. */
  ghost predicate UsableIn(s: Program, h: Heap) {
    forall x {:trigger Usable(s, x)} :: Usable(s, x) ==> x in h
  }

  /** The heaps before and after an event. */
  ghost predicate Around(s: Program, h0: Heap, h: Heap) {
    Follows(s.heap, h0) && Owned(h0) && OnePerSlot(h0) && Owned(h) && UsableIn(s, h0)
  }

  lemma NextNew(s: Program, h0: Heap, h: Heap, e: Event, p: Ref)
    requires Around(s, h0, h) && Possible(s, e) && Effect(h0, h, e, p) && (e.NewObject? || e.NewStr?)
    ensures Choice(s, e, p) && Follows(Next(s, e, p).heap, h)
  {
    hide Follows, Owned, OnePerSlot, UsableIn;
    match e {
      case NewObject(o, kind, size) => FollowsNew(s.heap, h0, o, NewOf(kind, false, size));
      case NewStr(o, _, fixed) => FollowsNew(s.heap, h0, o, StringOf(fixed));
    }
  }

  lemma InHeap(s: Program, h: Heap, x: Ref)
    requires UsableIn(s, h) && Usable(s, x)
    ensures x in h && x in s.heap
  {
  }

  /** A thread, a function or another object that is no open upvalue is the same in both heaps. */
  lemma SamePlain(R: Heap, h: Heap, o: Ref)
    requires Follows(R, h) && o in h && o in R && !IsOpen(R[o])
    ensures h[o].kind == R[o].kind && h[o].fields == R[o].fields && !IsOpen(h[o])
  {
    assert Agrees(R, h, o);
  }

  lemma NextPush(s: Program, h0: Heap, h: Heap, e: Event, p: Ref)
    requires Around(s, h0, h) && Possible(s, e) && Effect(h0, h, e, p) && e.PushStr?
    ensures Choice(s, e, p) && Follows(Next(s, e, p).heap, h)
  {
    hide Follows, Owned, OnePerSlot, UsableIn, Usable, Store;
    InHeap(s, h0, e.t);
    SamePlain(s.heap, h0, e.t);
    if e.found in h0 {
      FollowsStore(s.heap, h0, e.t, e.i, Some(p));
    } else {
      if Usable(s, e.found) { InHeap(s, h0, e.found); }
      FollowsNew(s.heap, h0, e.o, StringOf(false));
      FollowsStore(s.heap[e.o := StringOf(false)], h0[e.o := StringOf(false)], e.t, e.i, Some(p));
    }
  }

  lemma NextAssign(s: Program, h0: Heap, h: Heap, e: Event, p: Ref)
    requires Around(s, h0, h) && Possible(s, e) && Effect(h0, h, e, p) && (e.Assign? || e.AssignUpval?)
    ensures Choice(s, e, p) && Follows(Next(s, e, p).heap, h)
  {
    hide Follows, Owned, OnePerSlot, UsableIn, Usable, Store, SetUpvalue;
    match e {
      case Assign(o, i, v) =>
        InHeap(s, h0, o);
        SamePlain(s.heap, h0, o);
        FollowsStore(s.heap, h0, o, i, v);
      case AssignUpval(closure, i, v) =>
        InHeap(s, h0, closure);
        SamePlain(s.heap, h0, closure);
        var u := s.heap[closure].fields[i].value;
        UpvalueHasValue(s.heap, h0, u);
        FollowsSetUpval(s.heap, h0, u, v);
    }
  }

  lemma UpvalueHasValue(R: Heap, h: Heap, u: Ref)
    requires Follows(R, h) && u in h && u in R && R[u].kind == UpvalObj && (IsOpen(R[u]) || |R[u].fields| > 0)
    ensures h[u].kind == UpvalObj && (IsOpen(h[u]) || |h[u].fields| > 0)
  {
    assert Agrees(R, h, u);
  }

  /** A thread that was not freed has the same open upvalues, as far as they are there. */
  lemma SameSlots(R: Heap, h: Heap, t: Ref, level: nat)
    requires Follows(R, h) && t in h
    ensures forall x {:trigger AtSlot(h, x, t, level)} {:trigger AtSlot(R, x, t, level)} ::
              AtSlot(h, x, t, level) <==> x in h && AtSlot(R, x, t, level)
  {
    forall x | x in h ensures AtSlot(h, x, t, level) <==> AtSlot(R, x, t, level) { assert Agrees(R, h, x); }
  }

  lemma OneAtSlot(h: Heap, x: Ref, y: Ref, t: Ref, level: nat)
    requires OnePerSlot(h) && AtSlot(h, x, t, level) && AtSlot(h, y, t, level)
    ensures x == y
  {
  }

  lemma CaptureChoice(s: Program, h0: Heap, h: Heap, e: Event, p: Ref)
    requires Around(s, h0, h) && Possible(s, e) && Effect(h0, h, e, p) && e.Capture?
    ensures Choice(s, e, p) && (p == e.uv || p in h0)
  {
    hide Follows, Owned, OnePerSlot, UsableIn, Usable, AtSlot;
    InHeap(s, h0, e.t);
    SameSlots(s.heap, h0, e.t, e.level);
    forall x | AtSlot(s.heap, x, e.t, e.level) && Usable(s, x) ensures x == p {
      InHeap(s, h0, x);
      OneAtSlot(h0, x, p, e.t, e.level);
    }
  }

  lemma NextCapture(s: Program, h0: Heap, h: Heap, e: Event, p: Ref)
    requires Around(s, h0, h) && Possible(s, e) && Effect(h0, h, e, p) && e.Capture?
    ensures Choice(s, e, p) && Follows(Next(s, e, p).heap, h)
  {
    hide Follows, Owned, OnePerSlot, UsableIn, Usable, Store, AddOpen, AtSlot;
    CaptureChoice(s, h0, h, e, p);
    InHeap(s, h0, e.t);
    InHeap(s, h0, e.closure);
    SamePlain(s.heap, h0, e.t);
    SamePlain(s.heap, h0, e.closure);
    var k: nat :| Captured(h0, h, p, e.t, k, e.level, e.uv, e.closure, e.i);
    if p == e.uv {
      FollowsCapture(s.heap, h0, e.t, k, e.uv, e.level);
      var R1, h1 := s.heap[e.uv := OpenUpval(e.t, e.level)], AddOpen(h0, e.t, k, e.uv, e.level);
      AddOpenAt(h0, e.t, k, e.uv, e.level, e.closure);
      FollowsStore(R1, h1, e.closure, e.i, Some(p));
    } else {
      FollowsStore(s.heap, h0, e.closure, e.i, Some(p));
    }
  }

  lemma AddOpenAt(h: Heap, t: Ref, k: nat, uv: Ref, level: nat, x: Ref)
    requires t in h && k <= |h[t].open| && x in h && x != uv
    ensures x in AddOpen(h, t, k, uv, level)
    ensures AddOpen(h, t, k, uv, level)[x] == h[x].(open := AddOpen(h, t, k, uv, level)[x].open)
  {
  }

  /** The heaps agree after each event, and what the event put somewhere is a choice that it has. */
  lemma NextFollows(s: Program, h0: Heap, h: Heap, e: Event, p: Ref)
    requires Around(s, h0, h) && Possible(s, e) && Effect(h0, h, e, p)
    ensures Choice(s, e, p) && Follows(Next(s, e, p).heap, h)
  {
    hide Follows, Owned, OnePerSlot, UsableIn, Usable, Untouched, BlockLeft, AtSlot, Store, AddOpen, SetUpvalue,
         AfterBlock;
    match e {
      case CollectStep => FollowsUntouched(s.heap, h0, h);
      case CollectAll => FollowsUntouched(s.heap, h0, h);
      case NewObject(_, _, _) => NextNew(s, h0, h, e, p);
      case NewStr(_, _, _) => NextNew(s, h0, h, e, p);
      case PushStr(_, _, _, _, _) => NextPush(s, h0, h, e, p);
      case Assign(_, _, _) => NextAssign(s, h0, h, e, p);
      case AssignUpval(_, _, _) => NextAssign(s, h0, h, e, p);
      case Capture(_, _, _, _, _) => NextCapture(s, h0, h, e, p);
      case LeaveBlock(t, level) =>
        InHeap(s, h0, t);
        SamePlain(s.heap, h0, t);
        FollowsBlock(s.heap, h0, h, t, level);
      case SetMt(_, _) =>
      case Switch(_) =>
    }
  }

  /** One more event. */
  lemma OneMore(s: Program, events: seq<Event>, choices: seq<Ref>, e: Event, p: Ref)
    requires |choices| == |events| && Chosen(s, events, choices)
    requires var s' := After(s, events, choices); Possible(s', e) && Choice(s', e, p)
    ensures Chosen(s, events + [e], choices + [p])
    ensures After(s, events + [e], choices + [p]) == Next(After(s, events, choices), e, p)
  {
    assert (events + [e])[..|events|] == events && (choices + [p])[..|events|] == choices;
  }

  /** An event whose effect does not depend on a choice. */
  lemma Then(s: Program, e: Event, rest: seq<Event>)
    requires Possible(s, e) && (forall p :: Next(s, e, p) == Next(s, e, 0)) && Disciplined(Next(s, e, 0), rest)
    ensures Disciplined(s, [e] + rest)
  {
    hide Possible, Choice, Next;
    assert ([e] + rest)[0] == e && ([e] + rest)[1..] == rest;
  }

  lemma RootUsable(s: Program, o: Ref)
    requires o in s.heap && (o in RootsOf(s) || o in s.made)
    ensures Usable(s, o)
  {
    ReachableClosed(s.heap, RootsOf(s) + s.made);
  }

  /** A program that makes a table and a string, and puts the table on its stack and the string into the table. */
  lemma TableProgram(s: Program, t: Ref, str: Ref)
    requires s.mainthread in s.heap && s.heap[s.mainthread].kind == ThreadObj && HasField(s.heap, s.mainthread, 1)
    requires t !in s.heap && str !in s.heap && t != str && s.buckets > 0
    ensures Disciplined(s, [NewObject(t, TableObj, 1)] + ([NewStr(str, 0, false)] + ([Assign(s.mainthread, 1, Some(t))]
              + ([Assign(t, 0, Some(str))] + ([CollectAll] + [])))))
  {
    hide Usable, Disciplined;
    var s1 := Next(s, NewObject(t, TableObj, 1), 0);
    var s2 := Next(s1, NewStr(str, 0, false), 0);
    var s3 := Next(s2, Assign(s.mainthread, 1, Some(t)), 0);
    var s4 := Next(s3, Assign(t, 0, Some(str)), 0);
    RootUsable(s2, s.mainthread);
    RootUsable(s2, t);
    RootUsable(s3, t);
    RootUsable(s3, str);
    assert Disciplined(Next(s4, CollectAll, 0), []) by { NothingToDo(Next(s4, CollectAll, 0)); }
    Then(s4, CollectAll, []);
    Then(s3, Assign(t, 0, Some(str)), [CollectAll] + []);
    Then(s2, Assign(s.mainthread, 1, Some(t)), [Assign(t, 0, Some(str))] + ([CollectAll] + []));
    Then(s1, NewStr(str, 0, false),
         [Assign(s.mainthread, 1, Some(t))] + ([Assign(t, 0, Some(str))] + ([CollectAll] + [])));
    Then(s, NewObject(t, TableObj, 1), [NewStr(str, 0, false)]
         + ([Assign(s.mainthread, 1, Some(t))] + ([Assign(t, 0, Some(str))] + ([CollectAll] + []))));
  }

  /** An event of which the choice does not matter for the rest, or is the only one. */
  lemma ThenChosen(s: Program, e: Event, q: Ref, rest: seq<Event>)
    requires Possible(s, e) && (forall p :: Choice(s, e, p) ==> p == q) && Disciplined(Next(s, e, q), rest)
    ensures Disciplined(s, [e] + rest)
  {
    hide Possible, Choice, Next;
    assert ([e] + rest)[0] == e && ([e] + rest)[1..] == rest;
  }

  /** A variable without an upvalue is captured: then its upvalue is assigned to, and its block is left. */
  lemma CaptureProgram(s: Program, t: Ref, f: Ref, uv: Ref)
    requires t in s.heap && s.heap[t].kind == ThreadObj && HasField(s.heap, t, 1) && t in RootsOf(s)
    requires f in s.heap && s.heap[f].kind == FunctionObj && HasField(s.heap, f, 0) && s.heap[t].fields[1] == Some(f)
    requires uv !in s.heap && forall x :: !AtSlot(s.heap, x, t, 0)
    ensures Disciplined(s, [Capture(t, 0, uv, f, 0)] + ([AssignUpval(f, 0, Some(f))] + ([LeaveBlock(t, 0)] + [])))
  {
    hide Usable, Disciplined;
    var s1 := Next(s, Capture(t, 0, uv, f, 0), uv);
    assert s1.heap[t] == s.heap[t] && s1.heap[f].fields[0] == Some(uv) && s1.heap[uv] == OpenUpval(t, 0);
    var s2 := Next(s1, AssignUpval(f, 0, Some(f)), 0);
    RootUsable(s, t);
    assert Some(f) in s.heap[t].fields;
    ChildUsable(s, t, f);
    RootUsable(s1, t);
    ChildUsable(s1, t, f);
    RootUsable(s2, t);
    NothingToDo(Next(s2, LeaveBlock(t, 0), 0));
    Then(s2, LeaveBlock(t, 0), []);
    Then(s1, AssignUpval(f, 0, Some(f)), [LeaveBlock(t, 0)] + []);
    ThenChosen(s, Capture(t, 0, uv, f, 0), uv, [AssignUpval(f, 0, Some(f))] + ([LeaveBlock(t, 0)] + []));
  }

  /** What a usable object refers to is usable. */
  lemma ChildUsable(s: Program, o: Ref, c: Ref)
    requires Usable(s, o) && IsChild(s.heap, o, c) && c in s.heap
    ensures Usable(s, c)
  {
    ReachableClosed(s.heap, RootsOf(s) + s.made);
  }

  lemma NothingToDo(s: Program)
    ensures Disciplined(s, [])
  {
  }
}
