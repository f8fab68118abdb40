/** The incremental collector (lgc.c): mark, atomic and sweep phases, which run interleaved with a mutator. */
module Collector {
  import opened Wrappers
  import opened CollectorSpec
  import opened CollectorLists
  import opened Mutator

  const GCSWEEPMAX: nat := 40

  /** The number of basic types that can have a metatable. */
  const NUM_TAGS: nat := 9

  datatype GCState = GCSpause | GCSpropagate | GCSsweepstring | GCSsweep | GCSfinalize

  /** global_State, as far as the collector uses it. */
  class GlobalState {
    var h: Heap
    var m: Marks
    var currentwhite: bool
    var gcstate: GCState
    var gray: seq<Ref>
    var grayagain: seq<Ref>
    var uvhead: seq<Ref>          // the open upvalues of all threads
    var rootgc: seq<Ref>          // all collectable objects but strings and open upvalues
    var strt: seq<seq<Ref>>       // the lists of all strings
    var sweepstrgc: nat           // how many lists of strt the sweep has done
    var sweepgc: nat              // how many objects of rootgc the sweep has done
    var mainthread: Ref
    var registry: Ref
    var mt: seq<Option<Ref>>      // one metatable for each basic type, if any
    var running: Ref              // the thread that runs
    ghost var late: set<Ref>      // open upvalues that remarkupvals has not reached yet

    // ----- marking -----

    /** Marking in progress: see MarkOk. */
    ghost predicate Marking(busy: set<Ref>)
      reads `h, `m, `currentwhite, `gray, `grayagain
    {
      MarkOk(h, m, currentwhite, gray, grayagain, busy)
    }

    /** The effect of marking: white objects of s were marked; no busy object was listed. */
    twostate predicate Marked(busy: set<Ref>, s: iset<Ref>)
      reads this
    {
      && Darker(old(m), m, s) && Whites(m) <= old(Whites(m))
      && (old(UpvalsMarked(h, m, busy + late)) ==> UpvalsMarked(h, m, busy + late))
      && (forall x :: x in busy && x in gray ==> x in old(gray))
      && (Whites(m) == old(Whites(m)) ==> gray == old(gray))
      && (Within(old(m), s) ==> Within(m, s))
      && (forall o :: NonWhite(old(m), o) ==> NonWhite(m, o))
      && m.Keys == old(m.Keys)
    }

    /** markvalue and markobject */
    method MarkValue(v: Option<Ref>, ghost busy: set<Ref>, ghost s: iset<Ref>)
      requires Marking(busy) && (v.Some? ==> v.value in m && v.value in s) && Closed(h, s)
      modifies this`m, this`gray
      ensures Marking(busy) && Marked(busy, s) && (v.Some? ==> NonWhite(m, v.value))
      decreases Whites(m), 1
    {
      if v.Some? && m[v.value].White? { ReallyMarkObject(v.value, busy, s); }
      DarkerWithin(old(m), m, s);
    }

    /** reallymarkobject */
    method ReallyMarkObject(o: Ref, ghost busy: set<Ref>, ghost s: iset<Ref>)
      requires Marking(busy) && IsWhite(m, o) && o in s && Closed(h, s)
      modifies this`m, this`gray
      ensures Marking(busy) && Marked(busy, s) && NonWhite(m, o)
      decreases Whites(m), 0
    {
      hide MarkOk, UpvalsMarked, Darker, Closed, Whites, Within;
      ghost var m0 := m;
      StartMarking(h, m, currentwhite, gray, grayagain, busy, busy + late, busy + {o} + late, o);
      InHeap(busy, o);
      m := m[o := Gray];
      DarkerNone(m, s);
      DarkerFrom(m0, o, Gray, m, Gray, s);
      assert busy + {o} - {o} == busy;
      match h[o].kind {
        case StringObj =>
          FieldsMarked(h, m, currentwhite, gray, grayagain, busy + {o}, busy + {o} + late, busy + late, o);
        case UserdataObj =>
          Blacken(h, m, currentwhite, gray, grayagain, busy + {o}, busy + {o} + late, o);
          m := m[o := Black];  // no list of gray objects takes userdata
          assert m == m0[o := Black];
          DarkerNone(m, s);
          DarkerFrom(m0, o, Black, m, Black, s);
          MarkFields(o, busy + {o}, s);
          DarkerFrom(m0, o, Black, m, Black, s);
          FieldsMarked(h, m, currentwhite, gray, grayagain, busy + {o}, busy + {o} + late, busy + late, o);
        case UpvalObj => MarkUpval(o, busy, s, m0);
        case _ =>
          PushGray(h, m, currentwhite, gray, grayagain, busy + {o}, busy + {o} + late, busy + late, o);
          gray := [o] + gray;
      }
      DarkerWithin(m0, m, s);
    }

    /** The case of upvalues in reallymarkobject. */
    method MarkUpval(o: Ref, ghost busy: set<Ref>, ghost s: iset<Ref>, ghost m0: Marks)
      requires Marking(busy + {o}) && o in h && h[o].kind == UpvalObj && o !in gray && o !in grayagain && o !in busy
      requires IsWhite(m0, o) && m == m0[o := Gray] && o in s && Closed(h, s)
      modifies this`m, this`gray
      ensures Marking(busy) && Darker(m0, m, s) && NonWhite(m, o) && Whites(m) < Whites(m0)
      ensures UpvalsMarked(h, old(m), busy + {o} + late) ==> UpvalsMarked(h, m, busy + late)
      ensures forall x :: x in busy && x in gray ==> x in old(gray)
      decreases Whites(m), 3
    {
      hide MarkOk, UpvalsMarked, Darker, Closed, Whites;
      InHeap(busy + {o}, o);
      assert busy + {o} - {o} == busy;
      if IsOpen(h[o]) {
        if StackValue(h, h[o]).Some? {
          ChildInHeap(busy + {o}, o, StackValue(h, h[o]).value);
          ClosedStep(s, o, StackValue(h, h[o]).value);
        }
        MarkValue(StackValue(h, h[o]), busy + {o}, s);
        DarkerFrom(m0, o, Gray, m, Gray, s);
      } else {
        MarkFields(o, busy + {o}, s);
        Blacken(h, m, currentwhite, gray, grayagain, busy + {o}, busy + {o} + late, o);
        DarkerFrom(m0, o, Gray, m, Black, s);
        DarkerFrom(m0, o, Gray, m, Gray, s);
        m := m[o := Black];  // closed: its value is marked
      }
      FieldsMarked(h, m, currentwhite, gray, grayagain, busy + {o}, busy + {o} + late, busy + late, o);
    }

    lemma DarkerNone(m: Marks, s: iset<Ref>)
      ensures Darker(m, m, s)
    {
    }

    lemma ClosedStep(s: iset<Ref>, o: Ref, c: Ref)
      requires Closed(h, s) && o in s && IsChild(h, o, c)
      ensures c in s
    {
    }

    lemma InHeap(busy: set<Ref>, o: Ref)
      requires Marking(busy) && o in m
      ensures o in h && (h[o].kind == StringObj ==> h[o].fields == [])
      ensures forall c :: IsChild(h, o, c) ==> c in m
    {
    }

    method MarkFields(o: Ref, ghost busy: set<Ref>, ghost s: iset<Ref>)
      requires Marking(busy) && o in h && o in busy && o in s && Closed(h, s) && !IsOpen(h[o])
      modifies this`m, this`gray
      ensures Marking(busy) && Marked(busy, s)
      ensures forall c :: IsChild(h, o, c) ==> NonWhite(m, c)
      decreases Whites(m), 2
    {
      hide MarkOk, UpvalsMarked, Within;
      var i := 0;
      while i < |h[o].fields|
        invariant 0 <= i <= |h[o].fields| && Marking(busy) && Marked(busy, s)
        invariant forall j :: 0 <= j < i && h[o].fields[j].Some? ==> NonWhite(m, h[o].fields[j].value)
      {
        var v := h[o].fields[i];
        if v.Some? { ChildInHeap(busy, o, v.value); }
        DarkerWhites(old(m), m, s);
        MarkValue(v, busy, s);
        i := i + 1;
      }
    }

    lemma ChildInHeap(busy: set<Ref>, o: Ref, c: Ref)
      requires Marking(busy) && IsChild(h, o, c)
      ensures c in m
    {
    }

    /** The effect of traversing gray objects. */
    twostate predicate Propagated(s: iset<Ref>)
      reads this
    {
      && Shaded(old(m), m, s) && m.Keys == old(m.Keys)
      && (forall o :: NonWhite(old(m), o) ==> NonWhite(m, o))
      && (old(UpvalsMarked(h, m, late)) ==> UpvalsMarked(h, m, late))
      && (old(AgainMarked(h, m, grayagain)) ==> AgainMarked(h, m, grayagain))
    }

    /** propagatemark: the children of the first gray object are marked; a thread stays gray for a second visit. */
    method PropagateMark(ghost s: iset<Ref>)
      requires Marking({}) && gray != [] && Within(m, s) && Closed(h, s)
      modifies this`m, this`gray, this`grayagain
      ensures Marking({}) && Propagated(s)
      ensures Whites(m) < old(Whites(m)) || (Whites(m) == old(Whites(m)) && |gray| < |old(gray)|)
    {
      hide MarkOk, UpvalsMarked, Closed, Tri, AgainMarked, Shaded, Traversable;
      var o := gray[0];
      PopGray(h, m, currentwhite, gray, grayagain, {}, {} + late, {o} + late);
      assert {} + {o} == {o} && {o} - {o} == {} && {} + late == late;
      gray := gray[1..];
      ghost var again, m0 := grayagain, m;
      if h[o].kind == ThreadObj {
        PushAgain(h, m, currentwhite, gray, grayagain, {o}, o);
        grayagain := [o] + grayagain;  // stays gray: its stack changes without barriers
      } else {
        Blacken(h, m, currentwhite, gray, grayagain, {o}, {o} + late, o);
        m := m[o := Black];
      }
      assert Whites(m) == old(Whites(m));
      ghost var m1 := m;
      NotOpen(h, o);
      MarkFields(o, {o}, s);
      FieldsMarked(h, m, currentwhite, gray, grayagain, {o}, {o} + late, late, o);
      ShadedBy(m0, m1, m, s, o);
      AgainStays(h, m0, m, again, o, grayagain, s);
    }

    lemma NotOpen(h: Heap, o: Ref)
      requires Traversable(h, o)
      ensures !IsOpen(h[o])
    {
    }

    lemma ShadedBy(m0: Marks, m1: Marks, m2: Marks, s: iset<Ref>, o: Ref)
      requires o in m0 && m0[o] == Gray && (m1 == m0 || m1 == m0[o := Black]) && Darker(m1, m2, s)
      ensures Shaded(m0, m2, s)
      ensures Whites(m2) <= Whites(m0) && Whites(m1) == Whites(m0)
    {
    }

    lemma AgainStays(h: Heap, m0: Marks, m: Marks, again: seq<Ref>, o: Ref, again': seq<Ref>, s: iset<Ref>)
      requires Shaded(m0, m, s) && (again' == again || again' == [o] + again)
      requires forall c :: IsChild(h, o, c) ==> NonWhite(m, c)
      ensures AgainMarked(h, m0, again) ==> AgainMarked(h, m, again')
    {
    }

    method PropagateAll(ghost s: iset<Ref>)
      requires Marking({}) && Within(m, s) && Closed(h, s)
      modifies this`m, this`gray, this`grayagain
      ensures Marking({}) && Propagated(s) && gray == [] && Within(m, s)
    {
      hide MarkOk, UpvalsMarked, Closed;
      while gray != []
        invariant Marking({}) && Propagated(s) && Within(m, s)
        decreases Whites(m), |gray|
      {
        PropagateMark(s);
        ShadedWithin(old(m), m, s);
      }
    }

    // ----- invariant -----

    ghost function Roots(): set<Ref>
      reads `mainthread, `registry, `running, `mt
    {
      {mainthread, registry, running} + set v | v in mt && v.Some? :: v.value
    }

    ghost predicate RootsLive()
      reads `mainthread, `registry, `running, `mt, `m, `currentwhite
    {
      forall r :: r in Roots() ==> Live(m, currentwhite, r)
    }

    /** The part of the invariant that every phase shares. */
    ghost predicate Shared()
      reads this
    {
      SharedOf(h, m, currentwhite, rootgc, strt, uvhead, mainthread, Roots()) && sweepgc <= |rootgc|
    }

    ghost predicate Swept()
      reads this
      requires sweepgc <= |rootgc|
    {
      SweptWhite(h, m, currentwhite, rootgc, strt, sweepstrgc, sweepgc)
    }

    /** What every step of the collector and of the mutator keeps. */
    ghost predicate Valid()
      reads this
    {
      && Shared()
      && match gcstate
         case GCSpause => AllWhite(m, currentwhite)
         case GCSfinalize => AllWhite(m, currentwhite)
         case GCSpropagate => Marking({}) && NonWhite(m, mainthread) && NonWhite(m, registry)
         case GCSsweepstring => Swept() && sweepgc == 0 && sweepstrgc < |strt|
         case GCSsweep => Swept() && sweepstrgc == |strt|
    }

    // ----- the mark phase -----

    method MarkMt(ghost s: iset<Ref>)
      requires Marking({}) && Closed(h, s) && forall v :: v in mt && v.Some? ==> v.value in m && v.value in s
      modifies this`m, this`gray
      ensures Marking({}) && Marked({}, s) && forall v :: v in mt && v.Some? ==> NonWhite(m, v.value)
    {
      hide MarkOk, UpvalsMarked, Closed, Within;
      var i := 0;
      while i < |mt|
        invariant 0 <= i <= |mt| && Marking({}) && Marked({}, s)
        invariant forall j :: 0 <= j < i && mt[j].Some? ==> NonWhite(m, mt[j].value)
      {
        MarkValue(mt[i], {}, s);
        i := i + 1;
      }
    }

    /** markvalue, where no object is being traversed. */
    method MarkMore(v: Option<Ref>, ghost s: iset<Ref>)
      requires Marking({}) && Within(m, s) && (v.Some? ==> v.value in m && v.value in s) && Closed(h, s)
      modifies this`m, this`gray
      ensures Marking({}) && Within(m, s) && m.Keys == old(m.Keys)
      ensures (v.Some? ==> NonWhite(m, v.value)) && forall o :: NonWhite(old(m), o) ==> NonWhite(m, o)
    {
      MarkValue(v, {}, s);
    }

    /** markroot */
    method MarkRoot(ghost s: iset<Ref>)
      requires m.Keys == h.Keys && StringsOk(h) && LiveClosed(h, m, currentwhite) && RootsLive()
      requires AllWhite(m, currentwhite)
      requires mainthread in h && h[mainthread].kind == ThreadObj
      requires Closed(h, s) && forall r :: r in Roots() ==> r in s
      modifies this`m, this`gray, this`grayagain, this`gcstate
      ensures Marking({}) && Within(m, s) && gcstate == GCSpropagate
      ensures NonWhite(m, mainthread) && NonWhite(m, registry) && m.Keys == old(m.Keys)
    {
      hide MarkOk, UpvalsMarked, Closed, LiveClosed, AllWhite, StringsOk, Roots, RootsLive, Darker, Within, NonWhite;
      gray, grayagain := [], [];
      StartCycle();
      AllWhiteWithin(m, currentwhite, s);
      RootsIn(s);
      MarkMore(Some(mainthread), s);
      if |h[mainthread].fields| > 0 {
        GlobalTable(s);
        MarkMore(h[mainthread].fields[0], s);
      }
      MarkMore(Some(registry), s);
      MarkMt(s);
      gcstate := GCSpropagate;
    }

    lemma RootsIn(s: iset<Ref>)
      requires RootsLive() && forall r :: r in Roots() ==> r in s
      ensures mainthread in m && mainthread in s && registry in m && registry in s && running in m && running in s
      ensures forall v :: v in mt && v.Some? ==> v.value in m && v.value in s
    {
      assert mainthread in Roots() && registry in Roots() && running in Roots();
      forall v | v in mt && v.Some? ensures v.value in Roots() { }
    }

    lemma StartCycle()
      requires m.Keys == h.Keys && StringsOk(h) && LiveClosed(h, m, currentwhite) && AllWhite(m, currentwhite)
      requires gray == [] && grayagain == []
      ensures Marking({})
    {
    }

    lemma GlobalTable(s: iset<Ref>)
      requires mainthread in h && h[mainthread].kind == ThreadObj && |h[mainthread].fields| > 0
      requires Closed(h, s) && mainthread in s && Marking({})
      ensures var v := h[mainthread].fields[0]; v.Some? ==> v.value in m && v.value in s
    {
      var v := h[mainthread].fields[0];
      if v.Some? { assert IsChild(h, mainthread, v.value); }
    }

    /** remarkupvals: an open upvalue may be gray although its value, in the stack of a dead thread, is not marked. */
    method RemarkUpvals(ghost s: iset<Ref>)
      requires Marking({}) && Within(m, s) && Closed(h, s)
      requires forall o :: o in uvhead ==> o in h && IsOpen(h[o])
      requires forall o :: o in h && IsOpen(h[o]) ==> o in uvhead
      modifies this`m, this`gray, this`late
      ensures Marking({}) && Within(m, s) && UpvalsMarked(h, m, {}) && late == {}
      ensures m.Keys == old(m.Keys) && forall o :: NonWhite(old(m), o) ==> NonWhite(m, o)
    {
      hide MarkOk, Closed, UpvalsMarked;
      late := Elems(uvhead);
      assert uvhead[0..] == uvhead;
      AllLate();
      var i := 0;
      while i < |uvhead|
        invariant 0 <= i <= |uvhead| && Marking({}) && Within(m, s)
        invariant m.Keys == old(m.Keys) && forall o :: NonWhite(old(m), o) ==> NonWhite(m, o)
        invariant late == Elems(uvhead[i..]) && UpvalsMarked(h, m, late)
      {
        var uv := uvhead[i];
        HeapKeys({});
        if m[uv] == Gray {
          var v := StackValue(h, h[uv]);
          if v.Some? {
            ChildInHeap({}, uv, v.value);
            ClosedStep(s, uv, v.value);
          }
          assert {} + late == late;
          MarkValue(v, {}, s);
        }
        LessLate(i);
        late := Elems(uvhead[i+1..]);
        i := i + 1;
      }
      assert uvhead[i..] == [] && late == {};
    }

    lemma AllLate()
      requires forall o :: o in h && IsOpen(h[o]) ==> o in uvhead
      ensures UpvalsMarked(h, m, Elems(uvhead))
    {
    }

    lemma LessLate(i: nat)
      requires i < |uvhead| && UpvalsMarked(h, m, Elems(uvhead[i..]))
      requires uvhead[i] in h && IsOpen(h[uvhead[i]]) && uvhead[i] in m
      requires m[uvhead[i]] != Gray || var v := StackValue(h, h[uvhead[i]]); v.Some? ==> NonWhite(m, v.value)
      ensures UpvalsMarked(h, m, Elems(uvhead[i+1..]))
    {
      assert uvhead[i..] == [uvhead[i]] + uvhead[i+1..];
    }

    lemma HeapKeys(busy: set<Ref>)
      requires Marking(busy)
      ensures m.Keys == h.Keys
    {
    }

    /** atomic: it ends the mark phase without a step of the mutator in between.  Exactly the marked objects are
        live afterwards, and they are closed. */
    method Atomic(ghost s: iset<Ref>)
      requires Marking({}) && gray == [] && NonWhite(m, mainthread) && NonWhite(m, registry)
      requires ListsOk(h, rootgc, strt, uvhead) && RootsLive()
      requires Within(m, s) && Closed(h, s) && forall r :: r in Roots() ==> r in s
      modifies this`m, this`gray, this`grayagain, this`late, this`currentwhite, this`sweepstrgc, this`sweepgc,
               this`gcstate
      ensures m.Keys == h.Keys && currentwhite == !old(currentwhite) && Within(m, s) && NeverBlack(h, m)
      ensures LiveClosed(h, m, currentwhite) && RootsLive()
      ensures forall o :: Live(m, currentwhite, o) <==> NonWhite(m, o)
      ensures gcstate == GCSsweepstring && sweepstrgc == 0 && sweepgc == 0
    {
      hide MarkOk, UpvalsMarked, Closed, AgainMarked, ListsOk, Live, LiveClosed, NonWhite, Within, Roots, RootsLive;
      OpenUpvals();
      RootsIn(s);
      FinishMarking(s);
      FlipWhite(h, m, currentwhite);
      // what is still white is dead from now on
      currentwhite := !currentwhite;
      sweepstrgc, sweepgc := 0, 0;
      gcstate := GCSsweepstring;
      MarkedRootsLive();
    }

    /** atomic, up to the flip of the whites. */
    method FinishMarking(ghost s: iset<Ref>)
      requires Marking({}) && gray == [] && NonWhite(m, mainthread) && NonWhite(m, registry)
      requires forall o :: o in uvhead ==> o in h && IsOpen(h[o])
      requires forall o :: o in h && IsOpen(h[o]) ==> o in uvhead
      requires running in m && running in s && forall v :: v in mt && v.Some? ==> v.value in m && v.value in s
      requires Within(m, s) && Closed(h, s)
      modifies this`m, this`gray, this`grayagain, this`late
      ensures Within(m, s) && m.Keys == h.Keys && NeverBlack(h, m)
      ensures forall o :: o in m ==> m[o] != White(!currentwhite)
      ensures forall r :: r in Roots() ==> NonWhite(m, r)
      ensures forall o, c {:trigger IsChild(h, o, c)} :: NonWhite(m, o) && IsChild(h, o, c) ==> NonWhite(m, c)
    {
      hide MarkOk, UpvalsMarked, Closed, AgainMarked, Live, NonWhite, Within, Roots, Shaded, IsChild, IsOpen;
      RemarkUpvals(s);
      PropagateAll(s);
      MarkAgain(s);
      MarkedClosed();
      NothingDead();
    }

    lemma MarkedRootsLive()
      requires (forall o :: Live(m, currentwhite, o) <==> NonWhite(m, o)) && forall r :: r in Roots() ==> NonWhite(m, r)
      ensures RootsLive()
    {
    }

    /** The middle of atomic. */
    method MarkAgain(ghost s: iset<Ref>)
      requires Marking({}) && gray == [] && late == {} && UpvalsMarked(h, m, {})
      requires running in m && running in s && forall v :: v in mt && v.Some? ==> v.value in m && v.value in s
      requires Within(m, s) && Closed(h, s)
      modifies this`m, this`gray, this`grayagain
      ensures Marking({}) && gray == [] && UpvalsMarked(h, m, {}) && AgainMarked(h, m, grayagain)
      ensures Within(m, s) && m.Keys == old(m.Keys) && forall o :: NonWhite(old(m), o) ==> NonWhite(m, o)
      ensures NonWhite(m, running) && forall v :: v in mt && v.Some? ==> NonWhite(m, v.value)
    {
      hide MarkOk, UpvalsMarked, Closed, AgainMarked, Darker, Shaded, Within, NonWhite;
      assert {} + late == {};
      MarkValue(Some(running), {}, s);
      MarkMt(s);
      PropagateAll(s);
      AgainIsGray();
      gray, grayagain := grayagain, [];
      NothingAgain();
      PropagateAll(s);
    }

    lemma OpenUpvals()
      requires ListsOk(h, rootgc, strt, uvhead)
      ensures forall o :: o in uvhead ==> o in h && IsOpen(h[o])
      ensures forall o :: o in h && IsOpen(h[o]) ==> o in uvhead
    {
      forall o | o in h && IsOpen(h[o]) ensures o in uvhead { assert KeptAt(h, rootgc, strt, uvhead, o); }
    }

    lemma NothingDead()
      requires Marking({}) && NonWhite(m, mainthread) && NonWhite(m, registry) && NonWhite(m, running)
      requires forall v :: v in mt && v.Some? ==> NonWhite(m, v.value)
      ensures m.Keys == h.Keys && forall o :: o in m ==> m[o] != White(!currentwhite)
      ensures forall r :: r in Roots() ==> NonWhite(m, r)
    {
    }

    lemma AgainIsGray()
      requires Marking({}) && gray == []
      ensures MarkOk(h, m, currentwhite, grayagain, [], {})
    {
    }

    lemma NothingAgain()
      ensures AgainMarked(h, m, [])
    {
    }

    /** At the end of atomic, marked objects refer to marked objects only. */
    lemma MarkedClosed()
      requires Marking({}) && gray == [] && UpvalsMarked(h, m, {}) && AgainMarked(h, m, grayagain)
      ensures forall o, c {:trigger IsChild(h, o, c)} :: NonWhite(m, o) && IsChild(h, o, c) ==> NonWhite(m, c)
      ensures m.Keys == h.Keys && NeverBlack(h, m) && forall o :: o in m ==> m[o] != White(!currentwhite)
    {
      forall o, c | NonWhite(m, o) && IsChild(h, o, c)
        ensures NonWhite(m, c)
      {
        if m[o] == Gray && !Silent(h, o) { assert o in grayagain; }
      }
    }

    // ----- the sweep phases -----

    /** No live object was lost or changed. */
    twostate predicate LiveKept()
      reads this
    {
      && Kept(old(h), old(m), h, m, currentwhite) && currentwhite == old(currentwhite)
      && mainthread == old(mainthread) && registry == old(registry) && mt == old(mt) && running == old(running)
    }

    /** One round of sweeplist, in the string table. */
    method SweepString(k: nat) returns (k': nat)
      requires Shared() && Swept() && sweepstrgc < |strt| && k < |strt[sweepstrgc]|
      requires forall j :: 0 <= j < k ==> strt[sweepstrgc][j] in m && m[strt[sweepstrgc][j]] == White(currentwhite)
      modifies this`h, this`m, this`strt
      ensures Shared() && Swept() && |strt| == |old(strt)| && LiveKept() && k' <= |strt[sweepstrgc]|
      ensures forall j :: 0 <= j < k' ==> strt[sweepstrgc][j] in m && m[strt[sweepstrgc][j]] == White(currentwhite)
      ensures |strt[sweepstrgc]| - k' < |old(strt)[sweepstrgc]| - k && Untouched(old(h), h)
    {
      hide SharedOf, Kept, SweptWhite, Untouched;
      UntouchedSame(h);
      var curr := strt[sweepstrgc][k];
      StringFacts(k);
      if m[curr] != White(!currentwhite) || h[curr].fixed {
        WhitenShared(h, m, currentwhite, rootgc, strt, uvhead, mainthread, Roots(), curr);
        WhiteIsSwept(curr);
        m := m[curr := White(currentwhite)];
        k' := k + 1;
      } else {
        UntouchedLess(h, {curr});
        FreeStringShared(h, m, currentwhite, rootgc, strt, uvhead, mainthread, Roots(), sweepstrgc, k);
        SweptFreeString(h, m, currentwhite, rootgc, strt, sweepstrgc, sweepgc, k);
        strt := strt[sweepstrgc := Remove(strt[sweepstrgc], k)];
        h, m := h - {curr}, m - {curr};
        k' := k;
      }
    }

    lemma StringFacts(k: nat)
      requires Shared() && Swept() && sweepstrgc < |strt| && k < |strt[sweepstrgc]|
      ensures strt[sweepstrgc][k] in h && NoDup(strt[sweepstrgc]) && m.Keys == h.Keys
    {
      assert strt[sweepstrgc][k] in strt[sweepstrgc];
    }

    lemma WhiteIsSwept(o: Ref)
      requires sweepgc <= |rootgc| && Swept()
      ensures SweptWhite(h, m[o := White(currentwhite)], currentwhite, rootgc, strt, sweepstrgc, sweepgc)
    {
    }

    lemma SharedKeys()
      requires Shared()
      ensures m.Keys == h.Keys && |strt| > 0
      ensures forall o :: o in rootgc ==> o in h
      ensures forall t, x :: t in h && x in h[t].open ==> x in h && x != t && h[t].kind == ThreadObj
    {
      forall t, x | t in h && x in h[t].open ensures x in h && x != t && h[t].kind == ThreadObj { assert OpenOk(h, t); }
    }

    /** Open upvalues belong to stacks. */
    lemma SharedOwned()
      requires Shared()
      ensures Owned(h)
    {
      OwnersAreThreads(h, rootgc, strt, uvhead);
      forall x | x in h && IsOpen(h[x]) ensures h[x].level < |h[h[x].owner.value].fields| {
        assert KeptAt(h, rootgc, strt, uvhead, x) && OpenOk(h, h[x].owner.value);
      }
    }

    lemma KeysShared()
      requires Shared()
      ensures m.Keys == h.Keys
    {
    }

    /** sweeplist on one list of the string table */
    method SweepStrings()
      requires Shared() && Swept() && sweepstrgc < |strt|
      modifies this`h, this`m, this`strt, this`sweepstrgc
      ensures Shared() && Swept() && sweepstrgc == old(sweepstrgc) + 1 && |strt| == |old(strt)| && LiveKept()
      ensures Untouched(old(h), h)
    {
      hide SharedOf, Kept, SweptWhite, Untouched, Owned;
      UntouchedSame(h);
      var i := sweepstrgc;
      SharedKeys();
      KeptSame(h, m, currentwhite);
      var k := 0;
      while k < |strt[i]|
        invariant |strt| == |old(strt)| && sweepstrgc == i && 0 <= k <= |strt[i]|
        invariant Shared() && Swept() && LiveKept() && Untouched(old(h), h)
        invariant forall j :: 0 <= j < k ==> strt[i][j] in m && m[strt[i][j]] == White(currentwhite)
        decreases |strt[i]| - k
      {
        ghost var h1, m1 := h, m;
        SharedOwned();
        k := SweepString(k);
        UntouchedTrans(old(h), h1, h);
        KeptTrans(old(h), old(m), h1, m1, h, m, currentwhite);
      }
      BucketSwept(h, m, currentwhite, rootgc, strt, sweepstrgc, sweepgc);
      sweepstrgc := sweepstrgc + 1;
    }

    // ----- open upvalues -----

    /** luaF_freeupval, on an open upvalue that is dead. */
    method FreeUpval(t: Ref, k: nat)
      requires Shared() && Swept() && t in h && k < |h[t].open| && Dead(m, currentwhite, h[t].open[k])
      modifies this`h, this`m, this`uvhead
      ensures Shared() && Swept() && LiveKept() && t in h && h[t] == old(h)[t].(open := Remove(old(h)[t].open, k))
      ensures h == DropOpen(old(h), t, k) - {old(h)[t].open[k]}
      ensures m == old(m) - {old(h)[t].open[k]} && t in m
    {
      hide SharedOf, Kept, SweptWhite;
      var uv := h[t].open[k];
      SharedKeys();
      OpenFacts(h, m, currentwhite, rootgc, strt, uvhead, mainthread, Roots(), t, k);
      FreeOpenShared(h, m, currentwhite, rootgc, strt, uvhead, mainthread, Roots(), t, k);
      SweptFreeOpen(h, m, currentwhite, rootgc, strt, sweepstrgc, sweepgc, t, k);
      h, m, uvhead := DropOpen(h, t, k) - {uv}, m - {uv}, Without(uvhead, uv);
    }

    /** The first k open upvalues of t have the current white. */
    ghost predicate OpenSwept(t: Ref, k: int)
      reads this
    {
      t in h && 0 <= k <= |h[t].open|
      && forall j :: 0 <= j < k ==> h[t].open[j] in m && m[h[t].open[j]] == White(currentwhite)
    }

    /** One round of sweeplist, on the open upvalues of a thread. */
    method SweepUpval(t: Ref, k: nat) returns (k': nat)
      requires Shared() && Swept() && OpenSwept(t, k) && k < |h[t].open| && t in m
      modifies this`h, this`m, this`uvhead
      ensures Shared() && Swept() && LiveKept() && OpenSwept(t, k') && t in m && m[t] == old(m)[t]
      ensures h[t] == old(h)[t].(open := h[t].open) && |h[t].open| - k' < |old(h)[t].open| - k
      ensures Untouched(old(h), h)
    {
      hide SharedOf, Kept, SweptWhite, Untouched;
      UntouchedSame(h);
      OpenNotFixed(t);
      UntouchedDrop(h, t, k);
      SharedKeys();
      var curr := h[t].open[k];
      assert curr in h[t].open;
      OthersStay(h[t].open, k, t);
      if m[curr] != White(!currentwhite) {
        WhitenShared(h, m, currentwhite, rootgc, strt, uvhead, mainthread, Roots(), curr);
        WhiteIsSwept(curr);
        m := m[curr := White(currentwhite)];
        k' := k + 1;
      } else {
        FreeUpval(t, k);
        k' := k;
      }
    }

    /** sweeplist on the open upvalues of a thread */
    method SweepOpen(t: Ref)
      requires Shared() && Swept() && t in h && t in m
      modifies this`h, this`m, this`uvhead
      ensures Shared() && Swept() && LiveKept() && t in h && t in m && m[t] == old(m)[t]
      ensures h[t] == old(h)[t].(open := h[t].open) && OpenSwept(t, |h[t].open|) && Untouched(old(h), h)
    {
      hide SharedOf, Kept, SweptWhite, Untouched, Owned;
      UntouchedSame(h);
      SharedKeys();
      KeptSame(h, m, currentwhite);
      var k := 0;
      while k < |h[t].open|
        invariant OpenSwept(t, k) && t in m && m[t] == old(m)[t] && h[t] == old(h)[t].(open := h[t].open)
        invariant Shared() && Swept() && LiveKept() && Untouched(old(h), h)
        decreases |h[t].open| - k
      {
        ghost var h1, m1 := h, m;
        SharedOwned();
        k := SweepUpval(t, k);
        UntouchedTrans(old(h), h1, h);
        KeptTrans(old(h), old(m), h1, m1, h, m, currentwhite);
      }
    }

    lemma OthersStay(list: seq<Ref>, k: nat, t: Ref)
      requires Shared() && t in h && list == h[t].open && k < |list|
      ensures forall j :: 0 <= j < k ==> Remove(list, k)[j] == list[j] != list[k]
    {
      assert OpenOk(h, t);
    }

    // ----- write barriers -----

    ghost predicate IsSweeping()
      reads this`gcstate
    {
      gcstate == GCSsweepstring || gcstate == GCSsweep
    }

    /** luaC_barrierf: a black object o has got a white child v. */
    method BarrierF(o: Ref, v: Ref)
      requires Shared() && o in m && m[o] == Black && IsWhite(m, v) && Live(m, currentwhite, v)
      requires gcstate == GCSpropagate ==> Marking({o}) && forall c :: IsChild(h, o, c) ==> c == v || NonWhite(m, c)
      requires IsSweeping() ==> Swept()
      modifies this`m, this`gray
      ensures Shared() && Kept(h, old(m), h, m, currentwhite)
      ensures gcstate == GCSpropagate ==> Marking({}) && forall x :: NonWhite(old(m), x) ==> NonWhite(m, x)
      ensures IsSweeping() ==> Swept()
      ensures gcstate != GCSpropagate ==> m == old(m)[o := White(currentwhite)]
    {
      hide SharedOf, MarkOk, Kept, SweptWhite, Roots, NonWhite;
      if gcstate == GCSpropagate {
        BarrierMark(o, v);
      } else {
        RecolorShared(h, m, currentwhite, rootgc, strt, uvhead, mainthread, Roots(), o, White(currentwhite));
        if IsSweeping() { WhiteIsSwept(o); }
        m := m[o := White(currentwhite)];  // no second barrier for this object before it is swept
      }
    }

    /** luaC_barrierf in the mark phase: the child is marked. */
    method BarrierMark(o: Ref, v: Ref)
      requires Shared() && gcstate == GCSpropagate && o in m && m[o] == Black && IsWhite(m, v) && Marking({o})
      requires forall c :: IsChild(h, o, c) ==> c == v || NonWhite(m, c)
      modifies this`m, this`gray
      ensures Shared() && Kept(h, old(m), h, m, currentwhite)
      ensures Marking({}) && forall x :: NonWhite(old(m), x) ==> NonWhite(m, x)
    {
      hide SharedOf, MarkOk, Kept, SweptWhite, Roots;
      SharedKeys();
      AllClosed(h, m);
      ghost var m0, gray0 := m, gray;
      ReallyMarkObject(v, {o}, AllRefs());
      MarkingLive(h, m0, m, currentwhite, gray0, grayagain, {o}, gray, grayagain, {o});
      ShadedShared(h, m0, m, currentwhite, rootgc, strt, uvhead, mainthread, Roots());
      assert {o} - {o} == {};
      assert m[o] == Black;
      FieldsMarked(h, m, currentwhite, gray, grayagain, {o}, {}, {}, o);
    }

    /** From h to h' the first open upvalue of t was freed, or closed with its value. */
    ghost predicate OneClosed(h: Heap, h': Heap, t: Ref)
      requires t in h && h[t].open != []
    {
      var x := h[t].open[0];
      && (forall y {:trigger h'[y]} :: y in h' && y != x && y != t ==> y in h && h'[y] == h[y])
      && (forall y {:trigger h[y]} :: y in h && y != x && y != t ==> y in h')
      && (x in h' && x in h ==> h'[x] == Object(UpvalObj, false, [StackValue(h, h[x])], None, 0, []))
    }

    /** Upvalue o was just closed: it is in no list yet.  Before, the heap was h0. */
    ghost predicate ToBeLinked(o: Ref, h0: Heap)
      reads this
    {
      && SharedOf(h, m, currentwhite, [o] + rootgc, strt, uvhead, mainthread, Roots()) && sweepgc <= |rootgc|
      && o in h && h[o].kind == UpvalObj && !IsOpen(h[o]) && |h[o].fields| == 1 && o in m && m[o] != Black
      && Live(m, currentwhite, o)
      && (gcstate == GCSpropagate ==> Marking(if m[o].White? then {} else {o}) && o !in gray && o !in grayagain)
      && (IsSweeping() ==>
            && SweptWhite(h0, m, currentwhite, rootgc, strt, sweepstrgc, sweepgc) && m.Keys == h0.Keys == h.Keys
            && forall x :: x in h && x != o ==> h[x].kind == h0[x].kind && h[x].owner == h0[x].owner)
      && (gcstate == GCSpause || gcstate == GCSfinalize ==> AllWhite(m, currentwhite))
    }

    /** luaC_linkupval, on an upvalue that luaF_close has just closed. */
    method LinkUpval(o: Ref, ghost h0: Heap)
      requires ToBeLinked(o, h0)
      modifies this`m, this`gray, this`rootgc, this`sweepgc
      ensures Shared() && Kept(h, old(m), h, m, currentwhite) && rootgc == [o] + old(rootgc)
      ensures sweepgc == Shift(old(sweepgc))
      ensures gcstate == GCSpropagate ==> Marking({}) && forall x :: NonWhite(old(m), x) ==> NonWhite(m, x)
      ensures IsSweeping() ==> Swept()
      ensures gcstate != GCSpropagate ==> m == old(m) || m == old(m)[o := White(currentwhite)]
      ensures gcstate == GCSpause || gcstate == GCSfinalize ==> m == old(m)
    {
      hide SharedOf, MarkOk, Kept, SweptWhite, AllWhite, NonWhite, Roots;
      ghost var m0, r0, sg0 := m, rootgc, sweepgc;
      if gcstate == GCSpause || gcstate == GCSfinalize { WhiteIsNotGray(o); }
      rootgc, sweepgc := [o] + rootgc, Shift(sweepgc);
      KeysShared();
      KeptSame(h, m, currentwhite);
      if m[o] == Gray { LinkGray(o); }
      if IsSweeping() { LinkedIsSwept(h0, m0, r0, sg0, o); }
    }

    /** luaC_linkupval, on a gray upvalue. */
    method LinkGray(o: Ref)
      requires Shared() && o in m && m[o] == Gray && (gcstate == GCSpropagate || IsSweeping())
      requires o in h && h[o].kind == UpvalObj && !IsOpen(h[o]) && |h[o].fields| == 1
      requires gcstate == GCSpropagate ==> Marking({o}) && o !in gray && o !in grayagain
      modifies this`m, this`gray
      ensures Shared() && Kept(h, old(m), h, m, currentwhite)
      ensures gcstate == GCSpropagate ==> Marking({}) && forall x :: NonWhite(old(m), x) ==> NonWhite(m, x)
      ensures gcstate != GCSpropagate ==> m == old(m)[o := White(currentwhite)]
    {
      hide SharedOf, MarkOk, Kept, SweptWhite, AllWhite, NonWhite, Roots;
      if gcstate == GCSpropagate {
        BlackenUpval(o);
      } else {
        RecolorShared(h, m, currentwhite, rootgc, strt, uvhead, mainthread, Roots(), o, White(currentwhite));
        m := m[o := White(currentwhite)];
      }
    }

    lemma WhiteIsNotGray(o: Ref)
      requires AllWhite(m, currentwhite) && o in m
      ensures m[o] != Gray
    {
    }

    /** A closed upvalue that was gray becomes black, with the barrier that it needs. */
    method BlackenUpval(o: Ref)
      requires Shared() && Marking({o}) && gcstate == GCSpropagate && o in m && m[o] == Gray && o !in gray
      requires o !in grayagain
      requires o in h && h[o].kind == UpvalObj && !IsOpen(h[o]) && |h[o].fields| == 1
      modifies this`m, this`gray
      ensures Shared() && Marking({}) && Kept(h, old(m), h, m, currentwhite)
      ensures forall x :: NonWhite(old(m), x) ==> NonWhite(m, x)
    {
      hide SharedOf, MarkOk, Kept;
      ghost var m0 := m;
      Blacken(h, m, currentwhite, gray, grayagain, {o}, {}, o);
      RecolorShared(h, m, currentwhite, rootgc, strt, uvhead, mainthread, Roots(), o, Black);
      m := m[o := Black];
      MarkClosedValue(o);
      KeptTrans(h, m0, h, m0[o := Black], h, m, currentwhite);
    }

    /** The barrier of luaC_linkupval. */
    method MarkClosedValue(o: Ref)
      requires Shared() && Marking({o}) && gcstate == GCSpropagate && o in m && m[o] == Black
      requires o in h && !IsOpen(h[o]) && |h[o].fields| == 1
      modifies this`m, this`gray
      ensures Shared() && Marking({}) && Kept(h, old(m), h, m, currentwhite)
      ensures forall x :: NonWhite(old(m), x) ==> NonWhite(m, x)
    {
      hide SharedOf, MarkOk, Kept;
      var v := h[o].fields[0];
      assert forall c: Ref :: IsChild(h, o, c) ==> v == Some(c);
      SharedKeys();
      if v.Some? {
        assert IsChild(h, o, v.value);
        MarkingLiveChild(o, v.value);
        if m[v.value].White? {
          BarrierF(o, v.value);
          return;
        }
      }
      assert {o} - {o} == {};
      KeptSame(h, m, currentwhite);
      FieldsMarked(h, m, currentwhite, gray, grayagain, {o}, {}, {}, o);
    }

    lemma MarkingLiveChild(o: Ref, c: Ref)
      requires Marking({o}) && IsChild(h, o, c)
      ensures Live(m, currentwhite, c)
    {
    }

    lemma LinkedIsSwept(h0: Heap, m0: Marks, r0: seq<Ref>, sg0: nat, o: Ref)
      requires sg0 <= |r0| && SweptWhite(h0, m0, currentwhite, r0, strt, sweepstrgc, sg0)
      requires m0.Keys == h0.Keys == h.Keys
      requires forall x :: x in h && x != o ==> h[x].kind == h0[x].kind && h[x].owner == h0[x].owner
      requires o in m && m[o] == White(currentwhite) && (m == m0 || m == m0[o := White(currentwhite)])
      requires rootgc == [o] + r0 && sweepgc == Shift(sg0)
      ensures Swept()
    {
      SweptLink(h0, m0, currentwhite, r0, strt, sweepstrgc, sg0, o, h, m);
    }

    /** One round of luaF_close: the first open upvalue of thread t. */
    method CloseFirst(t: Ref)
      requires Valid() && t in h && h[t].open != []
      modifies this`h, this`m, this`gray, this`rootgc, this`uvhead, this`sweepgc
      ensures Valid() && LiveKept() && t in h && t in m && h[t] == old(h)[t].(open := old(h)[t].open[1..])
      ensures gcstate != GCSpropagate ==> m[t] == old(m)[t]
      ensures (rootgc == old(rootgc) && sweepgc == old(sweepgc))
           || (rootgc == [old(h)[t].open[0]] + old(rootgc) && sweepgc == Shift(old(sweepgc)))
      ensures OneClosed(old(h), h, t)
    {
      hide SharedOf, MarkOk, Kept, SweptWhite, AllWhite;
      SharedKeys();
      var uv := h[t].open[0];
      assert uv in h[t].open;
      assert Remove(h[t].open, 0) == h[t].open[1..];
      if m[uv] == White(!currentwhite) {
        NobodyDead(uv);
        FreeUpval(t, 0);
      } else {
        CloseLive(t);
      }
    }

    /** The first open upvalue leaves the open list, and gets its value. */
    method Unlink(t: Ref)
      requires Valid() && t in h && h[t].open != [] && Live(m, currentwhite, h[t].open[0]) && t in m
      requires h[t].open[0] in h && h[t].open[0] != t
      modifies this`h, this`uvhead
      ensures ToBeLinked(old(h)[t].open[0], old(h)) && h == CloseOpen(old(h), t, 0)
      ensures Kept(old(h), m, h, m, currentwhite)
    {
      hide SharedOf, MarkOk, Kept, SweptWhite, AllWhite, NonWhite, CloseOpen, IsOpen, OpenOk, Roots, Without, Remove,
           DropOpen;
      var uv := h[t].open[0];
      CloseOpenShape(h, t, 0);
      KeysShared();
      OpenFacts(h, m, currentwhite, rootgc, strt, uvhead, mainthread, Roots(), t, 0);
      CloseOpenShared(h, m, currentwhite, rootgc, strt, uvhead, mainthread, Roots(), t, 0);
      if gcstate == GCSpropagate { CloseOpenMark(h, m, currentwhite, gray, grayagain, t, 0); }
      h, uvhead := CloseOpen(h, t, 0), Without(uvhead, uv);
    }

    method CloseLive(t: Ref)
      requires Valid() && t in h && h[t].open != [] && Live(m, currentwhite, h[t].open[0]) && t in m
      requires h[t].open[0] in h && h[t].open[0] != t
      modifies this`h, this`m, this`gray, this`rootgc, this`uvhead, this`sweepgc
      ensures Valid() && LiveKept() && t in h && t in m && h[t] == old(h)[t].(open := old(h)[t].open[1..])
      ensures gcstate != GCSpropagate ==> m[t] == old(m)[t]
      ensures rootgc == [old(h)[t].open[0]] + old(rootgc) && sweepgc == Shift(old(sweepgc))
      ensures OneClosed(old(h), h, t)
    {
      hide SharedOf, MarkOk, Kept, SweptWhite, AllWhite, NonWhite, CloseOpen, IsOpen, OpenOk, Roots, Without,
           DropOpen, ToBeLinked, OneClosed, Valid, Shared, Swept, Marking;
      var uv := h[t].open[0];
      ghost var h0, m0 := h, m;
      CloseOpenShape(h, t, 0);
      CloseOpenOne(t);
      assert Remove(h[t].open, 0) == h[t].open[1..];
      MarkedRoots();
      Unlink(t);
      ghost var h1 := h;
      LinkUpval(uv, h0);
      KeptTrans(h0, m0, h1, m0, h, m, currentwhite);
      Assemble();
    }

    lemma Assemble()
      requires Shared()
      requires gcstate == GCSpropagate ==> Marking({}) && NonWhite(m, mainthread) && NonWhite(m, registry)
      requires IsSweeping() ==> Swept()
      requires gcstate == GCSsweepstring ==> sweepgc == 0 && sweepstrgc < |strt|
      requires gcstate == GCSsweep ==> sweepstrgc == |strt|
      requires gcstate == GCSpause || gcstate == GCSfinalize ==> AllWhite(m, currentwhite)
      ensures Valid()
    {
    }

    lemma CloseOpenOne(t: Ref)
      requires t in h && h[t].open != [] && h[t].open[0] in h && h[t].open[0] != t
      ensures OneClosed(h, CloseOpen(h, t, 0), t)
    {
    }

    lemma MarkedRoots()
      requires Valid()
      ensures gcstate == GCSpropagate ==> NonWhite(m, mainthread) && NonWhite(m, registry)
      ensures gcstate == GCSsweepstring ==> sweepgc == 0 && sweepstrgc < |strt|
      ensures gcstate == GCSsweep ==> sweepstrgc == |strt|
      ensures gcstate == GCSpause || gcstate == GCSfinalize ==> AllWhite(m, currentwhite)
      ensures m.Keys == h.Keys
    {
    }

    /** Dead objects exist only while the collector sweeps. */
    lemma NobodyDead(o: Ref)
      requires Valid() && o in m && m[o] == White(!currentwhite)
      ensures IsSweeping()
    {
    }

    /** The first n open upvalues of t were closed, each with its value, or freed if they were dead. */
    ghost predicate ClosedUpTo(h0: Heap, m0: Marks, t: Ref, n: nat)
      reads this
    {
      && t in h0 && t in h && n <= |h0[t].open| && h[t] == h0[t].(open := h0[t].open[n..])
      && (forall i {:trigger h0[t].open[i]} :: 0 <= i < n ==>
            var x := h0[t].open[i];
            && x in h0
            && (Live(m0, currentwhite, x) ==>
                  x in h && h[x] == Object(UpvalObj, false, [StackValue(h0, h0[x])], None, 0, [])))
      && forall i {:trigger h0[t].open[i]} :: n <= i < |h0[t].open| ==>
           var x := h0[t].open[i]; x in h0 && x in h && h[x] == h0[x]
    }

    /** From h0 to h exactly the first n open upvalues of t were closed, each with its value, or freed. */
    ghost predicate OnlyClosed(h0: Heap, h: Heap, t: Ref, n: nat)
      requires t in h0 && n <= |h0[t].open|
    {
      && t in h && h[t] == h0[t].(open := h0[t].open[n..])
      && (forall x {:trigger h0[x]} :: x in h0 && x !in h0[t].open[..n] ==> x in h)
      && forall x {:trigger h[x]} :: x in h ==>
           && x in h0
           && h[x] == if x in h0[t].open[..n] then ClosedUpval(StackValue(h0, h0[x])) else h0[x].(open := h[x].open)
    }

    lemma OnlyNone(t: Ref)
      requires t in h
      ensures OnlyClosed(h, h, t, 0)
    {
      assert h[t].open[0..] == h[t].open && h[t].open[..0] == [];
    }

    lemma OnlyOneMore(h0: Heap, h1: Heap, h: Heap, t: Ref, n: nat)
      requires t in h0 && n < |h0[t].open| && OnlyClosed(h0, h1, t, n) && h1[t].open != [] && OneClosed(h1, h, t)
      requires OpenOk(h0, t) && h0[t].kind == ThreadObj && t in h && h[t] == h1[t].(open := h1[t].open[1..])
      requires h.Keys <= h1.Keys
      ensures OnlyClosed(h0, h, t, n + 1)
    {
      var list := h0[t].open;
      var x := list[n];
      assert x == h1[t].open[0] && list[n..][1..] == list[n+1..] && x in list;
      assert list[..n+1] == list[..n] + [x];
      forall y | y in h0 && y !in list[..n+1] ensures y in h {
        assert h1[y] == h1[y];
      }
      forall y | y in h
        ensures y in h0
        ensures h[y] == if y in list[..n+1] then ClosedUpval(StackValue(h0, h0[y])) else h0[y].(open := h[y].open)
      {
        assert h1[y] == h1[y];
        if y == x {
          assert x !in list[..n];
          assert StackValue(h1, h1[x]) == StackValue(h0, h0[x]);
        }
        if y == t { assert t !in list; }
      }
    }

    lemma ClosedNone(t: Ref)
      requires Shared() && t in h
      ensures ClosedUpTo(h, m, t, 0)
    {
      assert OpenOk(h, t);
      assert h[t].open[0..] == h[t].open;
      forall i | 0 <= i < |h[t].open| ensures h[t].open[i] in h { assert h[t].open[i] in h[t].open; }
    }

    lemma ClosedOneMore(h0: Heap, m0: Marks, t: Ref, n: nat, h1: Heap, m1: Marks)
      requires OpenOk(h0, t) && t in h0 && t in h1 && n < |h0[t].open| && h1[t] == h0[t].(open := h0[t].open[n..])
      requires forall i {:trigger h0[t].open[i]} :: 0 <= i < n ==>
                 var x := h0[t].open[i];
                 && x in h0
                 && (Live(m0, currentwhite, x) ==>
                       x in h1 && h1[x] == Object(UpvalObj, false, [StackValue(h0, h0[x])], None, 0, []))
      requires forall i {:trigger h0[t].open[i]} ::
                 n <= i < |h0[t].open| ==> var x := h0[t].open[i]; x in h0 && x in h1 && h1[x] == h0[x]
      requires OneClosed(h1, h, t) && Kept(h0, m0, h1, m1, currentwhite) && Kept(h1, m1, h, m, currentwhite)
      requires t in h && h[t] == h1[t].(open := h1[t].open[1..])
      ensures ClosedUpTo(h0, m0, t, n + 1)
    {
      var x := h0[t].open[n];
      assert h1[t].open[0] == x && h0[t].open[n..][1..] == h0[t].open[n+1..];
      assert x in h0[t].open;
      assert StackValue(h1, h1[x]) == StackValue(h0, h0[x]);
      forall i | 0 <= i < |h0[t].open| && i != n ensures h0[t].open[i] != x && h0[t].open[i] != t {
        assert h0[t].open[i] in h0[t].open;
      }
    }

    /** luaF_close: exactly the upvalues at `level` and above are closed, each with its current value; a dead one is
        freed. */
    method Close(t: Ref, level: nat) returns (ghost n: nat)
      requires Valid() && t in h
      modifies this`h, this`m, this`gray, this`rootgc, this`uvhead, this`sweepgc
      ensures Valid() && LiveKept() && ClosedUpTo(old(h), old(m), t, n)
      ensures forall i :: 0 <= i < |old(h)[t].open| ==>
                old(h)[t].open[i] in old(h) && (i < n <==> old(h)[old(h)[t].open[i]].level >= level)
      ensures BlockLeft(old(h), h, t, level)
    {
      hide SharedOf, MarkOk, Kept, SweptWhite, AllWhite, Marking, OneClosed, IsOpen, OnlyClosed, BlockLeft;
      ghost var h0, m0 := h, m;
      MarkedRoots();
      KeptSame(h, m, currentwhite);
      OnlyNone(t);
      ThreadFacts(t);
      OpenAreOwned(t);
      ClosedNone(t);
      OpenInOrder(t);
      n := 0;
      while h[t].open != [] && h[h[t].open[0]].level >= level
        invariant n <= |h0[t].open| && t in h && Valid() && LiveKept() && ClosedUpTo(h0, m0, t, n)
        invariant forall i :: 0 <= i < n ==> h0[h0[t].open[i]].level >= level
        invariant OnlyClosed(h0, h, t, n)
        decreases |h0[t].open| - n
      {
        ghost var h1, m1 := h, m;
        assert h1[t].open[0] == h0[t].open[n];
        CloseFirst(t);
        ClosedOneMore(h0, m0, t, n, h1, m1);
        KeptTrans(h0, m0, h1, m1, h, m, currentwhite);
        SubHeap(h1, m1, h, m, currentwhite);
        OnlyOneMore(h0, h1, h, t, n);
        n := n + 1;
      }
      if n < |h0[t].open| { assert h[t].open[0] == h0[t].open[n]; }
      BlockDone(h0, h, t, level, n);
    }

    /** The list of a thread holds exactly its open upvalues. */
    lemma OpenAreOwned(t: Ref)
      requires Shared() && t in h
      ensures forall x :: x in h[t].open <==> x in h && IsOpen(h[x]) && h[x].owner == Some(t)
    {
      assert OpenOk(h, t);
      forall x | x in h && IsOpen(h[x]) && h[x].owner == Some(t) ensures x in h[t].open {
        assert KeptAt(h, rootgc, strt, uvhead, x);
      }
    }

    lemma BlockDone(h0: Heap, h1: Heap, t: Ref, level: nat, n: nat)
      requires t in h0 && n <= |h0[t].open| && OnlyClosed(h0, h1, t, n)
      requires forall x :: x in h0[t].open <==> x in h0 && IsOpen(h0[x]) && h0[x].owner == Some(t)
      requires forall i :: 0 <= i < |h0[t].open| ==>
                 h0[t].open[i] in h0 && (i < n <==> h0[h0[t].open[i]].level >= level)
      ensures BlockLeft(h0, h1, t, level)
    {
      var list := h0[t].open;
      forall x | x in list[..n] ensures Mutator.Leaves(h0, x, t, level) {
        var j :| 0 <= j < n && list[..n][j] == x;
        assert list[j] == x && x in list;
      }
      forall x | x in h1
        ensures x in h0
        ensures h1[x] == if Mutator.Leaves(h0, x, t, level) then ClosedUpval(StackValue(h0, h0[x]))
                         else h0[x].(open := h1[x].open)
      {
        assert h1[x] == h1[x];
        if x in list {
          var i :| 0 <= i < |list| && list[i] == x;
          assert i < n <==> h0[x].level >= level;
          if i < n { assert list[..n][i] == x; }
        } else {
          assert x !in list[..n];
        }
      }
    }

    lemma OpenInOrder(t: Ref)
      requires Shared() && t in h
      ensures OpenOk(h, t) && forall x :: x in h[t].open ==> x in h
      ensures forall i, j :: 0 <= i < j < |h[t].open| ==> h[h[t].open[i]].level > h[h[t].open[j]].level
    {
      assert OpenOk(h, t);
      assert forall i :: 0 <= i < |h[t].open| ==> h[t].open[i] in h[t].open;
      forall i, j | 0 <= i < j < |h[t].open| ensures h[h[t].open[i]].level > h[h[t].open[j]].level {
        assert Above(h, h[t].open[i], h[t].open[j]);
      }
    }

    // ----- sweeping the other objects -----

    /** freeobj, on the object at position p of rootgc: the open upvalues of a dead thread are closed first. */
    method FreeObject(p: nat)
      requires Valid() && gcstate == GCSsweep && p == sweepgc < |rootgc| && Dead(m, currentwhite, rootgc[p])
      requires rootgc[p] in h && !h[rootgc[p]].fixed
      modifies this`h, this`m, this`gray, this`rootgc, this`uvhead, this`sweepgc
      ensures Valid() && LiveKept() && old(rootgc)[p] !in h && Untouched(old(h), h)
    {
      hide SharedOf, MarkOk, Kept, SweptWhite, AllWhite, Marking, OneClosed, IsOpen, OnlyClosed, Untouched, OpenOk;
      ghost var h0, m0 := h, m;
      var o := rootgc[p];
      RootFacts(p);
      ThreadFacts(o);
      OpenNotFixed(o);
      ghost var n;
      var at;
      at, n := CloseDead(p);
      ghost var h1, m1 := h, m;
      FreeRootShared(h, m, currentwhite, rootgc, strt, uvhead, mainthread, Roots(), at);
      SweptFreeRoot(h, m, currentwhite, rootgc, strt, sweepstrgc, sweepgc, at);
      rootgc := Remove(rootgc, at);
      h, m := h - {o}, m - {o};
      KeptTrans(h0, m0, h1, m1, h, m, currentwhite);
      ClosedAndFreed(h0, h1, o, n);
    }

    /** luaF_close on a dead thread, from its bottom on: nothing stays open.  The thread is now at position `at`. */
    method CloseDead(p: nat) returns (at: nat, ghost n: nat)
      requires Valid() && gcstate == GCSsweep && p == sweepgc < |rootgc| && Dead(m, currentwhite, rootgc[p])
      modifies this`h, this`m, this`gray, this`rootgc, this`uvhead, this`sweepgc
      ensures Valid() && LiveKept() && old(rootgc)[p] in h && h[old(rootgc)[p]].open == []
      ensures at < |rootgc| && rootgc[at] == old(rootgc)[p] && sweepgc <= at && Dead(m, currentwhite, rootgc[at])
      ensures old(rootgc)[p] in old(h) && n <= |old(h)[old(rootgc)[p]].open|
      ensures OnlyClosed(old(h), h, old(rootgc)[p], n)
    {
      hide SharedOf, MarkOk, Kept, SweptWhite, AllWhite, Marking, OneClosed, IsOpen, OnlyClosed, OpenOk;
      ghost var h0, m0 := h, m;
      var o := rootgc[p];
      at, n := p, 0;
      RootFacts(p);
      KeptSame(h, m, currentwhite);
      OnlyNone(o);
      ThreadFacts(o);
      while h[o].open != []
        invariant o in h && o in m && m[o] == White(!currentwhite) && Valid() && LiveKept()
        invariant at < |rootgc| && rootgc[at] == o && sweepgc <= at
        invariant n <= |h0[o].open| && OnlyClosed(h0, h, o, n) && h[o].open == h0[o].open[n..]
        decreases |h[o].open|
      {
        ghost var h1, m1 := h, m;
        var size := |rootgc|;
        CloseFirst(o);
        KeptTrans(h0, m0, h1, m1, h, m, currentwhite);
        SubHeap(h1, m1, h, m, currentwhite);
        OnlyOneMore(h0, h1, h, o, n);
        n := n + 1;
        if |rootgc| > size { at := at + 1; }  // the object is one place further from the start of the list
      }
    }

    /** A thread without open upvalues is freed. */
    lemma ClosedAndFreed(h0: Heap, h1: Heap, t: Ref, n: nat)
      requires t in h0 && n <= |h0[t].open| && OnlyClosed(h0, h1, t, n) && OpenOk(h0, t)
      requires !h0[t].fixed && forall x :: x in h0[t].open && x in h0 ==> !h0[x].fixed
      ensures Untouched(h0, h1 - {t})
    {
      forall x | x in h0[t].open[..n] ensures x in h0[t].open { }
      forall x | x in h1 - {t} ensures UntouchedAt(h0, h1 - {t}, x) {
        assert h1[x] == h1[x];
        if x in h0[t].open[..n] { assert x in h0[t].open; }
      }
    }

    lemma OpenNotFixed(t: Ref)
      requires Shared() && t in h
      ensures forall x :: x in h[t].open ==> x in h && !h[x].fixed
    {
      assert OpenOk(h, t);
    }

    lemma ThreadFacts(t: Ref)
      requires Shared() && t in h
      ensures OpenOk(h, t) && (h[t].open != [] ==> h[t].kind == ThreadObj)
    {
      assert OpenOk(h, t);
    }

    lemma RootFacts(p: nat)
      requires Shared() && p < |rootgc|
      ensures rootgc[p] in h && rootgc[p] in m && m.Keys == h.Keys
    {
      assert rootgc[p] in rootgc;
    }

    /** The object at the position of the sweep is not dead. */
    method KeepObject()
      requires Valid() && gcstate == GCSsweep && sweepgc < |rootgc|
      requires rootgc[sweepgc] in h && OpenSwept(rootgc[sweepgc], |h[rootgc[sweepgc]].open|)
      requires Live(m, currentwhite, rootgc[sweepgc]) || h[rootgc[sweepgc]].fixed
      modifies this`m, this`sweepgc
      ensures Valid() && LiveKept() && sweepgc == old(sweepgc) + 1
    {
      hide SharedOf, MarkOk, Kept, SweptWhite, AllWhite, Marking, Roots;
      var curr := rootgc[sweepgc];
      ghost var m1 := m;
      WhitenShared(h, m, currentwhite, rootgc, strt, uvhead, mainthread, Roots(), curr);
      WhiteIsSwept(curr);
      m := m[curr := White(currentwhite)];
      OpenWhite(curr, m1);
      SharedLists();
      RootSwept(h, m, currentwhite, rootgc, strt, uvhead, sweepstrgc, sweepgc);
      sweepgc := sweepgc + 1;
    }

    /** One round of sweeplist, on rootgc. */
    method SweepObject()
      requires Valid() && gcstate == GCSsweep && sweepgc < |rootgc|
      modifies this`h, this`m, this`gray, this`rootgc, this`uvhead, this`sweepgc
      ensures Valid() && LiveKept() && Untouched(old(h), h)
      ensures h.Keys < old(h.Keys) || (h.Keys == old(h.Keys) && |rootgc| - sweepgc < |old(rootgc)| - old(sweepgc))
    {
      hide SharedOf, MarkOk, Kept, SweptWhite, AllWhite, Marking, Roots, Swept, Untouched, Owned;
      UntouchedSame(h);
      ghost var h0, m0 := h, m;
      var curr := rootgc[sweepgc];
      RootFacts(sweepgc);
      KeptSame(h, m, currentwhite);
      if h[curr].kind == ThreadObj { SweepOpen(curr); }
      else { NoOpen(curr); }
      ghost var h1, m1 := h, m;
      SubHeap(h0, m0, h1, m1, currentwhite);
      SharedOwned();
      UntouchedSame(h);
      RootFacts(sweepgc);
      if m[curr] != White(!currentwhite) || h[curr].fixed {
        KeepObject();
      } else {
        FreeObject(sweepgc);
      }
      KeptTrans(h0, m0, h1, m1, h, m, currentwhite);
      UntouchedTrans(h0, h1, h);
      SubHeap(h1, m1, h, m, currentwhite);
    }

    lemma NoOpen(t: Ref)
      requires Shared() && t in h && h[t].kind != ThreadObj
      ensures OpenSwept(t, |h[t].open|)
    {
      assert OpenOk(h, t);
    }

    lemma SharedLists()
      requires Shared()
      ensures ListsOk(h, rootgc, strt, uvhead)
    {
    }

    lemma SubHeap(h0: Heap, m0: Marks, h1: Heap, m1: Marks, cw: bool)
      requires Kept(h0, m0, h1, m1, cw)
      ensures h1.Keys <= h0.Keys
    {
    }

    lemma OpenWhite(t: Ref, m1: Marks)
      requires t in h && m == m1[t := White(currentwhite)]
      requires forall j :: 0 <= j < |h[t].open| ==> h[t].open[j] in m1 && m1[h[t].open[j]] == White(currentwhite)
      ensures forall x :: x in h[t].open && x in m ==> m[x] == White(currentwhite)
    {
    }

    /** sweeplist on rootgc, at most `count` objects. */
    method SweepObjects(count: nat)
      requires Valid() && gcstate == GCSsweep && count > 0
      modifies this`h, this`m, this`gray, this`rootgc, this`uvhead, this`sweepgc
      ensures Valid() && LiveKept() && Untouched(old(h), h)
      ensures || sweepgc == |rootgc|
              || h.Keys < old(h.Keys) || (h.Keys == old(h.Keys) && |rootgc| - sweepgc < |old(rootgc)| - old(sweepgc))
    {
      hide SharedOf, MarkOk, Kept, SweptWhite, AllWhite, Marking, Roots, Swept, Untouched, Owned;
      var n := count;
      UntouchedSame(h);
      KeysShared();
      KeptSame(h, m, currentwhite);
      while sweepgc < |rootgc| && n > 0
        invariant Valid() && LiveKept() && n <= count && Untouched(old(h), h)
        invariant h.Keys <= old(h.Keys)
        invariant n < count ==>
                    h.Keys < old(h.Keys) || (h.Keys == old(h.Keys) && |rootgc| - sweepgc < |old(rootgc)| - old(sweepgc))
        invariant n == count ==> h.Keys == old(h.Keys) && rootgc == old(rootgc) && sweepgc == old(sweepgc)
        decreases n
      {
        ghost var h1, m1 := h, m;
        SharedOwned();
        SweepObject();
        UntouchedTrans(old(h), h1, h);
        KeptTrans(old(h), old(m), h1, m1, h, m, currentwhite);
        n := n - 1;
      }
    }

    // ----- steps of the collector -----

    /** Only objects of s were marked so far; or, after the mark phase, only they and fixed objects are live. */
    ghost predicate Accounted(s: iset<Ref>)
      reads this
    {
      if gcstate == GCSpropagate then Within(m, s) && Closed(h, s) && forall r :: r in Roots() ==> r in s
      else forall o :: Live(m, currentwhite, o) ==> o in s || (o in h && h[o].fixed)
    }

    ghost predicate RootsClosed(s: iset<Ref>)
      reads this
    {
      Closed(h, s) && forall r :: r in Roots() ==> r in s
    }

    /** What the steps of a full collection descend by. */
    ghost function Rank(): nat
      reads this`gcstate
    {
      match gcstate
      case GCSpause => 0
      case GCSfinalize => 1
      case GCSsweep => 2
      case GCSsweepstring => 3
      case GCSpropagate => 4
    }

    ghost function Left(): int
      reads this
    {
      match gcstate
      case GCSpropagate => |gray|
      case GCSsweepstring => |strt| - sweepstrgc
      case GCSsweep => |rootgc| - sweepgc
      case _ => 0
    }

    /** The objects that a phase still has to deal with. */
    ghost function Todo(): set<Ref>
      reads this
    {
      if gcstate == GCSpropagate then Whites(m) else if gcstate == GCSsweep then h.Keys else {}
    }

    /** A step gets nearer to the end of the collection. */
    twostate predicate Nearer()
      reads this
    {
      || Rank() < old(Rank())
      || (Rank() == old(Rank()) && (Todo() < old(Todo()) || (Todo() == old(Todo()) && Left() < old(Left()))))
    }

    twostate predicate SameRoots()
      reads this
    {
      && mainthread == old(mainthread) && registry == old(registry) && mt == old(mt) && running == old(running)
      && |strt| == |old(strt)|
    }

    /** markroot, when no mark phase or sweep is under way: singlestep in the state GCSpause */
    method StepPause(ghost s: iset<Ref>)
      requires Valid() && (gcstate == GCSpause || gcstate == GCSfinalize) && RootsClosed(s)
      modifies this`m, this`gray, this`grayagain, this`gcstate
      ensures Valid() && gcstate == GCSpropagate && Accounted(s)
    {
      hide MarkOk, SweptWhite, ListsOk, LiveClosed, NeverBlack, FixedOk;
      StringsHaveNoFields(h, rootgc, strt, uvhead);
      ghost var m0 := m;
      MarkRoot(s);
      NothingDies(m0);
      ShadedShared(h, m0, m, currentwhite, rootgc, strt, uvhead, mainthread, Roots());
    }

    lemma NothingDies(m0: Marks)
      requires AllWhite(m0, currentwhite) && Marking({}) && m.Keys == m0.Keys
      ensures NeverBlack(h, m) && forall o :: Live(m0, currentwhite, o) <==> Live(m, currentwhite, o)
    {
    }

    /** singlestep in the state GCSpropagate, with gray objects left */
    method StepGray(ghost s: iset<Ref>)
      requires Valid() && gcstate == GCSpropagate && Accounted(s) && gray != []
      modifies this`m, this`gray, this`grayagain
      ensures Valid() && Accounted(s) && Nearer()
    {
      hide MarkOk, SweptWhite, SharedOf, Closed, Roots;
      ghost var m0, gray0, again0 := m, gray, grayagain;
      KeysShared();
      PropagateMark(s);
      ShadedWithin(m0, m, s);
      MarkingLive(h, m0, m, currentwhite, gray0, again0, {}, gray, grayagain, {});
      ShadedShared(h, m0, m, currentwhite, rootgc, strt, uvhead, mainthread, Roots());
    }

    /** singlestep in the state GCSpropagate */
    method StepPropagate(ghost s: iset<Ref>)
      requires Valid() && gcstate == GCSpropagate && Accounted(s)
      modifies this`m, this`gray, this`grayagain, this`late, this`currentwhite, this`sweepstrgc, this`sweepgc,
               this`gcstate
      ensures Valid() && Accounted(s) && Nearer()
    {
      hide MarkOk, SweptWhite, SharedOf, Closed, Roots, Nearer;
      if gray != [] {
        StepGray(s);
      } else {
        ghost var m0 := m;
        SharedLists();
        SharedRootsLive();
        Atomic(s);
        AfterAtomic(m0);
        NewPhase(old(Rank()));
      }
    }

    twostate lemma NewPhase(r: nat)
      requires Rank() < r == old(Rank())
      ensures Nearer()
    {
    }

    lemma SharedRootsLive()
      requires Shared()
      ensures RootsLive()
    {
    }

    lemma AfterAtomic(m0: Marks)
      requires SharedOf(h, m0, !currentwhite, rootgc, strt, uvhead, mainthread, Roots())
      requires m.Keys == h.Keys && NeverBlack(h, m) && LiveClosed(h, m, currentwhite) && RootsLive()
      requires sweepstrgc == 0 && sweepgc == 0
      ensures Shared() && Swept() && |strt| > 0
    {
      NothingSwept(h, m, currentwhite, rootgc, strt, uvhead);
    }

    lemma KeptAccounted(h0: Heap, m0: Marks, s: iset<Ref>)
      requires Kept(h0, m0, h, m, currentwhite) && gcstate != GCSpropagate
      requires forall o :: Live(m0, currentwhite, o) ==> o in s || (o in h0 && h0[o].fixed)
      ensures Accounted(s)
    {
    }

    /** singlestep in the state GCSsweepstring */
    method StepSweepString(ghost s: iset<Ref>)
      requires Valid() && gcstate == GCSsweepstring
      modifies this`h, this`m, this`strt, this`sweepstrgc, this`gcstate
      ensures |strt| == |old(strt)|
      ensures Valid() && LiveKept() && Nearer() && (IsSweeping() || gcstate == GCSfinalize) && Untouched(old(h), h)
      ensures old(Accounted(s)) ==> Accounted(s)
    {
      hide SharedOf, MarkOk, Kept, SweptWhite, AllWhite, Marking, Roots, Closed, Untouched;
      ghost var h0, m0 := h, m;
      SweepStrings();
      if sweepstrgc >= |strt| {
        gcstate := GCSsweep;
      }
      if old(Accounted(s)) { KeptAccounted(h0, m0, s); }
    }

    /** singlestep in the state GCSsweep */
    method StepSweep(ghost s: iset<Ref>)
      requires Valid() && gcstate == GCSsweep
      modifies this`h, this`m, this`gray, this`rootgc, this`uvhead, this`sweepgc, this`gcstate
      ensures Valid() && LiveKept() && Nearer() && (IsSweeping() || gcstate == GCSfinalize) && Untouched(old(h), h)
      ensures old(Accounted(s)) ==> Accounted(s)
    {
      hide SharedOf, MarkOk, Kept, SweptWhite, AllWhite, Marking, Roots, Closed, Untouched;
      ghost var h0, m0 := h, m;
      SweepObjects(GCSWEEPMAX);
      if sweepgc == |rootgc| {
        EverythingSwept(h, m, currentwhite, rootgc, strt);
        gcstate := GCSfinalize;
      }
      if old(Accounted(s)) { KeptAccounted(h0, m0, s); }
    }

    /** singlestep, without finalizers.  Whatever can be reached stays, with the same children. */
    method SingleStep(ghost s: iset<Ref>)
      requires Valid() && (gcstate == GCSpause ==> RootsClosed(s)) && (gcstate == GCSpropagate ==> Accounted(s))
      modifies this
      ensures Valid() && SameRoots() && ReachKept(old(h), h, Roots()) && Untouched(old(h), h)
      ensures old(gcstate) != GCSpause ==> Nearer() && (old(Accounted(s)) ==> Accounted(s))
      ensures old(gcstate) == GCSpause ==> gcstate == GCSpropagate && Accounted(s)
      ensures old(IsSweeping()) ==> IsSweeping() || gcstate == GCSfinalize
    {
      hide SharedOf, MarkOk, Kept, SweptWhite, AllWhite, Roots, Untouched;
      ghost var h0, m0, roots := h, m, Roots();
      UntouchedSame(h);
      SharedReach();
      match gcstate {
        case GCSpause => StepPause(s);
        case GCSpropagate => StepPropagate(s);
        case GCSsweepstring =>
          StepSweepString(s);
          KeptReach(h0, m0, h, m, currentwhite, roots);
        case GCSsweep =>
          StepSweep(s);
          KeptReach(h0, m0, h, m, currentwhite, roots);
        case GCSfinalize => gcstate := GCSpause;
      }
    }

    lemma SharedReach()
      requires Shared()
      ensures LiveClosed(h, m, currentwhite) && forall r :: r in Roots() ==> Live(m, currentwhite, r)
      ensures ReachKept(h, h, Roots())
    {
    }

    /** Does the state belong to a sweep that luaC_fullgc has to finish first? */
    method FinishSweep()
      requires Valid()
      modifies this
      ensures Valid() && gcstate == GCSfinalize && SameRoots() && ReachKept(old(h), h, Roots()) && Untouched(old(h), h)
    {
      hide SharedOf, MarkOk, Kept, SweptWhite, AllWhite, Roots, ReachKept, Valid, Untouched, Owned;
      ValidShared();
      SharedReach();
      UntouchedSame(h);
      if gcstate == GCSpause || gcstate == GCSpropagate { RestartSweep(); }
      while gcstate != GCSfinalize
        invariant Valid() && (IsSweeping() || gcstate == GCSfinalize) && SameRoots() && ReachKept(old(h), h, Roots())
        invariant Untouched(old(h), h)
        decreases Rank(), Todo(), Left()
      {
        ghost var h1 := h;
        NothingNegative();
        ValidOwned();
        SingleStep(AllRefs());
        UntouchedTrans(old(h), h1, h);
        NothingNegative();
        ReachKeptTrans(old(h), h1, h, Roots());
      }
    }

    lemma ValidOwned()
      requires Valid()
      ensures Owned(h)
    {
      hide MarkOk, SweptWhite;
      SharedOwned();
    }

    lemma NothingNegative()
      requires Valid()
      ensures Left() >= 0
    {
    }

    /** The mark phase is given up: nothing is freed by the sweep that follows, which only makes everything white. */
    method RestartSweep()
      requires Valid() && (gcstate == GCSpause || gcstate == GCSpropagate)
      modifies this`sweepstrgc, this`sweepgc, this`gray, this`grayagain, this`gcstate
      ensures Valid() && gcstate == GCSsweepstring
    {
      hide MarkOk, LiveClosed, NeverBlack, FixedOk, AllWhite, ListsOk;
      sweepstrgc, sweepgc := 0, 0;
      gray, grayagain := [], [];
      gcstate := GCSsweepstring;
      SweepFromStart();
    }

    lemma SweepFromStart()
      requires SharedOf(h, m, currentwhite, rootgc, strt, uvhead, mainthread, Roots()) && sweepstrgc == 0
      requires sweepgc == 0
      requires gcstate == GCSsweepstring
      ensures Valid()
    {
      NothingSwept(h, m, currentwhite, rootgc, strt, uvhead);
    }

    /** luaC_fullgc, without finalizers: it ends, and it leaves exactly the objects that can be reached, and those that
        are fixed; all of them are white. */
    method FullGC()
      requires Valid()
      modifies this
      ensures Valid() && gcstate == GCSpause && SameRoots() && AllWhite(m, currentwhite)
      ensures ReachKept(old(h), h, Roots()) && Untouched(old(h), h)
      ensures forall o :: o in h ==> Reachable(h, Roots(), o) || h[o].fixed
    {
      hide SharedOf, MarkOk, Kept, SweptWhite, AllWhite, Roots, ReachKept, Reachable, Accounted, Untouched, Owned;
      FinishSweep();
      ghost var h1, roots := h, Roots();
      ghost var s := ReachSet(h, roots);
      ReachSetClosed();
      StepPause(s);
      SharedReach();
      while gcstate != GCSpause
        invariant Valid() && Accounted(s) && SameRoots() && Roots() == roots && ReachKept(h1, h, roots)
        invariant Untouched(old(h), h)
        decreases Rank(), Todo(), Left()
      {
        ghost var h2 := h;
        ValidOwned();
        SingleStep(s);
        UntouchedTrans(old(h), h2, h);
        ReachKeptTrans(h1, h2, h, roots);
      }
      ReachKeptTrans(old(h), h1, h, roots);
      OnlyReachable(h1, roots);
    }

    ghost function ReachSet(h: Heap, roots: set<Ref>): iset<Ref> {
      iset o | Reachable(h, roots, o)
    }

    lemma ReachSetClosed()
      ensures RootsClosed(ReachSet(h, Roots()))
    {
      ReachableClosed(h, Roots());
    }

    lemma OnlyReachable(h1: Heap, roots: set<Ref>)
      requires Valid() && gcstate == GCSpause && roots == Roots() && ReachKept(h1, h, roots)
      requires Accounted(ReachSet(h1, roots))
      ensures forall o :: o in h ==> Reachable(h, roots, o) || h[o].fixed
    {
      forall o | o in h && !h[o].fixed ensures Reachable(h, roots, o) {
        assert Live(m, currentwhite, o);
        SameReachable(h1, h, roots, o);
      }
    }

    // ----- steps of the mutator -----

    /** An empty state: the main thread with its stack, and a registry. */
    constructor (mainthread: Ref, registry: Ref, stack: nat, buckets: nat)
      requires mainthread != registry && buckets > 0 && stack > 0
      ensures Valid() && gcstate == GCSpause && h == FirstHeap(mainthread, registry, stack) && AllWhite(m, currentwhite)
    {
      hide SharedOf;
      this.mainthread, this.registry, running := mainthread, registry, mainthread;
      h := FirstHeap(mainthread, registry, stack);
      m := map[mainthread := White(false), registry := White(false)];
      currentwhite, gcstate, gray, grayagain, late := false, GCSpause, [], [], {};
      rootgc, strt, uvhead, mt := [mainthread, registry], seq(buckets, _ => []), [], seq(NUM_TAGS, _ => None);
      sweepstrgc, sweepgc := 0, 0;
      new;
      FirstShared(mainthread, registry, stack, strt);
      assert Roots() == {mainthread, registry};
    }

    /** luaC_link: a new object, white and without references. */
    method Link(o: Ref, kind: Kind, size: nat)
      requires Valid() && o !in h && kind !in {StringObj, UserdataObj}
      modifies this`h, this`m, this`rootgc, this`sweepgc
      ensures Valid() && h == old(h)[o := Object(kind, false, seq(size, _ => None), None, 0, [])]
      ensures m == old(m)[o := White(currentwhite)]
    {
      hide SharedOf, MarkOk, SweptWhite, Roots;
      ghost var h0, m0 := h, m;
      var x := Object(kind, false, seq(size, _ => None), None, 0, []);
      KeysShared();
      NewRootShared(h, m, currentwhite, rootgc, strt, uvhead, mainthread, Roots(), o, x);
      NewObjectMark(o, x);
      if IsSweeping() {
        SweptLink(h, m, currentwhite, rootgc, strt, sweepstrgc, sweepgc, o, h[o := x], m[o := White(currentwhite)]);
      }
      rootgc, sweepgc := [o] + rootgc, Shift(sweepgc);
      h, m := h[o := x], m[o := White(currentwhite)];
    }

    /** luaS_newudata: userdata are linked after the main thread. */
    method NewUdata(o: Ref, size: nat)
      requires Valid() && o !in h
      modifies this`h, this`m, this`rootgc, this`sweepgc
      ensures Valid() && h == old(h)[o := Object(UserdataObj, false, seq(size, _ => None), None, 0, [])]
      ensures m == old(m)[o := White(currentwhite)]
    {
      hide SharedOf, MarkOk, SweptWhite, Roots, Valid, AllWhite;
      var x := Object(UserdataObj, false, seq(size, _ => None), None, 0, []);
      ValidShared();
      var q := MainThreadPosition();
      LinkAt(q + 1, o, x);
    }

    /** A new object is linked at position q of rootgc. */
    method LinkAt(q: nat, o: Ref, x: Object)
      requires Valid() && o !in h && q <= |rootgc| && (gcstate == GCSsweepstring ==> q > 0)
      requires x.kind != StringObj && !IsOpen(x) && x.open == [] && !x.fixed && forall v :: v in x.fields ==> v == None
      modifies this`h, this`m, this`rootgc, this`sweepgc
      ensures Valid() && h == old(h)[o := x] && m == old(m)[o := White(currentwhite)]
    {
      hide SharedOf, MarkOk, SweptWhite, Roots, Valid, AllWhite, InsertAt, IsOpen;
      ValidShared();
      MarkedRoots();
      NewUdataShared(h, m, currentwhite, rootgc, strt, uvhead, mainthread, Roots(), q, o, x);
      NewObjectMark(o, x);
      if IsSweeping() {
        SweptInsert(h, m, currentwhite, rootgc, strt, sweepstrgc, sweepgc, q, o, x);
      }
      AddedWhite(o);
      InsertLength(q, o);
      sweepgc := if sweepgc <= q then sweepgc else sweepgc + 1;
      rootgc := InsertAt(rootgc, q, o);
      h, m := h[o := x], m[o := White(currentwhite)];
      Assemble();
    }

    lemma InsertLength(q: nat, o: Ref)
      requires q <= |rootgc|
      ensures |InsertAt(rootgc, q, o)| == |rootgc| + 1
    {
    }

    /** The main thread is in the list, as the source has a pointer to it. */
    method MainThreadPosition() returns (q: nat)
      requires Shared()
      ensures q < |rootgc| && rootgc[q] == mainthread
    {
      hide SharedOf, Roots;
      MainThreadLinked();
      q := 0;
      while rootgc[q] != mainthread
        invariant 0 <= q < |rootgc| && mainthread in rootgc[q..]
        decreases |rootgc| - q
      {
        q := q + 1;
      }
    }

    lemma MainThreadLinked()
      requires Shared()
      ensures mainthread in rootgc && rootgc[0..] == rootgc
    {
      assert KeptAt(h, rootgc, strt, uvhead, mainthread);
    }

    lemma NewObjectMark(o: Ref, x: Object)
      requires Valid() && o !in h && !IsOpen(x) && forall v :: v in x.fields ==> v == None
      requires x.kind == StringObj ==> x.fields == []
      ensures gcstate == GCSpropagate ==>
                MarkOk(h[o := x], m[o := White(currentwhite)], currentwhite, gray, grayagain, {})
    {
      hide MarkOk, ListsOk, SweptWhite, FixedOk, NeverBlack, LiveClosed;
      if gcstate == GCSpropagate {
        OwnersAreThreads(h, rootgc, strt, uvhead);
        NewMark(h, m, currentwhite, gray, grayagain, o, h[o := x]);
      }
    }

    /** newlstr: a new string in bucket i of the string table */
    method NewString(o: Ref, i: nat, fixed: bool)
      requires Valid() && o !in h && i < |strt|
      modifies this`h, this`m, this`strt
      ensures Valid() && h == old(h)[o := Object(StringObj, fixed, [], None, 0, [])]
      ensures m == old(m)[o := White(currentwhite)] && |strt| == |old(strt)|
    {
      hide SharedOf, MarkOk, SweptWhite, Roots;
      var x := Object(StringObj, fixed, [], None, 0, []);
      KeysShared();
      NewStringShared(h, m, currentwhite, rootgc, strt, uvhead, mainthread, Roots(), i, o, fixed);
      NewObjectMark(o, x);
      if IsSweeping() {
        SweptSame(h, m, currentwhite, rootgc, strt, sweepstrgc, sweepgc, h[o := x], m[o := White(currentwhite)],
                  strt[i := [o] + strt[i]]);
      }
      strt := strt[i := [o] + strt[i]];
      h, m := h[o := x], m[o := White(currentwhite)];
    }

    /** luaS_newlstr finds the string: it may be dead, but not collected yet. */
    method ReuseString(o: Ref)
      requires Valid() && o in h && h[o].kind == StringObj
      modifies this`m
      ensures Valid() && Live(m, currentwhite, o)
      ensures m == if Dead(old(m), currentwhite, o) then old(m)[o := White(currentwhite)] else old(m)
    {
      hide SharedOf, MarkOk, SweptWhite, Roots;
      KeysShared();
      if m[o] == White(!currentwhite) {
        StringChildless(o);
        Resurrect(o);
      }
    }

    lemma StringChildless(o: Ref)
      requires Shared() && o in h && h[o].kind == StringObj
      ensures forall c: Ref :: !IsChild(h, o, c)
    {
      assert KeptAt(h, rootgc, strt, uvhead, o);
    }

    /** changewhite, on a dead object */
    method Resurrect(o: Ref)
      requires Valid() && Dead(m, currentwhite, o) && o in h
      requires forall c: Ref :: IsChild(h, o, c) ==> Live(m, currentwhite, c)
      modifies this`m
      ensures Valid() && m == old(m)[o := White(currentwhite)]
    {
      hide SharedOf, MarkOk, SweptWhite, Roots, AllWhite;
      NobodyDead(o);
      ResurrectShared(h, m, currentwhite, rootgc, strt, uvhead, mainthread, Roots(), o);
      WhiteIsSwept(o);
      m := m[o := White(currentwhite)];
    }

    /** The mutator can use whatever it can reach. */
    lemma ReachableIsLive(o: Ref)
      requires Valid() && Reachable(h, Roots(), o)
      ensures Live(m, currentwhite, o) && o in h
    {
      LiveReachable(h, m, currentwhite, Roots(), o);
    }

    /** Must a store of v into object o be followed by a barrier? */
    predicate NeedsBarrier(o: Ref, v: Option<Ref>)
      reads `m
    {
      o in m && m[o] == Black && v.Some? && v.value in m && m[v.value].White?
    }

    /** After the store of a live value only a barrier may be missing. */
    lemma Stored(o: Ref, i: nat, v: Option<Ref>)
      requires Valid() && o in h && i < |h[o].fields| && (v.Some? ==> Live(m, currentwhite, v.value))
      requires h[o].kind != StringObj
      ensures var h', busy := Store(h, o, i, v), if NeedsBarrier(o, v) then {o} else {};
              && SharedOf(h', m, currentwhite, rootgc, strt, uvhead, mainthread, Roots())
              && (gcstate == GCSpropagate ==>
                    && MarkOk(h', m, currentwhite, gray, grayagain, busy)
                    && (NeedsBarrier(o, v) ==> forall c: Ref :: IsChild(h', o, c) ==> v == Some(c) || NonWhite(m, c)))
              && (IsSweeping() ==> SweptWhite(h', m, currentwhite, rootgc, strt, sweepstrgc, sweepgc))
              && (NeedsBarrier(o, v) ==> gcstate == GCSpropagate || IsSweeping())
    {
      hide SharedOf, MarkOk, SweptWhite, Roots;
      KeysShared();
      StoreShared(h, m, currentwhite, rootgc, strt, uvhead, mainthread, Roots(), o, i, v);
      if gcstate == GCSpropagate {
        StoreMark(h, m, currentwhite, gray, grayagain, o, i, v, if NeedsBarrier(o, v) then {o} else {});
      }
      if IsSweeping() {
        SweptSame(h, m, currentwhite, rootgc, strt, sweepstrgc, sweepgc, Store(h, o, i, v), m, strt);
      }
    }

    /** A store into a table, with luaC_barriert. */
    method SetTable(t: Ref, i: nat, v: Option<Ref>)
      requires Valid() && Live(m, currentwhite, t) && t in h && h[t].kind == TableObj && i < |h[t].fields|
      requires v.Some? ==> Live(m, currentwhite, v.value)
      modifies this`h, this`m, this`grayagain
      ensures Valid() && h == Store(old(h), t, i, v)
      ensures m == if old(NeedsBarrier(t, v)) then old(m)[t := Gray] else old(m)
    {
      hide SharedOf, MarkOk, SweptWhite, Roots, AllWhite, Valid;
      MarkedRoots();
      Stored(t, i, v);
      ValidShared();
      h := Store(h, t, i, v);
      if NeedsBarrier(t, v) { BarrierBack(t); }
      Assemble();
    }

    lemma ValidShared()
      requires Valid()
      ensures Shared() && (IsSweeping() ==> Swept())
    {
    }

    /** luaC_barrierback */
    method BarrierBack(t: Ref)
      requires Shared() && t in m && m[t] == Black && t in h && h[t].kind == TableObj
      requires gcstate == GCSpropagate || IsSweeping()
      requires gcstate == GCSpropagate ==> Marking({t})
      requires IsSweeping() ==> Swept()
      modifies this`m, this`grayagain
      ensures Shared() && m == old(m)[t := Gray]
      ensures gcstate == GCSpropagate ==> Marking({})
      ensures IsSweeping() ==> Swept()
    {
      hide SharedOf, MarkOk, SweptWhite, Roots;
      RecolorShared(h, m, currentwhite, rootgc, strt, uvhead, mainthread, Roots(), t, Gray);
      if gcstate == GCSpropagate {
        BackMark(h, m, currentwhite, gray, grayagain, t);
      } else {
        SweptSame(h, m, currentwhite, rootgc, strt, sweepstrgc, sweepgc, h, m[t := Gray], strt);
      }
      m := m[t := Gray];
      grayagain := [t] + grayagain;
    }

    /** A store into a userdata, a function, a prototype or a closed upvalue, with luaC_barrier. */
    method SetObject(o: Ref, i: nat, v: Option<Ref>)
      requires Valid() && Live(m, currentwhite, o) && o in h && i < |h[o].fields|
      requires v.Some? ==> Live(m, currentwhite, v.value)
      requires h[o].kind !in {StringObj, TableObj, ThreadObj} && !IsOpen(h[o])
      modifies this`h, this`m, this`gray
      ensures Valid() && h == Store(old(h), o, i, v)
      ensures forall x :: Live(old(m), currentwhite, x) ==> Live(m, currentwhite, x)
    {
      hide SharedOf, MarkOk, SweptWhite, Roots, AllWhite, Valid, Kept;
      MarkedRoots();
      Stored(o, i, v);
      ValidShared();
      ghost var m0 := m;
      h := Store(h, o, i, v);
      if NeedsBarrier(o, v) {
        BarrierF(o, v.value);
        KeptLive(h, m0, h, m);
      }
      Assemble();
    }

    lemma KeptLive(h0: Heap, m0: Marks, h1: Heap, m1: Marks)
      requires Kept(h0, m0, h1, m1, currentwhite)
      ensures forall x :: Live(m0, currentwhite, x) ==> Live(m1, currentwhite, x)
    {
    }

    /** A store into the stack of a thread: it needs no barrier, because threads are never black. */
    method SetStack(t: Ref, i: nat, v: Option<Ref>)
      requires Valid() && t in h && h[t].kind == ThreadObj && i < |h[t].fields|
      requires v.Some? ==> Live(m, currentwhite, v.value)
      modifies this`h
      ensures Valid() && h == Store(old(h), t, i, v)
    {
      hide SharedOf, MarkOk, SweptWhite, Roots, AllWhite, Valid;
      MarkedRoots();
      Stored(t, i, v);
      ValidShared();
      ThreadNotBlack(t);
      h := Store(h, t, i, v);
      Assemble();
    }

    lemma ThreadNotBlack(t: Ref)
      requires Shared() && t in h && (h[t].kind == ThreadObj || IsOpen(h[t]))
      ensures m[t] != Black
    {
    }

    /** OP_SETUPVAL: the value of an open upvalue lives in the stack of its thread, that of a closed one in the
        upvalue. */
    method SetUpval(u: Ref, v: Option<Ref>)
      requires Valid() && Live(m, currentwhite, u) && u in h && h[u].kind == UpvalObj
      requires v.Some? ==> Live(m, currentwhite, v.value)
      requires IsOpen(h[u]) || |h[u].fields| > 0
      modifies this`h, this`m, this`gray
      ensures Valid()
      ensures forall x :: Live(old(m), currentwhite, x) ==> Live(m, currentwhite, x)
      ensures var x := old(h)[u];
              && (if IsOpen(x) then x.owner.value in old(h) && x.level < |old(h)[x.owner.value].fields| else true)
              && h == if IsOpen(x) then Store(old(h), x.owner.value, x.level, v) else Store(old(h), u, 0, v)
    {
      hide SharedOf, MarkOk, SweptWhite, Roots, AllWhite, Valid;
      ValidShared();
      if IsOpen(h[u]) {
        OpenInStack(u);
        SetStack(h[u].owner.value, h[u].level, v);
      } else {
        SetObject(u, 0, v);
      }
    }

    lemma OpenInStack(u: Ref)
      requires Shared() && u in h && IsOpen(h[u])
      ensures h[u].owner.value in h && h[h[u].owner.value].kind == ThreadObj
      ensures h[u].level < |h[h[u].owner.value].fields|
    {
      assert KeptAt(h, rootgc, strt, uvhead, u) && OpenOk(h, h[u].owner.value);
    }

    /** luaF_findupval: the open upvalue for this slot of the stack, which may have to come back to life; o is the
        new object if there is none. */
    method FindUpval(t: Ref, level: nat, o: Ref) returns (uv: Ref, ghost k: nat)
      requires Valid() && Live(m, currentwhite, t) && t in h && h[t].kind == ThreadObj && level < |h[t].fields|
      requires o !in h
      modifies this`h, this`m, this`uvhead
      ensures Valid() && uv in h && IsOpen(h[uv]) && h[uv].owner == Some(t) && h[uv].level == level
      ensures Live(m, currentwhite, uv)
      ensures k <= |old(h)[t].open| && forall x :: x in old(h)[t].open ==> x in old(h)
      ensures (exists x :: x in old(h)[t].open && old(h)[x].level == level) ==>
                && uv in old(h)[t].open && h == old(h)
                && m == if Dead(old(m), currentwhite, uv) then old(m)[uv := White(currentwhite)] else old(m)
      ensures (forall x :: x in old(h)[t].open ==> old(h)[x].level != level) ==>
                uv == o && h == AddOpen(old(h), t, k, o, level) && m == old(m)[o := White(currentwhite)]
    {
      hide SharedOf, MarkOk, SweptWhite, Roots, AllWhite, Valid;
      ValidShared();
      OpenInOrder(t);
      KeysShared();
      var i := 0;
      while i < |h[t].open| && h[h[t].open[i]].level >= level
        invariant 0 <= i <= |h[t].open|
        invariant forall j :: 0 <= j < i ==> h[h[t].open[j]].level > level
      {
        var p := h[t].open[i];
        assert p in h[t].open;
        if h[p].level == level {
          if m[p] == White(!currentwhite) {
            OnlyStackValue(t, p);
            Resurrect(p);
          }
          return p, 0;
        }
        i := i + 1;
      }
      AddUpval(t, i, o, level);
      return o, i;
    }

    lemma OnlyStackValue(t: Ref, p: Ref)
      requires Shared() && Live(m, currentwhite, t) && t in h && h[t].kind == ThreadObj && p in h && IsOpen(h[p])
      requires h[p].owner == Some(t)
      ensures forall c: Ref :: IsChild(h, p, c) ==> Live(m, currentwhite, c)
    {
      forall c: Ref | IsChild(h, p, c) ensures Live(m, currentwhite, c) { assert IsChild(h, t, c); }
    }

    /** A new open upvalue in its place in the list of the thread. */
    method AddUpval(t: Ref, k: nat, o: Ref, level: nat)
      requires Valid() && Live(m, currentwhite, t) && t in h && h[t].kind == ThreadObj && level < |h[t].fields|
      requires o !in h
      requires k <= |h[t].open|
      requires forall i :: 0 <= i < k ==> h[t].open[i] in h && h[h[t].open[i]].level > level
      requires forall i :: k <= i < |h[t].open| ==> h[t].open[i] in h && h[h[t].open[i]].level < level
      modifies this`h, this`m, this`uvhead
      ensures Valid() && h == AddOpen(old(h), t, k, o, level) && m == old(m)[o := White(currentwhite)]
      ensures uvhead == [o] + old(uvhead)
    {
      hide SharedOf, MarkOk, SweptWhite, Roots, AllWhite, Valid, InsertAt;
      MarkedRoots();
      ValidShared();
      ghost var h', m' := AddOpen(h, t, k, o, level), m[o := White(currentwhite)];
      AddOpenShared(h, m, currentwhite, rootgc, strt, uvhead, mainthread, Roots(), t, k, o, level);
      AddedMark(t, k, o, level);
      if IsSweeping() {
        SweptSame(h, m, currentwhite, rootgc, strt, sweepstrgc, sweepgc, h', m', strt);
      }
      AddedWhite(o);
      h, m, uvhead := AddOpen(h, t, k, o, level), m[o := White(currentwhite)], [o] + uvhead;
      Assemble();
    }

    lemma AddedMark(t: Ref, k: nat, o: Ref, level: nat)
      requires Valid() && t in h && h[t].kind == ThreadObj && o !in h && k <= |h[t].open|
      ensures gcstate == GCSpropagate ==>
                MarkOk(AddOpen(h, t, k, o, level), m[o := White(currentwhite)], currentwhite, gray, grayagain, {})
    {
      hide MarkOk, ListsOk, SweptWhite, FixedOk, NeverBlack, InsertAt;
      if gcstate == GCSpropagate {
        var h' := AddOpen(h, t, k, o, level);
        OwnersAreThreads(h, rootgc, strt, uvhead);
        forall c: Ref | IsChild(h', o, c) ensures c in m {
          assert Some(c) in h[t].fields && IsChild(h, t, c);
          MarkedChild(t, c);
        }
        NewMark(h, m, currentwhite, gray, grayagain, o, h');
      }
    }

    lemma MarkedChild(x: Ref, c: Ref)
      requires Marking({}) && IsChild(h, x, c)
      ensures c in m
    {
    }

    lemma AddedWhite(o: Ref)
      ensures AllWhite(m, currentwhite) ==> AllWhite(m[o := White(currentwhite)], currentwhite)
    {
    }

    /** Two closures that capture the same slot of a stack share one upvalue. */
    lemma OneUpvalPerSlot(t: Ref, x: Ref, y: Ref)
      requires Valid() && x in h && y in h && IsOpen(h[x]) && IsOpen(h[y])
      requires h[x].owner == h[y].owner == Some(t) && h[x].level == h[y].level
      ensures x == y
    {
      hide MarkOk, SweptWhite, FixedOk, NeverBlack, LiveClosed;
      assert KeptAt(h, rootgc, strt, uvhead, x) && KeptAt(h, rootgc, strt, uvhead, y);
      OpenInOrder(t);
    }

    /** A metatable for a basic type: no barrier, because the atomic step marks these again. */
    method SetMetatable(i: nat, v: Option<Ref>)
      requires Valid() && i < |mt| && (v.Some? ==> Live(m, currentwhite, v.value))
      modifies this`mt
      ensures Valid() && mt == old(mt)[i := v]
    {
      hide MarkOk, SweptWhite, ListsOk, LiveClosed, NeverBlack, FixedOk, AllWhite;
      mt := mt[i := v];
    }

    /** Another thread runs: no barrier, because the atomic step marks the running thread. */
    method Resume(t: Ref)
      requires Valid() && Live(m, currentwhite, t)
      modifies this`running
      ensures Valid() && running == t
    {
      hide MarkOk, SweptWhite, ListsOk, LiveClosed, NeverBlack, FixedOk, AllWhite;
      running := t;
    }

    // ----- whole runs -----

    predicate Holds(o: Ref)
      reads `h, `m, `currentwhite
    {
      o in h && Live(m, currentwhite, o)
    }

    predicate HoldsValue(v: Option<Ref>)
      reads `h, `m, `currentwhite
    {
      v.Some? ==> Holds(v.value)
    }

    /** The mutator works with live objects only, as everything that it can reach is (ReachableIsLive). */
    predicate Ready(e: Event)
      reads `h, `m, `currentwhite, `strt, `mt
    {
      match e
      case CollectStep => true
      case CollectAll => true
      case NewObject(o, kind, _) => o !in h && kind != StringObj
      case NewStr(o, bucket, _) => o !in h && bucket < |strt|
      case PushStr(found, o, bucket, t, i) =>
        && (found in h ==> h[found].kind == StringObj) && o !in h && bucket < |strt|
        && Holds(t) && h[t].kind == ThreadObj && HasField(h, t, i)
      case Assign(o, i, v) => Holds(o) && HasField(h, o, i) && h[o].kind != StringObj && !IsOpen(h[o]) && HoldsValue(v)
      case AssignUpval(closure, i, v) =>
        && Holds(closure) && HasField(h, closure, i) && h[closure].fields[i].Some? && HoldsValue(v)
        && var u := h[closure].fields[i].value;
           Holds(u) && h[u].kind == UpvalObj && (IsOpen(h[u]) || |h[u].fields| > 0)
      case Capture(t, level, uv, closure, i) =>
        && Holds(t) && h[t].kind == ThreadObj && HasField(h, t, level) && uv !in h
        && Holds(closure) && h[closure].kind == FunctionObj && HasField(h, closure, i)
      case LeaveBlock(t, _) => Holds(t)
      case SetMt(n, v) => n < |mt| && HoldsValue(v)
      case Switch(t) => Holds(t)
    }

    /** The state but for the heap and the marks. */
    twostate predicate SameState()
      reads this
    {
      SameRoots() && currentwhite == old(currentwhite)
    }

    /** What was live is live. */
    twostate predicate StillLive()
      reads this
    {
      forall x {:trigger Live(m, currentwhite, x)} :: Live(old(m), old(currentwhite), x) ==> Live(m, currentwhite, x)
    }

    /** A store, with the barrier that the kind of the object needs. */
    method StoreField(o: Ref, i: nat, v: Option<Ref>)
      requires Valid() && Holds(o) && HasField(h, o, i) && h[o].kind != StringObj && !IsOpen(h[o]) && HoldsValue(v)
      modifies this`h, this`m, this`gray, this`grayagain
      ensures Valid() && h == Store(old(h), o, i, v) && StillLive()
    {
      hide SharedOf, MarkOk, SweptWhite, Roots, AllWhite, Valid, Kept, Store;
      if h[o].kind == TableObj {
        SetTable(o, i, v);
      } else if h[o].kind == ThreadObj {
        SetStack(o, i, v);
      } else {
        SetObject(o, i, v);
      }
    }

    /** A string on the stack: the one that was found, also if it was dead, or a new one. */
    method PushString(found: Ref, o: Ref, bucket: nat, t: Ref, i: nat) returns (p: Ref)
      requires Valid() && Ready(PushStr(found, o, bucket, t, i))
      modifies this
      ensures Valid() && SameState() && StillLive()
      ensures p == if found in old(h) then found else o
      ensures var h1 := if found in old(h) then old(h) else old(h)[o := StringOf(false)];
              HasField(h1, t, i) && h == Store(h1, t, i, Some(p))
    {
      hide SharedOf, MarkOk, SweptWhite, Roots, AllWhite, Valid, Store;
      if found in h {
        ReuseString(found);
        p := found;
      } else {
        NewString(o, bucket, false);
        p := o;
      }
      SetStack(t, i, Some(p));
    }

    /** An upvalue for a new closure: the open one of the variable, also if it was dead, or a new one. */
    method CaptureVariable(t: Ref, level: nat, uv: Ref, closure: Ref, i: nat) returns (p: Ref, ghost k: nat)
      requires Valid() && Ready(Capture(t, level, uv, closure, i))
      modifies this
      ensures Valid() && SameState() && StillLive()
      ensures (exists x :: AtSlot(old(h), x, t, level)) ==> AtSlot(old(h), p, t, level)
      ensures (forall x :: !AtSlot(old(h), x, t, level)) ==> p == uv
      ensures Captured(old(h), h, p, t, k, level, uv, closure, i)
    {
      hide SharedOf, MarkOk, SweptWhite, Roots, AllWhite, Valid, Store, AddOpen;
      ValidShared();
      OpenAreOwned(t);
      SlotInList(t, level);
      AddedField(t, uv, level, closure, i);
      p, k := FindUpval(t, level, uv);
      StoreField(closure, i, Some(p));
    }

    lemma SlotInList(t: Ref, level: nat)
      requires Shared() && t in h
      ensures forall x :: AtSlot(h, x, t, level) <==> x in h[t].open && x in h && h[x].level == level
    {
      OpenAreOwned(t);
    }

    lemma AddedField(t: Ref, uv: Ref, level: nat, closure: Ref, i: nat)
      requires t in h && uv !in h && HasField(h, closure, i) && h[closure].kind == FunctionObj
      ensures forall k {:trigger AddOpen(h, t, k, uv, level)} :: 0 <= k <= |h[t].open| ==>
                var h' := AddOpen(h, t, k, uv, level);
                HasField(h', closure, i) && h'[closure].kind == FunctionObj && closure in h'
    {
    }

    method MakeObject(o: Ref, kind: Kind, size: nat)
      requires Valid() && Ready(NewObject(o, kind, size))
      modifies this
      ensures Valid() && SameState() && StillLive() && h == old(h)[o := NewOf(kind, false, size)]
      ensures Live(m, currentwhite, o)
    {
      hide SharedOf, MarkOk, SweptWhite, Roots, AllWhite, Valid;
      if kind == UserdataObj {
        NewUdata(o, size);
      } else {
        Link(o, kind, size);
      }
    }

    method MakeString(o: Ref, bucket: nat, fixed: bool)
      requires Valid() && Ready(NewStr(o, bucket, fixed))
      modifies this
      ensures Valid() && SameState() && StillLive() && h == old(h)[o := StringOf(fixed)]
      ensures Live(m, currentwhite, o)
    {
      hide SharedOf, MarkOk, SweptWhite, Roots, AllWhite, Valid;
      NewString(o, bucket, fixed);
    }

    method AssignUpvalue(closure: Ref, i: nat, v: Option<Ref>)
      requires Valid() && Ready(AssignUpval(closure, i, v))
      modifies this
      ensures Valid() && SameState() && StillLive() && UpvalueAssigned(old(h), h, closure, i, v)
    {
      hide SharedOf, MarkOk, SweptWhite, Roots, AllWhite, Valid, Store;
      SetUpval(h[closure].fields[i].value, v);
    }

    method LeaveTo(t: Ref, level: nat)
      requires Valid() && Ready(LeaveBlock(t, level))
      modifies this
      ensures Valid() && SameState() && StillLive() && BlockLeft(old(h), h, t, level)
    {
      hide SharedOf, MarkOk, SweptWhite, Roots, AllWhite, Valid, Kept, ClosedUpTo, BlockLeft;
      var n := Close(t, level);
      KeptLive(old(h), old(m), h, m);
    }

    /** The new roots. */
    twostate predicate RootsAfter(e: Event)
      reads this
    {
      && mainthread == old(mainthread) && registry == old(registry) && |strt| == |old(strt)|
      && mt == (if e.SetMt? && e.n < |old(mt)| then old(mt)[e.n := e.v] else old(mt))
      && running == if e.Switch? then e.t else old(running)
    }

    /** What is live, unless the collector ran; a new object is. */
    twostate predicate LiveAfter(e: Event)
      reads this
    {
      && (!e.CollectStep? && !e.CollectAll? ==> StillLive())
      && (e.NewObject? ==> Live(m, currentwhite, e.o))
      && (e.NewStr? ==> Live(m, currentwhite, e.o))
    }

    /** One event. */
    method Perform(e: Event) returns (ghost p: Ref)
      requires Valid() && Ready(e)
      modifies this
      ensures Valid() && Effect(old(h), h, e, p) && RootsAfter(e) && LiveAfter(e)
      ensures e.CollectStep? || e.CollectAll? ==> ReachKept(old(h), h, Roots())
    {
      hide SharedOf, MarkOk, SweptWhite, Roots, AllWhite, Valid, ReachKept, ReachSet, Untouched, BlockLeft, Live,
           Store, AddOpen, StillLive, SetUpvalue;
      p := 0;
      match e {
        case CollectStep => Collect();
        case CollectAll => FullGC();
        case NewObject(o, kind, size) => MakeObject(o, kind, size);
        case NewStr(o, bucket, fixed) => MakeString(o, bucket, fixed);
        case PushStr(found, o, bucket, t, i) => p := PushString(found, o, bucket, t, i);
        case Assign(o, i, v) => StoreField(o, i, v);
        case AssignUpval(closure, i, v) => AssignUpvalue(closure, i, v);
        case Capture(t, level, uv, closure, i) => { var q, k := CaptureVariable(t, level, uv, closure, i); p := q; }
        case LeaveBlock(t, level) => LeaveTo(t, level);
        case SetMt(n, v) => SetMetatable(n, v); StillNow();
        case Switch(t) => Resume(t); StillNow();
      }
    }

    twostate lemma StillNow()
      requires m == old(m) && currentwhite == old(currentwhite)
      ensures StillLive()
    {
    }

    /** singlestep, with no assumption on what was marked so far */
    method Collect()
      requires Valid()
      modifies this
      ensures Valid() && SameRoots() && ReachKept(old(h), h, Roots()) && Untouched(old(h), h)
    {
      hide SharedOf, MarkOk, SweptWhite, Roots, AllWhite, ReachKept, Closed, Within;
      AllClosed(h, m);
      SingleStep(AllRefs());
    }

    /** The program as it is, with nothing new. */
    ghost function Running(): Program
      reads this
    {
      Program(h, mainthread, registry, mt, running, |strt|, {})
    }

    /** The state agrees with that of the program without a collector. */
    ghost predicate Mirrors(s: Program)
      reads this
    {
      && s.mainthread == mainthread && s.registry == registry && s.mt == mt && s.running == running
      && s.buckets == |strt| && Follows(s.heap, h)
      && forall o :: o in s.made ==> Live(m, currentwhite, o)
    }

    lemma MirrorsItself()
      requires Valid()
      ensures Mirrors(Running())
    {
      ValidOwned();
      hide Owned;
      assert OrphansApart(h, h);
    }

    lemma ValidSlots()
      requires Valid()
      ensures Owned(h) && OnePerSlot(h)
    {
      hide MarkOk, SweptWhite;
      ValidOwned();
      forall x, y | x in h && y in h && IsOpen(h[x]) && IsOpen(h[y]) && h[x].owner == h[y].owner
                    && h[x].level == h[y].level
        ensures x == y
      {
        OneUpvalPerSlot(h[x].owner.value, x, y);
      }
    }

    /** What the program can use is live. */
    lemma CanUse(s: Program)
      requires Valid() && Mirrors(s)
      ensures forall x {:trigger Usable(s, x)} :: Usable(s, x) ==> Holds(x)
      ensures UsableIn(s, h)
    {
      hide MarkOk, SweptWhite, ListsOk, Follows, Owned, Reachable;
      ValidOwned();
      assert RootsOf(s) == Roots();
      forall x | Usable(s, x) ensures Holds(x) { UsableIsLive(s, h, m, currentwhite, x); }
    }

    /** What is possible for the program is possible for the state. */
    lemma PossibleIsReady(s: Program, e: Event)
      requires Valid() && Mirrors(s) && Possible(s, e)
      ensures Ready(e)
    {
      hide Usable, Follows, Valid;
      CanUse(s);
      NoOther(s.heap, h);
      Plain(s);
      match e {
        case AssignUpval(closure, i, v) => UpvalueIsReady(s, closure, i, v);
        case PushStr(found, _, _, _, _) => if found in h { SamePlain(s.heap, h, found); }
        case _ =>
      }
    }

    lemma Plain(s: Program)
      requires Follows(s.heap, h)
      ensures forall o {:trigger h[o]} {:trigger s.heap[o]} :: o in h && o in s.heap ==>
                h[o].kind == s.heap[o].kind
                && (!IsOpen(s.heap[o]) ==> h[o].fields == s.heap[o].fields && !IsOpen(h[o]))
    {
      forall o | o in h && o in s.heap
        ensures h[o].kind == s.heap[o].kind
        ensures !IsOpen(s.heap[o]) ==> h[o].fields == s.heap[o].fields && !IsOpen(h[o])
      {
        assert Agrees(s.heap, h, o);
      }
    }

    lemma UpvalueIsReady(s: Program, closure: Ref, i: nat, v: Option<Ref>)
      requires Valid() && Mirrors(s) && Possible(s, AssignUpval(closure, i, v))
      ensures Ready(AssignUpval(closure, i, v))
    {
      hide Usable, Follows, MarkOk, SweptWhite, ListsOk;
      CanUse(s);
      SamePlain(s.heap, h, closure);
      var u := s.heap[closure].fields[i].value;
      assert IsChild(h, closure, u);
      UpvalueHasValue(s.heap, h, u);
    }

    /** Every run of a program, from any valid state, interleaved with the collector in any way: it goes as it would go
        without the collector.  The roots are the same, and whatever the program can reach is there and has the same
        contents. */
    method Run(events: seq<Event>) returns (ghost choices: seq<Ref>)
      requires Valid() && Disciplined(Running(), events)
      modifies this
      ensures Valid()
      ensures |choices| == |events| && Chosen(old(Running()), events, choices)
      ensures var s := After(old(Running()), events, choices);
              && mainthread == s.mainthread && registry == s.registry && mt == s.mt && running == s.running
              && forall o :: Reachable(s.heap, RootsOf(s), o) ==>
                   o in h && o in s.heap && h[o].kind == s.heap[o].kind && Contents(h, o) == Contents(s.heap, o)
    {
      hide Valid, Ready, Disciplined, Possible, Choice, Chosen, Effect, RootsAfter, LiveAfter, Follows, Owned,
           OnePerSlot, Usable, Reachable, ReachKept, Roots, RootsOf, After, Next;
      ghost var s0 := Running();
      ghost var s := s0;
      MirrorsItself();
      choices := [];
      NoEvents(s0, events);
      var i := 0;
      while i < |events|
        invariant 0 <= i <= |events| && |choices| == i && Valid() && Mirrors(s)
        invariant Disciplined(s, events[i..]) && Chosen(s0, events[..i], choices)
        invariant s == After(s0, events[..i], choices)
      {
        ghost var e := events[i];
        FirstPossible(s, events, i);
        PossibleIsReady(s, e);
        BeforeEvent(s);
        ghost var h0 := h;
        label Before:
        ghost var p := Perform(events[i]);
        ValidSlots();
        NextFollows(s, h0, h, e, p);
        MirrorsNext@Before(s, e, p);
        OneMore(s0, events[..i], choices, e, p);
        assert events[..i+1] == events[..i] + [e];
        NextDisciplined(s, events, i, p);
        choices, s, i := choices + [p], Next(s, e, p), i + 1;
      }
      assert events[..i] == events;
      SameAfter(s);
    }

    lemma NoEvents(s: Program, events: seq<Event>)
      ensures events[..0] == [] && events[0..] == events && Chosen(s, [], []) && After(s, [], []) == s
    {
    }

    twostate lemma MirrorsNext(new s: Program, new e: Event, new p: Ref)
      requires old(Mirrors(s)) && RootsAfter(e) && LiveAfter(e) && Possible(s, e) && Follows(Next(s, e, p).heap, h)
      ensures Mirrors(Next(s, e, p))
    {
      hide Follows, Usable, Put, SetUpvalue, AfterBlock, Live;
    }

    lemma BeforeEvent(s: Program)
      requires Valid() && Mirrors(s)
      ensures Follows(s.heap, h) && Owned(h) && OnePerSlot(h) && UsableIn(s, h)
    {
      hide Valid, Owned, OnePerSlot, Usable, UsableIn;
      ValidSlots();
      CanUse(s);
    }

    lemma FirstPossible(s: Program, events: seq<Event>, i: nat)
      requires i < |events| && Disciplined(s, events[i..])
      ensures Possible(s, events[i])
    {
      hide Possible;
      assert events[i..][0] == events[i];
    }

    lemma NextDisciplined(s: Program, events: seq<Event>, i: nat, p: Ref)
      requires i < |events| && Disciplined(s, events[i..]) && Possible(s, events[i]) && Choice(s, events[i], p)
      ensures Disciplined(Next(s, events[i], p), events[i+1..])
    {
      hide Possible, Choice, Next;
      assert events[i..][0] == events[i] && events[i..][1..] == events[i+1..];
    }

    lemma SameAfter(s: Program)
      requires Valid() && Mirrors(s)
      ensures forall o :: Reachable(s.heap, RootsOf(s), o) ==>
                o in h && o in s.heap && h[o].kind == s.heap[o].kind && Contents(h, o) == Contents(s.heap, o)
    {
      hide MarkOk, SweptWhite, ListsOk, Follows, Owned, Reachable, Contents;
      ValidOwned();
      assert RootsOf(s) == Roots();
      var s' := s.(made := {});
      assert RootsOf(s') + s'.made == RootsOf(s);
      forall o | Reachable(s.heap, RootsOf(s), o)
        ensures o in h && o in s.heap && h[o].kind == s.heap[o].kind && Contents(h, o) == Contents(s.heap, o)
      {
        UsableIsLive(s', h, m, currentwhite, o);
        SameContents(s.heap, h, o);
      }
    }
  }
}
