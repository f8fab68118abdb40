/** The heap that the collector works on (lgc.c, lgc.h), reachability, and the tri-colour invariant. */
module CollectorSpec {
  import opened Wrappers

  type Ref = nat

  /** The colour in the mark bits of an object; there are two whites. */
  datatype Color = White(which: bool) | Gray | Black

  datatype Kind = StringObj | UserdataObj | UpvalObj | FunctionObj | TableObj | ThreadObj | ProtoObj

  /** An object without its mark.  `fields` are its collectable values: the slots of a table, the upvalues of a
      closure, its environment, and so on; the first field of a thread is its global table, the others are its
      stack.  An open upvalue has an `owner`, the thread in whose stack its value lives, at `level`; a thread has
      the list `open` of its open upvalues. */
  datatype Object = Object(kind: Kind, fixed: bool, fields: seq<Option<Ref>>, owner: Option<Ref>, level: nat,
                           open: seq<Ref>)

  type Heap = map<Ref, Object>
  type Marks = map<Ref, Color>

  predicate IsOpen(x: Object) {
    x.kind == UpvalObj && x.owner.Some?
  }

  /** The value of an open upvalue. */
  function StackValue(h: Heap, x: Object): Option<Ref> {
    if x.owner.Some? && x.owner.value in h && x.level < |h[x.owner.value].fields| then h[x.owner.value].fields[x.level]
    else None
  }

  predicate IsChild(h: Heap, o: Ref, c: Ref) {
    o in h && if IsOpen(h[o]) then StackValue(h, h[o]) == Some(c) else Some(c) in h[o].fields
  }

  // ----- reachability -----

  ghost predicate IsPath(h: Heap, p: seq<Ref>) {
    p != [] && forall i {:trigger p[i]} :: 0 < i < |p| ==> IsChild(h, p[i-1], p[i])
  }

  ghost predicate Reachable(h: Heap, roots: set<Ref>, o: Ref) {
    exists p :: IsPath(h, p) && p[0] in roots && p[|p|-1] == o
  }

  ghost predicate Closed(h: Heap, s: iset<Ref>) {
    forall o, c :: o in s && IsChild(h, o, c) ==> c in s
  }

  /** A closed set that holds the roots holds everything reachable. */
  lemma {:induction false} PathStays(h: Heap, s: iset<Ref>, p: seq<Ref>)
    requires Closed(h, s) && IsPath(h, p) && p[0] in s
    ensures p[|p|-1] in s
    decreases |p|
  {
    var n := |p| - 1;
    if n > 0 {
      assert p[n] == p[n];
      assert p[..n][0] == p[0];
      PathStays(h, s, p[..n]);
    }
  }

  lemma ReachableStays(h: Heap, roots: set<Ref>, s: iset<Ref>, o: Ref)
    requires Closed(h, s) && (forall r :: r in roots ==> r in s) && Reachable(h, roots, o)
    ensures o in s
  {
    var p :| IsPath(h, p) && p[0] in roots && p[|p|-1] == o;
    PathStays(h, s, p);
  }

  lemma ReachableClosed(h: Heap, roots: set<Ref>)
    ensures Closed(h, (iset o | Reachable(h, roots, o)))
    ensures forall r :: r in roots ==> Reachable(h, roots, r)
  {
    forall o, c | Reachable(h, roots, o) && IsChild(h, o, c)
      ensures Reachable(h, roots, c)
    {
      var p :| IsPath(h, p) && p[0] in roots && p[|p|-1] == o;
      var q := p + [c];
      forall i | 0 < i < |q| ensures IsChild(h, q[i-1], q[i]) { if i < |p| { assert q[i] == p[i]; } }
      assert q[0] == p[0] && q[|q|-1] == c;
    }
    forall r | r in roots
      ensures Reachable(h, roots, r)
    {
      assert IsPath(h, [r]);
    }
  }

  // ----- colours -----

  /** isdead, for the current white `cw` */
  predicate Dead(m: Marks, cw: bool, o: Ref) {
    o in m && m[o] == White(!cw)
  }

  predicate Live(m: Marks, cw: bool, o: Ref) {
    o in m && m[o] != White(!cw)
  }

  predicate IsWhite(m: Marks, o: Ref) {
    o in m && m[o].White?
  }

  predicate NonWhite(m: Marks, o: Ref) {
    o in m && !m[o].White?
  }

  /** Live objects refer to live objects only. */
  ghost predicate LiveClosed(h: Heap, m: Marks, cw: bool) {
    forall o, c {:trigger IsChild(h, o, c)} :: Live(m, cw, o) && IsChild(h, o, c) ==> Live(m, cw, c)
  }

  lemma LiveReachable(h: Heap, m: Marks, cw: bool, roots: set<Ref>, o: Ref)
    requires LiveClosed(h, m, cw) && (forall r :: r in roots ==> Live(m, cw, r)) && Reachable(h, roots, o)
    ensures Live(m, cw, o)
  {
    ReachableStays(h, roots, (iset x | Live(m, cw, x)), o);
  }

  /** When the white is flipped, the white objects are dead. */
  lemma FlipWhite(h: Heap, m: Marks, cw: bool)
    requires forall o, c {:trigger IsChild(h, o, c)} :: NonWhite(m, o) && IsChild(h, o, c) ==> NonWhite(m, c)
    requires forall o :: o in m ==> m[o] != White(!cw)
    ensures LiveClosed(h, m, !cw) && forall o :: Live(m, !cw, o) <==> NonWhite(m, o)
  {
  }

  // ----- the mark phase -----

  /** No black object refers to a white one, apart from those that are being traversed. */
  ghost predicate Tri(h: Heap, m: Marks, busy: set<Ref>) {
    forall o, c {:trigger IsChild(h, o, c)} ::
      o in m && m[o] == Black && o !in busy && IsChild(h, o, c) ==> NonWhite(m, c)
  }

  /** A gray object that needs no traversal. */
  predicate Silent(h: Heap, o: Ref) {
    o in h && (h[o].kind == StringObj || IsOpen(h[o]))
  }

  /** Gray objects wait in a list. */
  ghost predicate GraysListed(h: Heap, m: Marks, list: seq<Ref>, again: seq<Ref>, busy: set<Ref>) {
    forall o {:trigger m[o]} :: o in m && m[o] == Gray && o !in busy ==> Silent(h, o) || o in list || o in again
  }

  predicate Traversable(h: Heap, o: Ref) {
    o in h && h[o].kind in {FunctionObj, TableObj, ThreadObj, ProtoObj}
  }

  ghost predicate ListGray(h: Heap, m: Marks, list: seq<Ref>) {
    forall o {:trigger o in list} :: o in list ==> Traversable(h, o) && o in m && m[o] == Gray
  }

  ghost predicate NoDup(list: seq<Ref>) {
    forall i, j :: 0 <= i < j < |list| ==> list[i] != list[j]
  }

  ghost predicate Apart(a: seq<Ref>, b: seq<Ref>) {
    forall o :: o in a ==> o !in b
  }

  /** What changes without a barrier is not black: threads, and open upvalues, whose values live in stacks. */
  ghost predicate NeverBlack(h: Heap, m: Marks) {
    forall o {:trigger m[o]} :: o in m && m[o] == Black ==> o in h && h[o].kind != ThreadObj && !IsOpen(h[o])
  }

  ghost predicate StringsOk(h: Heap) {
    forall o {:trigger h[o]} :: o in h && h[o].kind == StringObj ==> h[o].fields == []
  }

  /** The state between two steps of marking. */
  ghost predicate MarkOk(h: Heap, m: Marks, cw: bool, list: seq<Ref>, again: seq<Ref>, busy: set<Ref>) {
    && m.Keys == h.Keys && StringsOk(h)
    && (forall o {:trigger m[o]} :: o in m ==> m[o] != White(!cw))
    && (forall o, c {:trigger IsChild(h, o, c)} :: IsChild(h, o, c) ==> c in m)
    && Tri(h, m, busy) && GraysListed(h, m, list, again, busy) && NeverBlack(h, m)
    && ListGray(h, m, list) && ListGray(h, m, again) && NoDup(list) && NoDup(again) && Apart(list, again)
    && forall o :: o in busy ==> NonWhite(m, o)
  }

  /** A white object becomes gray; it is busy until it is listed or its fields are marked. */
  lemma StartMarking(h: Heap, m: Marks, cw: bool, list: seq<Ref>, again: seq<Ref>, busy: set<Ref>, e: set<Ref>,
                     e2: set<Ref>, o: Ref)
    requires MarkOk(h, m, cw, list, again, busy) && IsWhite(m, o)
    requires e + {o} <= e2
    ensures MarkOk(h, m[o := Gray], cw, list, again, busy + {o}) && o !in list && o !in again && o !in busy
    ensures UpvalsMarked(h, m, e) ==> UpvalsMarked(h, m[o := Gray], e2)
  {
  }

  lemma Blacken(h: Heap, m: Marks, cw: bool, list: seq<Ref>, again: seq<Ref>, busy: set<Ref>, e: set<Ref>, o: Ref)
    requires MarkOk(h, m, cw, list, again, busy) && o in busy && o !in list && o !in again
    requires o in h && h[o].kind != ThreadObj && !IsOpen(h[o])
    ensures MarkOk(h, m[o := Black], cw, list, again, busy)
    ensures UpvalsMarked(h, m, e) ==> UpvalsMarked(h, m[o := Black], e)
  {
  }

  /** All children of a busy object are marked: it is busy no more. */
  lemma FieldsMarked(h: Heap, m: Marks, cw: bool, list: seq<Ref>, again: seq<Ref>, busy: set<Ref>, e: set<Ref>,
                     e2: set<Ref>, o: Ref)
    requires MarkOk(h, m, cw, list, again, busy) && o in m && (m[o] == Black || Silent(h, o) || o in list || o in again)
    requires forall c :: IsChild(h, o, c) ==> NonWhite(m, c)
    requires e <= e2 + {o}
    ensures MarkOk(h, m, cw, list, again, busy - {o})
    ensures UpvalsMarked(h, m, e) ==> UpvalsMarked(h, m, e2)
  {
  }

  lemma PushGray(h: Heap, m: Marks, cw: bool, list: seq<Ref>, again: seq<Ref>, busy: set<Ref>, e: set<Ref>,
                 e2: set<Ref>, o: Ref)
    requires MarkOk(h, m, cw, list, again, busy) && o in m && m[o] == Gray && Traversable(h, o) && o !in list
    requires o !in again
    requires e <= e2 + {o}
    ensures MarkOk(h, m, cw, [o] + list, again, busy - {o})
    ensures UpvalsMarked(h, m, e) ==> UpvalsMarked(h, m, e2)
  {
    var l := [o] + list;
    forall i, j | 0 <= i < j < |l| ensures l[i] != l[j] { if i == 0 { assert l[j] in list; } }
    assert forall x :: x in list ==> x in l;
  }

  /** Gray open upvalues whose value is marked too. */
  ghost predicate UpvalsMarked(h: Heap, m: Marks, busy: set<Ref>) {
    forall o, c {:trigger IsChild(h, o, c)} ::
      o in m && m[o] == Gray && o in h && IsOpen(h[o]) && o !in busy && IsChild(h, o, c) ==> NonWhite(m, c)
  }

  ghost predicate AgainMarked(h: Heap, m: Marks, again: seq<Ref>) {
    forall o, c {:trigger IsChild(h, o, c)} :: o in again && IsChild(h, o, c) ==> NonWhite(m, c)
  }

  /** Only white objects of s have changed colour. */
  ghost predicate Darker(m: Marks, m': Marks, s: iset<Ref>) {
    && m'.Keys == m.Keys
    && forall o {:trigger m[o]} {:trigger m'[o]} :: o in m ==>
         m'[o] == m[o] || (m[o].White? && !m'[o].White? && o in s)
  }

  function Elems(list: seq<Ref>): set<Ref> {
    set o | o in list
  }

  function Whites(m: Marks): set<Ref> {
    set o | o in m && m[o].White?
  }

  lemma DarkerWhites(m: Marks, m': Marks, s: iset<Ref>)
    requires Darker(m, m', s)
    ensures Whites(m') <= Whites(m)
  {
  }

  /** Marking object o first, then others. */
  lemma DarkerFrom(m0: Marks, o: Ref, c: Color, m1: Marks, c': Color, s: iset<Ref>)
    requires IsWhite(m0, o) && o in s && !c.White? && Darker(m0[o := c], m1, s) && (c' == c || c' == Black)
    ensures Darker(m0, m1[o := c'], s) && NonWhite(m1, o) && Whites(m1[o := c']) < Whites(m0)
    ensures c' == c ==> m1[o := c'] == m1
    ensures Whites(m0[o := c]) < Whites(m0)
  {
    assert o in Whites(m0) && o !in Whites(m1);
    assert m1[o] == c;
  }

  lemma PopGray(h: Heap, m: Marks, cw: bool, list: seq<Ref>, again: seq<Ref>, busy: set<Ref>, e: set<Ref>, e2: set<Ref>)
    requires MarkOk(h, m, cw, list, again, busy) && list != []
    requires e <= e2
    ensures MarkOk(h, m, cw, list[1..], again, busy + {list[0]})
    ensures list[0] !in list[1..] && list[0] !in again && m[list[0]] == Gray && Traversable(h, list[0])
    ensures UpvalsMarked(h, m, e) ==> UpvalsMarked(h, m, e2)
  {
    assert list == [list[0]] + list[1..];
    assert list[0] in list;
    forall o | o in list[1..] ensures o in list { }
  }

  lemma PushAgain(h: Heap, m: Marks, cw: bool, list: seq<Ref>, again: seq<Ref>, busy: set<Ref>, o: Ref)
    requires MarkOk(h, m, cw, list, again, busy) && o in m && m[o] == Gray && Traversable(h, o) && o !in list
    requires o !in again
    ensures MarkOk(h, m, cw, list, [o] + again, busy)
  {
    var l := [o] + again;
    forall i, j | 0 <= i < j < |l| ensures l[i] != l[j] { if i == 0 { assert l[j] in again; } }
    assert forall x :: x in again ==> x in l;
    assert o in l;
  }

  /** White objects of s became gray or black, gray objects black. */
  ghost predicate Shaded(m: Marks, m': Marks, s: iset<Ref>) {
    && m'.Keys == m.Keys
    && forall o {:trigger m[o]} {:trigger m'[o]} :: o in m ==>
         m'[o] == m[o] || (m[o].White? && !m'[o].White? && o in s) || (m[o] == Gray && m'[o] == Black)
  }

  ghost predicate Within(m: Marks, s: iset<Ref>) {
    forall o {:trigger m[o]} :: o in m && !m[o].White? ==> o in s
  }

  lemma DarkerWithin(m: Marks, m': Marks, s: iset<Ref>)
    requires Darker(m, m', s)
    ensures m'.Keys == m.Keys && (Within(m, s) ==> Within(m', s))
    ensures forall o :: NonWhite(m, o) ==> NonWhite(m', o)
  {
  }

  lemma AllWhiteWithin(m: Marks, cw: bool, s: iset<Ref>)
    requires AllWhite(m, cw)
    ensures Within(m, s)
  {
  }

  lemma ShadedWithin(m: Marks, m': Marks, s: iset<Ref>)
    requires Shaded(m, m', s) && Within(m, s)
    ensures Within(m', s) && Whites(m') <= Whites(m)
  {
  }

  // ----- the lists that hold all objects -----

  ghost predicate InBuckets(strt: seq<seq<Ref>>, lo: int, o: Ref) {
    exists i :: 0 <= i < |strt| && lo <= i && o in strt[i]
  }

  /** The open upvalues of a thread: one for each level, from the top of the stack down. */
  ghost predicate OpenOk(h: Heap, t: Ref) {
    && t in h && NoDup(h[t].open)
    && (h[t].kind != ThreadObj ==> h[t].open == [])
    && (forall x {:trigger x in h[t].open} :: x in h[t].open ==>
          x in h && IsOpen(h[x]) && h[x].owner == Some(t) && h[x].level < |h[t].fields|)
    && Falling(h, h[t].open)
  }

  ghost predicate Above(h: Heap, a: Ref, b: Ref) {
    a in h && b in h && h[a].level > h[b].level
  }

  ghost predicate Falling(h: Heap, list: seq<Ref>) {
    forall i, j :: 0 <= i < j < |list| ==> Above(h, list[i], list[j])
  }

  /** Where the object is kept: a string in a bucket, an open upvalue in the list of its thread, every other
      object in rootgc. */
  ghost predicate KeptAt(h: Heap, rootgc: seq<Ref>, strt: seq<seq<Ref>>, uvhead: seq<Ref>, o: Ref) {
    && o in h
    && (h[o].kind == StringObj ==> InBuckets(strt, 0, o) && h[o].fields == [])
    && (IsOpen(h[o]) ==> h[o].owner.value in h && o in h[h[o].owner.value].open && o in uvhead)
    && (h[o].kind != StringObj && !IsOpen(h[o]) ==> o in rootgc)
  }

  ghost predicate ListsOk(h: Heap, rootgc: seq<Ref>, strt: seq<seq<Ref>>, uvhead: seq<Ref>) {
    && NoDup(rootgc) && NoDup(uvhead)
    && (forall o {:trigger o in rootgc} :: o in rootgc ==> o in h && h[o].kind != StringObj && !IsOpen(h[o]))
    && (forall o {:trigger o in uvhead} :: o in uvhead ==> o in h && IsOpen(h[o]))
    && (forall i {:trigger strt[i]} :: 0 <= i < |strt| ==> NoDup(strt[i]))
    && (forall i, o {:trigger o in strt[i]} :: 0 <= i < |strt| && o in strt[i] ==> o in h && h[o].kind == StringObj)
    && (forall i, j, o {:trigger o in strt[i], o in strt[j]} ::
          0 <= i < |strt| && 0 <= j < |strt| && o in strt[i] && o in strt[j] ==> i == j)
    && (forall o {:trigger KeptAt(h, rootgc, strt, uvhead, o)} {:trigger h[o]} ::
          o in h ==> KeptAt(h, rootgc, strt, uvhead, o))
    && (forall t {:trigger OpenOk(h, t)} {:trigger h[t]} :: t in h ==> OpenOk(h, t))
  }

  /** Only strings, and the main thread, are fixed. */
  ghost predicate FixedOk(h: Heap, mainthread: Ref) {
    forall o {:trigger h[o]} :: o in h && h[o].fixed ==> h[o].kind == StringObj || o == mainthread
  }

  /** The sweep has not passed the object yet. */
  ghost predicate Unswept(h: Heap, rootgc: seq<Ref>, strt: seq<seq<Ref>>, sweepstrgc: nat, sweepgc: nat, o: Ref)
    requires sweepgc <= |rootgc|
  {
    o in h &&
    if h[o].kind == StringObj then InBuckets(strt, sweepstrgc, o)
    else if IsOpen(h[o]) then h[o].owner.value in rootgc[sweepgc..]
    else o in rootgc[sweepgc..]
  }

  /** Whatever the sweep has passed has the current white. */
  ghost predicate SweptWhite(h: Heap, m: Marks, cw: bool, rootgc: seq<Ref>, strt: seq<seq<Ref>>, sweepstrgc: nat,
                             sweepgc: nat)
    requires sweepgc <= |rootgc|
  {
    forall o {:trigger m[o]} :: o in m && m[o] != White(cw) ==> Unswept(h, rootgc, strt, sweepstrgc, sweepgc, o)
  }

  ghost predicate AllWhite(m: Marks, cw: bool) {
    forall o {:trigger m[o]} :: o in m ==> m[o] == White(cw)
  }

  /** From (h, m) to (h', m') objects were freed or turned white: no live object was lost or changed, and only fixed
      objects became live. */
  ghost predicate Kept(h: Heap, m: Marks, h': Heap, m': Marks, cw: bool) {
    && m'.Keys == h'.Keys
    && (forall o {:trigger Live(m, cw, o)} {:trigger Live(m', cw, o)} :: Live(m, cw, o) ==> Live(m', cw, o))
    && (forall o, c {:trigger IsChild(h, o, c)} {:trigger IsChild(h', o, c)} ::
          Live(m, cw, o) ==> (IsChild(h', o, c) <==> IsChild(h, o, c)))
    && (forall o {:trigger h'[o]} :: o in h' ==> o in h && h'[o].kind == h[o].kind && h'[o].fixed == h[o].fixed)
    && (forall o {:trigger Live(m', cw, o)} :: Live(m', cw, o) ==> Live(m, cw, o) || h'[o].fixed)
  }

  lemma KeptTrans(h0: Heap, m0: Marks, h1: Heap, m1: Marks, h2: Heap, m2: Marks, cw: bool)
    requires Kept(h0, m0, h1, m1, cw) && Kept(h1, m1, h2, m2, cw)
    ensures Kept(h0, m0, h2, m2, cw)
  {
  }

  lemma KeptSame(h: Heap, m: Marks, cw: bool)
    requires m.Keys == h.Keys
    ensures Kept(h, m, h, m, cw)
  {
  }

  /** sweeplist turns an object white. */
  lemma Whiten(h: Heap, m: Marks, cw: bool, o: Ref)
    requires m.Keys == h.Keys && LiveClosed(h, m, cw) && o in h
    requires Live(m, cw, o) || (h[o].fixed && h[o].kind == StringObj && h[o].fields == [])
    ensures LiveClosed(h, m[o := White(cw)], cw) && Kept(h, m, h, m[o := White(cw)], cw)
  {
  }

  /** What can be reached stays in the heap. */
  lemma ReachableKept(h: Heap, m: Marks, h': Heap, m': Marks, cw: bool, roots: set<Ref>, o: Ref)
    requires Kept(h, m, h', m', cw) && LiveClosed(h, m, cw) && (forall r :: r in roots ==> Live(m, cw, r))
    requires Reachable(h, roots, o)
    ensures o in h' && forall c :: IsChild(h', o, c) <==> IsChild(h, o, c)
  {
    LiveReachable(h, m, cw, roots, o);
  }

  /** The part of the invariant of the collector that every phase shares. */
  ghost predicate SharedOf(h: Heap, m: Marks, cw: bool, rootgc: seq<Ref>, strt: seq<seq<Ref>>, uvhead: seq<Ref>,
                           mainthread: Ref, roots: set<Ref>) {
    && m.Keys == h.Keys && ListsOk(h, rootgc, strt, uvhead) && FixedOk(h, mainthread)
    && LiveClosed(h, m, cw) && (forall r :: r in roots ==> Live(m, cw, r)) && NeverBlack(h, m)
    && mainthread in roots && mainthread in h && h[mainthread].kind == ThreadObj && |strt| > 0
  }

  /** Steps that keep the live objects keep what does not concern lists. */
  lemma KeptShared(h: Heap, m: Marks, h': Heap, m': Marks, cw: bool, mainthread: Ref, roots: set<Ref>)
    requires Kept(h, m, h', m', cw) && FixedOk(h, mainthread) && (forall r :: r in roots ==> Live(m, cw, r))
    requires mainthread in roots
    requires mainthread in h && h[mainthread].kind == ThreadObj
    ensures FixedOk(h', mainthread) && (forall r :: r in roots ==> Live(m', cw, r))
    ensures mainthread in h' && h'[mainthread].kind == ThreadObj
  {
  }

  predicate Anything(o: Ref) {
    true
  }

  ghost function AllRefs(): iset<Ref> {
    iset o: Ref | Anything(o)
  }

  lemma AllClosed(h: Heap, m: Marks)
    ensures Closed(h, AllRefs()) && Within(m, AllRefs()) && forall o: Ref :: o in AllRefs()
  {
    assert forall o: Ref :: Anything(o);
  }

  /** In the mark phase nothing is dead, so marking keeps every object live. */
  lemma MarkingLive(h: Heap, m: Marks, m': Marks, cw: bool, list: seq<Ref>, again: seq<Ref>, busy: set<Ref>,
                    list': seq<Ref>, again': seq<Ref>, busy': set<Ref>)
    requires MarkOk(h, m, cw, list, again, busy) && MarkOk(h, m', cw, list', again', busy') && m'.Keys == m.Keys
    ensures (forall o :: Live(m, cw, o) <==> Live(m', cw, o)) && Kept(h, m, h, m', cw) && NeverBlack(h, m')
  {
  }

  /** At the start of a sweep nothing has been passed. */
  lemma NothingSwept(h: Heap, m: Marks, cw: bool, rootgc: seq<Ref>, strt: seq<seq<Ref>>, uvhead: seq<Ref>)
    requires ListsOk(h, rootgc, strt, uvhead) && m.Keys == h.Keys
    ensures SweptWhite(h, m, cw, rootgc, strt, 0, 0)
  {
    assert rootgc[0..] == rootgc;
    forall o | o in m && m[o] != White(cw)
      ensures Unswept(h, rootgc, strt, 0, 0, o)
    {
      assert KeptAt(h, rootgc, strt, uvhead, o);
      if IsOpen(h[o]) {
        assert OpenOk(h, h[o].owner.value) && KeptAt(h, rootgc, strt, uvhead, h[o].owner.value);
      }
    }
  }

  lemma NothingUnswept(h: Heap, rootgc: seq<Ref>, strt: seq<seq<Ref>>, o: Ref)
    ensures !Unswept(h, rootgc, strt, |strt|, |rootgc|, o)
  {
    assert rootgc[|rootgc|..] == [];
  }

  /** At its end everything has the current white. */
  lemma EverythingSwept(h: Heap, m: Marks, cw: bool, rootgc: seq<Ref>, strt: seq<seq<Ref>>)
    requires SweptWhite(h, m, cw, rootgc, strt, |strt|, |rootgc|)
    ensures AllWhite(m, cw)
  {
    forall o | o in m ensures m[o] == White(cw) { NothingUnswept(h, rootgc, strt, o); }
  }

  lemma StringsHaveNoFields(h: Heap, rootgc: seq<Ref>, strt: seq<seq<Ref>>, uvhead: seq<Ref>)
    requires ListsOk(h, rootgc, strt, uvhead)
    ensures StringsOk(h)
  {
    forall o | o in h && h[o].kind == StringObj ensures h[o].fields == [] { assert KeptAt(h, rootgc, strt, uvhead, o); }
  }

  /** What can be reached is there and has the same children. */
  ghost predicate ReachKept(h: Heap, h': Heap, roots: set<Ref>) {
    forall o: Ref {:trigger Reachable(h, roots, o)} :: Reachable(h, roots, o) ==>
      && (o in h ==> o in h')
      && forall c: Ref {:trigger IsChild(h', o, c)} {:trigger IsChild(h, o, c)} ::
           IsChild(h', o, c) <==> IsChild(h, o, c)
  }

  lemma SameReachable(h: Heap, h': Heap, roots: set<Ref>, o: Ref)
    requires ReachKept(h, h', roots)
    ensures Reachable(h', roots, o) <==> Reachable(h, roots, o)
  {
    hide Reachable;
    ReachableClosed(h, roots);
    var s := iset x | Reachable(h, roots, x) && Reachable(h', roots, x);
    var s' := iset x | Reachable(h, roots, x);
    ReachableClosed(h', roots);
    assert Closed(h', s') by {
      forall x, c | x in s' && IsChild(h', x, c) ensures c in s' { assert IsChild(h, x, c); }
    }
    assert Closed(h, s) by {
      forall x, c | x in s && IsChild(h, x, c) ensures c in s { assert IsChild(h', x, c); }
    }
    if Reachable(h', roots, o) { ReachableStays(h', roots, s', o); }
    if Reachable(h, roots, o) { ReachableStays(h, roots, s, o); }
  }

  lemma ReachKeptTrans(h0: Heap, h1: Heap, h2: Heap, roots: set<Ref>)
    requires ReachKept(h0, h1, roots) && ReachKept(h1, h2, roots)
    ensures ReachKept(h0, h2, roots)
  {
    forall o: Ref | Reachable(h0, roots, o)
      ensures (o in h0 ==> o in h2) && forall c: Ref :: IsChild(h2, o, c) <==> IsChild(h0, o, c)
    {
      SameReachable(h0, h1, roots, o);
    }
  }

  lemma KeptReach(h: Heap, m: Marks, h': Heap, m': Marks, cw: bool, roots: set<Ref>)
    requires Kept(h, m, h', m', cw) && LiveClosed(h, m, cw) && forall r :: r in roots ==> Live(m, cw, r)
    ensures ReachKept(h, h', roots)
  {
    forall o: Ref | Reachable(h, roots, o)
      ensures (o in h ==> o in h') && forall c: Ref :: IsChild(h', o, c) <==> IsChild(h, o, c)
    {
      ReachableKept(h, m, h', m', cw, roots, o);
    }
  }
}
