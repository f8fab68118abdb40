/** The table of all strings (lstring.c), and its sweep by the collector (sweeplist, lgc.c): one object per content. */
module Strings {
  import opened CollectorSpec
  import opened Limits
  import opened Wrappers

  type Bytes = seq<bv8>

  /** lmod(hash, size) */
  function Slot(hash: Bytes -> nat, s: Bytes, size: nat): (i: nat)
    requires size > 0
    ensures i < size
  {
    hash(s) % size
  }

  /** Exactly the strings of `done`, each in the list of its hash, and no list holds one twice. */
  ghost predicate Chained(hash: Bytes -> nat, content: map<Ref, Bytes>, table: seq<seq<Ref>>, done: set<Ref>) {
    && |table| > 0 && done <= content.Keys
    && (forall i {:trigger table[i]} :: 0 <= i < |table| ==> NoDup(table[i]))
    && (forall i, o {:trigger o in table[i]} ::
          0 <= i < |table| && o in table[i] ==> o in done && Slot(hash, content[o], |table|) == i)
    && forall o {:trigger o in done} :: o in done ==> o in table[Slot(hash, content[o], |table|)]
  }

  ghost predicate Unique(content: map<Ref, Bytes>) {
    forall o, p :: o in content && p in content && content[o] == content[p] ==> o == p
  }

  /** A string is put in front of its list. */
  function Push(table: seq<seq<Ref>>, i: nat, o: Ref): seq<seq<Ref>>
    requires i < |table|
  {
    table[i := [o] + table[i]]
  }

  lemma ChainedPush(hash: Bytes -> nat, content: map<Ref, Bytes>, table: seq<seq<Ref>>, done: set<Ref>, o: Ref)
    requires Chained(hash, content, table, done) && o in content && o !in done
    ensures Chained(hash, content, Push(table, Slot(hash, content[o], |table|), o), done + {o})
  {
    var i := Slot(hash, content[o], |table|);
    var t := Push(table, i, o);
    assert o !in table[i];
    forall a, b | 0 <= a < b < |t[i]| ensures t[i][a] != t[i][b] { if a == 0 { assert t[i][b] in table[i]; } }
    forall j, x | 0 <= j < |t| && x in t[j] ensures x in table[j] || (x == o && j == i) { }
    assert t[i][0] == o;
    forall x | x in done ensures x in t[Slot(hash, content[x], |t|)] {
      var j := Slot(hash, content[x], |table|);
      assert x in table[j];
      if j == i { assert t[i][1..] == table[i]; }
    }
  }

  /** A string that is not in the table does not matter for it. */
  lemma ChainedFrame(hash: Bytes -> nat, content: map<Ref, Bytes>, content': map<Ref, Bytes>, table: seq<seq<Ref>>,
                     done: set<Ref>)
    requires Chained(hash, content, table, done) && done <= content'.Keys
    requires forall o :: o in done ==> content'[o] == content[o]
    ensures Chained(hash, content', table, done)
  {
  }

  lemma ChainedRemove(hash: Bytes -> nat, content: map<Ref, Bytes>, table: seq<seq<Ref>>, i: nat, k: nat)
    requires Chained(hash, content, table, content.Keys) && i < |table| && k < |table[i]|
    ensures var o, t := table[i][k], table[i := table[i][..k] + table[i][k+1..]];
            o in content && Chained(hash, content - {o}, t, content.Keys - {o})
  {
    var o, t := table[i][k], table[i := table[i][..k] + table[i][k+1..]];
    assert o in table[i];
    forall x ensures x in t[i] <==> x in table[i] && x != o {
      if x in table[i] && x != o {
        var a :| 0 <= a < |table[i]| && table[i][a] == x;
        assert t[i][if a < k then a else a - 1] == x;
      }
    }
    forall a, b | 0 <= a < b < |t[i]| ensures t[i][a] != t[i][b] {
      assert t[i][a] == table[i][if a < k then a else a + 1] && t[i][b] == table[i][if b < k then b else b + 1];
    }
    forall j, x | 0 <= j < |t| && x in t[j] ensures x in table[j] && x != o { }
    forall x | x in content && x != o ensures x in t[Slot(hash, content[x], |t|)] {
      assert x in table[Slot(hash, content[x], |table|)];
    }
  }

  lemma ChainedNone(hash: Bytes -> nat, content: map<Ref, Bytes>, table: seq<seq<Ref>>)
    requires table != [] && forall i :: 0 <= i < |table| ==> table[i] == []
    ensures Chained(hash, content, table, {})
  {
  }

  lemma ChainedDone(hash: Bytes -> nat, content: map<Ref, Bytes>, table: seq<seq<Ref>>, done: set<Ref>)
    requires Chained(hash, content, table, done)
    ensures done <= content.Keys && |table| > 0
    ensures forall i, k :: 0 <= i < |table| && 0 <= k < |table[i]| ==> table[i][k] in done
    ensures forall i :: 0 <= i < |table| ==> NoDup(table[i])
  {
    forall i, k | 0 <= i < |table| && 0 <= k < |table[i]| ensures table[i][k] in done {
      assert table[i][k] in table[i];
    }
  }

  lemma UniqueAdd(content: map<Ref, Bytes>, o: Ref, s: Bytes)
    requires Unique(content) && o !in content && forall p :: p in content ==> content[p] != s
    ensures Unique(content[o := s]) && |content[o := s]| == |content| + 1
  {
  }

  lemma UniqueRemove(content: map<Ref, Bytes>, o: Ref)
    requires Unique(content) && o in content
    ensures Unique(content - {o}) && |content - {o}| == |content| - 1 && (content - {o}).Keys == content.Keys - {o}
  {
    assert content.Keys - {o} == (content - {o}).Keys;
  }

  /** Of the strings of `swept`, those that were dead are freed, the others are white. */
  ghost predicate Swept(c0: map<Ref, Bytes>, m0: map<Ref, Color>, c: map<Ref, Bytes>, m: map<Ref, Color>,
                        fixed: set<Ref>, cw: bool,
                        swept: seq<Ref>) {
    && c.Keys <= c0.Keys && m.Keys == c.Keys && m0.Keys == c0.Keys
    && (forall o {:trigger o in c} :: o in c0 ==> (o in c <==> !(o in swept && m0[o] == White(!cw) && o !in fixed)))
    && (forall o {:trigger c[o]} :: o in c ==> c[o] == c0[o])
    && forall o {:trigger m[o]} :: o in c ==> m[o] == if o in swept then White(cw) else m0[o]
  }

  lemma SweptMore(c0: map<Ref, Bytes>, m0: map<Ref, Color>, c: map<Ref, Bytes>, m: map<Ref, Color>, fixed: set<Ref>,
                  cw: bool,
                  list: seq<Ref>, n: nat, c': map<Ref, Bytes>, m': map<Ref, Color>)
    requires n < |list| && NoDup(list) && Swept(c0, m0, c, m, fixed, cw, list[..n]) && list[n] in c0
    requires var o := list[n];
             if m0[o] == White(!cw) && o !in fixed then c' == c - {o} && m' == m - {o}
             else c' == c && m' == m[o := White(cw)]
    ensures list[n] in c && m[list[n]] == m0[list[n]] && Swept(c0, m0, c', m', fixed, cw, list[..n+1])
  {
    var o := list[n];
    assert list[..n+1] == list[..n] + [o];
    assert o !in list[..n];
  }

  /** What the program and the collector do with strings. */
  datatype Event =
    | Request(s: Bytes)      // the program needs the string with this content
    | ResizeTable(size: nat)
    | FixString(o: Ref)
    | MarkString(o: Ref)
    | BeginSweep             // the end of the mark phase
    | SweepStep

  class StringTable {
    const hash: Bytes -> nat        // any hash function
    var table: seq<seq<Ref>>        // one list for each slot
    var content: map<Ref, Bytes>    // all strings that are allocated
    var marked: map<Ref, Color>
    var fixed: set<Ref>             // strings that are never collected
    var nuse: nat                   // how many strings there are
    var currentwhite: bool
    var sweeping: bool              // in the state GCSsweepstring
    var sweepstrgc: nat             // the next list to be swept

    ghost predicate Valid()
      reads this
    {
      && Chained(hash, content, table, content.Keys) && Unique(content) && nuse == |content|
      && marked.Keys == content.Keys
      && (sweeping ==> sweepstrgc < |table|)
    }

    /** isdead */
    predicate IsDead(o: Ref)
      reads this`marked, this`currentwhite
    {
      o in marked && marked[o] == White(!currentwhite)
    }

    /** A string that is not dead at first stays as it is. */
    twostate predicate LiveRemain()
      reads this`content, this`marked, this`currentwhite
    {
      forall o :: o in old(content) && !old(IsDead(o)) ==> o in content && content[o] == old(content)[o] && !IsDead(o)
    }

    /** luaS_fix */
    method Fix(o: Ref)
      requires Valid() && o in content
      modifies this`fixed
      ensures Valid() && fixed == old(fixed) + {o}
    {
      fixed := fixed + {o};
    }

    constructor (hash: Bytes -> nat, size: nat)
      requires size > 0
      ensures Valid() && content == map[] && |table| == size && this.hash == hash
    {
      this.hash := hash;
      table, content, marked, fixed := seq(size, _ => []), map[], map[], {};
      nuse, currentwhite, sweeping, sweepstrgc := 0, false, false, 0;
    }

    /** luaS_resize: the same strings, in a table of another size. */
    method Resize(newsize: nat)
      requires Valid() && newsize > 0
      modifies this`table
      ensures Valid() && |table| == if sweeping then |old(table)| else newsize
    {
      hide Chained, Unique, Slot;
      if sweeping { return; }  // the position of the sweep would be lost
      var newhash := seq(newsize, _ => []);
      ghost var done := {};
      ChainedNone(hash, content, newhash);
      ChainedDone(hash, content, table, content.Keys);
      var i := 0;
      while i < |table|
        invariant 0 <= i <= |table| && |newhash| == newsize && |table| > 0 && table == old(table) && Valid()
        invariant Chained(hash, content, newhash, done)
        invariant forall o :: o in content ==> (o in done <==> Slot(hash, content[o], |table|) < i)
      {
        newhash, done := MoveList(i, newhash, done);
        i := i + 1;
      }
      ChainedDone(hash, content, newhash, done);
      assert done == content.Keys;
      table := newhash;
    }

    /** The inner loop of luaS_resize, on list i. */
    method MoveList(i: nat, newhash: seq<seq<Ref>>, ghost done: set<Ref>) returns (newhash': seq<seq<Ref>>,
                    ghost done': set<Ref>)
      requires Valid() && i < |table| && Chained(hash, content, newhash, done)
      requires forall o :: o in content ==> (o in done <==> Slot(hash, content[o], |table|) < i)
      ensures |newhash'| == |newhash| && Chained(hash, content, newhash', done')
      ensures forall o :: o in content ==> (o in done' <==> Slot(hash, content[o], |table|) < i + 1)
    {
      newhash', done' := newhash, done;
      var k := 0;
      while k < |table[i]|
        invariant 0 <= k <= |table[i]| && |newhash'| == |newhash|
        invariant Chained(hash, content, newhash', done')
        invariant forall o :: o in content ==> (o in done' <==> o in done || o in table[i][..k])
      {
        var p := table[i][k];
        assert p in table[i];
        NotYet(i, k);
        ChainedPush(hash, content, newhash', done', p);
        newhash' := Push(newhash', Slot(hash, content[p], |newhash'|), p);
        done' := done' + {p};
        assert table[i][..k+1] == table[i][..k] + [p];
        k := k + 1;
      }
      assert table[i][..k] == table[i];
    }

    lemma NotYet(i: nat, k: nat)
      requires Valid() && i < |table| && k < |table[i]|
      ensures table[i][k] !in table[i][..k] && table[i][k] in content && Slot(hash, content[table[i][k]], |table|) == i
    {
      assert table[i][k] in table[i];
      assert NoDup(table[i]);
    }

    /** A new string is put in front of the list of its hash. */
    lemma Fresh(s: Bytes, o: Ref)
      requires Valid() && o !in content
      ensures |table| > 0 && |Push(table, Slot(hash, s, |table|), o)| == |table|
      ensures Chained(hash, content[o := s], Push(table, Slot(hash, s, |table|), o), content[o := s].Keys)
    {
      hide Chained, Unique, Slot;
      ChainedDone(hash, content, table, content.Keys);
      ChainedFrame(hash, content, content[o := s], table, content.Keys);
      ChainedPush(hash, content[o := s], table, content.Keys, o);
      assert content[o := s].Keys == content.Keys + {o};
    }

    /** newlstr: the object o is new. */
    method NewString(s: Bytes, o: Ref)
      requires Valid() && o !in content && forall p :: p in content ==> content[p] != s
      modifies this`table, this`content, this`marked, this`nuse
      ensures Valid() && content == old(content)[o := s] && marked == old(marked)[o := White(currentwhite)]
      ensures |table| == if nuse > |old(table)| && |old(table)| <= MAX_INT / 2 && !sweeping then 2 * |old(table)|
                         else |old(table)|
    {
      hide Chained, Unique, Slot, Push;
      Fresh(s, o);
      UniqueAdd(content, o, s);
      var i := Slot(hash, s, |table|);
      content, marked := content[o := s], marked[o := White(currentwhite)];
      table := Push(table, i, o);
      nuse := nuse + 1;
      if nuse > |table| && |table| <= MAX_INT / 2 {
        Resize(|table| * 2);
      }
    }

    /** The walk along the list of the hash. */
    method Search(s: Bytes) returns (found: Option<Ref>)
      requires Valid()
      ensures match found
        case Some(ts) => ts in content && content[ts] == s
        case None => forall p :: p in content ==> content[p] != s
    {
      hide Chained, Unique, Slot;
      ChainedDone(hash, content, table, content.Keys);
      var i := Slot(hash, s, |table|);
      var k := 0;
      while k < |table[i]|
        invariant 0 <= k <= |table[i]|
        invariant forall j :: 0 <= j < k ==> table[i][j] in content && content[table[i][j]] != s
      {
        var ts := table[i][k];
        assert ts in table[i];
        if content[ts] == s { return Some(ts); }
        k := k + 1;
      }
      NotFound(s, i);
      found := None;
    }

    /** Nothing dies when strings are added, or marked with the current white or gray. */
    twostate lemma NothingDied()
      requires currentwhite == old(currentwhite) && marked.Keys == content.Keys && old(marked.Keys) == old(content.Keys)
      requires forall o :: o in old(content) ==>
        o in content && content[o] == old(content)[o]
        && (marked[o] == old(marked)[o] || marked[o] != White(!currentwhite))
      ensures LiveRemain()
    {
    }

    /** luaS_newlstr: the string with this content, which is made only if there is none. */
    method Intern(s: Bytes, o: Ref) returns (ts: Ref)
      requires Valid() && o !in content
      modifies this`table, this`content, this`marked, this`nuse
      ensures Valid() && ts in content && content[ts] == s && !IsDead(ts)
      ensures (exists p :: p in old(content) && old(content)[p] == s) ==> content == old(content)
      ensures (forall p :: p in old(content) ==> old(content)[p] != s) ==> ts == o && content == old(content)[o := s]
      ensures forall p :: p in old(content) && p != ts ==> marked[p] == old(marked)[p]
      ensures LiveRemain() && content.Keys <= old(content).Keys + {o}
    {
      hide Chained, Unique, Slot, LiveRemain;
      var found := Search(s);
      if found.Some? {
        ts := found.value;
        if marked[ts] == White(!currentwhite) { marked := marked[ts := White(currentwhite)]; }
      } else {
        NewString(s, o);
        ts := o;
      }
      NothingDied();
    }

    lemma NotFound(s: Bytes, i: nat)
      requires Valid() && i == Slot(hash, s, |table|)
      requires forall j :: 0 <= j < |table[i]| ==> table[i][j] in content && content[table[i][j]] != s
      ensures forall p :: p in content ==> content[p] != s
    {
      forall p | p in content ensures content[p] != s {
        assert p in table[Slot(hash, content[p], |table|)];
      }
    }

    // ----- the collector -----

    /** A string is marked: strings stay gray. */
    method Mark(o: Ref)
      requires Valid() && o in content && !sweeping && marked[o] == White(currentwhite)
      modifies this`marked
      ensures Valid() && marked == old(marked)[o := Gray] && LiveRemain()
    {
      hide Chained, Unique, LiveRemain;
      marked := marked[o := Gray];
      NothingDied();
    }

    /** The end of the mark phase: the white flips, and the sweep of strings starts. */
    method StartSweep()
      requires Valid() && !sweeping
      modifies this`currentwhite, this`sweeping, this`sweepstrgc
      ensures Valid() && sweeping && currentwhite == !old(currentwhite) && sweepstrgc == 0
    {
      currentwhite, sweeping, sweepstrgc := !currentwhite, true, 0;
    }

    /** One round of sweeplist. */
    method SweepString(i: nat, k: nat) returns (k': nat)
      requires Valid() && sweeping && i < |table| && k < |table[i]|
      modifies this`table, this`content, this`marked, this`nuse
      ensures Valid() && |table| == |old(table)|
      ensures var o, dead := old(table)[i][k], old(IsDead(table[i][k])) && old(table)[i][k] !in fixed;
              && content == (if dead then old(content) - {o} else old(content))
              && marked == (if dead then old(marked) - {o} else old(marked)[o := White(currentwhite)])
              && k' == (if dead then k else k + 1)
              && table[i] == if dead then old(table)[i][..k] + old(table)[i][k+1..] else old(table)[i]
      ensures k' <= |table[i]| && table[i][k'..] == old(table)[i][k+1..] && |table[i]| - k' < |old(table)[i]| - k
    {
      hide Chained, Unique, Slot, NoDup;
      var curr := table[i][k];
      InContent(i, k);
      if marked[curr] != White(!currentwhite) || curr in fixed {
        marked := marked[curr := White(currentwhite)];
        k' := k + 1;
      } else {
        FreeString(i, k);
        k' := k;
      }
    }

    lemma InContent(i: nat, k: nat)
      requires Valid() && i < |table| && k < |table[i]|
      ensures table[i][k] in content
    {
      assert table[i][k] in table[i];
    }

    method FreeString(i: nat, k: nat)
      requires Valid() && i < |table| && k < |table[i]|
      modifies this`table, this`content, this`marked, this`nuse
      ensures Valid() && table == old(table)[i := old(table)[i][..k] + old(table)[i][k+1..]]
      ensures var o := old(table)[i][k]; content == old(content) - {o} && marked == old(marked) - {o}
    {
      hide Chained, Unique, Slot, NoDup;
      var curr := table[i][k];
      ChainedRemove(hash, content, table, i, k);
      UniqueRemove(content, curr);
      table := table[i := table[i][..k] + table[i][k+1..]];
      content, marked := content - {curr}, marked - {curr};
      nuse := nuse - 1;
    }

    /** A round, when n strings of the list l0 are swept. */
    method SweepNext(i: nat, k: nat, ghost c0: map<Ref, Bytes>, ghost m0: map<Ref, Color>, ghost l0: seq<Ref>,
                     ghost n: nat)
      returns (k': nat)
      requires Valid() && sweeping && i < |table| && k < |table[i]| && n <= |l0| && table[i][k..] == l0[n..]
      requires NoDup(l0) && forall j :: 0 <= j < |l0| ==> l0[j] in c0
      requires Swept(c0, m0, content, marked, fixed, currentwhite, l0[..n])
      modifies this`table, this`content, this`marked, this`nuse
      ensures Valid() && |table| == |old(table)| && k' <= |table[i]| && n < |l0| && table[i][k'..] == l0[n+1..]
      ensures Swept(c0, m0, content, marked, fixed, currentwhite, l0[..n+1])
      ensures |table[i]| - k' < |old(table)[i]| - k
    {
      hide Chained, Unique, Slot, Swept, NoDup;
      ghost var c1, m1 := content, marked;
      NextInList(table[i], k, l0, n);
      SameColor(c0, m0, l0, n);
      k' := SweepString(i, k);
      SweptMore(c0, m0, c1, m1, fixed, currentwhite, l0, n, content, marked);
    }

    /** singlestep in the state GCSsweepstring: one list is swept.  Of its strings exactly the dead ones are freed; the
        others stay, and have the current white. */
    method SweepList()
      requires Valid() && sweeping
      modifies this`table, this`content, this`marked, this`nuse, this`sweeping, this`sweepstrgc
      ensures Valid() && sweepstrgc == old(sweepstrgc) + 1 && |table| == |old(table)|
      ensures sweeping == (sweepstrgc < |table|)
      ensures Swept(old(content), old(marked), content, marked, fixed, currentwhite, old(table)[old(sweepstrgc)])
      ensures LiveRemain() && content.Keys <= old(content).Keys
    {
      hide Chained, Unique, Slot, Swept, LiveRemain, NoDup;
      ghost var c0, m0 := content, marked;
      var i, k := sweepstrgc, 0;
      ghost var l0, n := table[i], 0;
      ListFacts(i);
      SweptNone();
      assert l0[..0] == [] && l0[0..] == l0;
      while k < |table[i]|
        invariant Valid() && sweepstrgc == i && sweeping && |table| == |old(table)|
        invariant 0 <= k <= |table[i]| && 0 <= n <= |l0| && table[i][k..] == l0[n..]
        invariant Swept(c0, m0, content, marked, fixed, currentwhite, l0[..n])
        decreases |table[i]| - k
      {
        k := SweepNext(i, k, c0, m0, l0, n);
        n := n + 1;
      }
      assert l0[n..] == [] && l0[..n] == l0;
      LiveStay(l0);
      sweepstrgc := sweepstrgc + 1;
      if sweepstrgc >= |table| { sweeping := false; }
    }

    lemma ListFacts(i: nat)
      requires Valid() && i < |table|
      ensures NoDup(table[i]) && forall k :: 0 <= k < |table[i]| ==> table[i][k] in content
    {
      forall k | 0 <= k < |table[i]| ensures table[i][k] in content { assert table[i][k] in table[i]; }
    }

    lemma NextInList(a: seq<Ref>, k: nat, b: seq<Ref>, n: nat)
      requires k < |a| && n <= |b| && a[k..] == b[n..]
      ensures n < |b| && a[k] == b[n] && a[k+1..] == b[n+1..]
    {
      assert a[k..][0] == a[k] && b[n..][0] == b[n];
      assert a[k..][1..] == a[k+1..] && b[n..][1..] == b[n+1..];
    }

    lemma SweptNone()
      requires marked.Keys == content.Keys
      ensures Swept(content, marked, content, marked, fixed, currentwhite, [])
    {
    }

    lemma SameColor(c0: map<Ref, Bytes>, m0: map<Ref, Color>, list: seq<Ref>, n: nat)
      requires n < |list| && NoDup(list) && list[n] in c0
      requires Swept(c0, m0, content, marked, fixed, currentwhite, list[..n])
      ensures list[n] in marked && marked[list[n]] == m0[list[n]]
    {
      assert list[n] !in list[..n];
    }

    twostate lemma LiveStay(new list: seq<Ref>)
      requires Swept(old(content), old(marked), content, marked, fixed, currentwhite, list)
      requires currentwhite == old(currentwhite)
      ensures LiveRemain() && content.Keys <= old(content).Keys
    {
    }

    /** The rest of the sweep of strings. */
    method SweepRest()
      requires Valid() && sweeping
      modifies this`table, this`content, this`marked, this`nuse, this`sweeping, this`sweepstrgc
      ensures Valid() && !sweeping && LiveRemain()
    {
      hide Chained, Unique, Slot, Swept;
      while sweeping
        invariant Valid() && LiveRemain()
        decreases sweeping, |table| - sweepstrgc
      {
        SweepList();
      }
    }

    // ----- runs -----

    method Serve(s: Bytes, next: Ref) returns (ts: Option<Ref>)
      requires Valid() && forall p :: p in content ==> p < next
      modifies this`table, this`content, this`marked, this`nuse
      ensures Valid() && LiveRemain() && Served(Request(s), ts) && old(content.Keys) <= content.Keys
      ensures forall p :: p in content ==> p < next + 1
    {
      hide Chained, Unique, Slot, LiveRemain;
      var o := Intern(s, next);
      ts := Some(o);
    }

    /** One step of the program or of the collector; `next` is unused memory. */
    method Perform(e: Event, next: Ref) returns (ts: Option<Ref>)
      requires Valid() && forall p :: p in content ==> p < next
      modifies this
      ensures Valid() && forall p :: p in content ==> p < next + 1
      ensures (e != BeginSweep ==> LiveRemain()) && Served(e, ts) && Does(e)
    {
      hide Chained, Unique, Slot, Swept, LiveRemain, Served, IsDead;
      ts := None;
      SweepPosition();
      if e.Request? {
        ts := Serve(e.s, next);
        return;
      }
      NothingServed(e, ts);
      match e {
        case Request(_) =>
        case ResizeTable(size) => if size > 0 { Resize(size); }
        case FixString(o) => if o in content { Fix(o); }
        case MarkString(o) => if o in content && !sweeping && marked[o] == White(currentwhite) { Mark(o); }
        case BeginSweep => if !sweeping { StartSweep(); }
        case SweepStep => if sweeping { SweepList(); }
      }
      if SameStrings() && currentwhite == old(currentwhite) { NothingDied(); }
      NothingServed(e, ts);
    }

    lemma NothingServed(e: Event, ts: Option<Ref>)
      requires !e.Request?
      ensures Served(e, ts)
    {
    }

    lemma SweepPosition()
      requires Valid()
      ensures sweeping ==> sweepstrgc < |table|
    {
      hide Chained, Unique;
    }

    /** The strings and their marks are as before. */
    twostate predicate SameStrings()
      reads this
    {
      content == old(content) && marked == old(marked)
    }

    twostate predicate SamePhase()
      reads this
    {
      currentwhite == old(currentwhite) && sweeping == old(sweeping) && sweepstrgc == old(sweepstrgc)
    }

    /** What an event does. */
    twostate predicate Does(e: Event)
      reads this
      requires old(sweeping) ==> old(sweepstrgc) < |old(table)|
    {
      && fixed == (if e.FixString? && e.o in content then old(fixed) + {e.o} else old(fixed))
      && match e
         case Request(_) => old(content.Keys) <= content.Keys && SamePhase()
         case ResizeTable(size) =>
           SameStrings() && SamePhase() && |table| == if size == 0 || sweeping then |old(table)| else size
         case FixString(_) => SameStrings() && SamePhase()
         case MarkString(o) =>
           && content == old(content) && SamePhase()
           && marked == if o in old(marked) && !sweeping && old(marked)[o] == White(currentwhite)
                        then old(marked)[o := Gray] else old(marked)
         case BeginSweep =>
           && SameStrings() && sweeping
           && (if old(sweeping) then SamePhase() else currentwhite == !old(currentwhite) && sweepstrgc == 0)
         case SweepStep =>
           if old(sweeping) then
             && sweepstrgc == old(sweepstrgc) + 1 && sweeping == (sweepstrgc < |table|) && |table| == |old(table)|
             && currentwhite == old(currentwhite)
             && Swept(old(content), old(marked), content, marked, fixed, currentwhite, old(table)[old(sweepstrgc)])
           else SameStrings() && SamePhase()
    }

    /** The string that was asked for is there. */
    ghost predicate Served(e: Event, ts: Option<Ref>)
      reads this`content, this`marked, this`currentwhite
    {
      e.Request? ==> ts.Some? && ts.value in content && content[ts.value] == e.s && !IsDead(ts.value)
    }

    twostate lemma ServedStays(new e: Event, new ts: Option<Ref>)
      requires old(Served(e, ts)) && LiveRemain()
      ensures Served(e, ts)
    {
    }

    /** In any interleaving of the program with the collector there is one string for a content.  Until the white flips
        again, no string is freed that was not dead at first, and none that a request returned, whether it was new,
        alive or brought back to life. */
    method Run(events: seq<Event>, next: Ref) returns (got: seq<Option<Ref>>)
      requires Valid() && forall p :: p in content ==> p < next
      modifies this
      ensures Valid() && |got| == |events|
      ensures BeginSweep !in events ==> LiveRemain() && forall n :: 0 <= n < |events| ==> Served(events[n], got[n])
    {
      hide Chained, Unique, Slot, Served;
      got := [];
      for n := 0 to |events|
        invariant Valid() && |got| == n && forall p :: p in content ==> p < next + n
        invariant BeginSweep !in events ==> LiveRemain() && forall m :: 0 <= m < n ==> Served(events[m], got[m])
      {
        label L:
        var ts := Perform(events[n], next + n);
        if BeginSweep !in events {
          forall m | 0 <= m < n ensures Served(events[m], got[m]) { ServedStays@L(events[m], got[m]); }
        }
        got := got + [ts];
      }
    }
  }
}
