/** Jump lists of the code generator (lcode.c).

    A list of pending jumps is threaded through the offset fields of the JMP instructions
    themselves.  Here a list is the sequence of its members; `Threaded` says that the offsets of
    the code encode it. */
module JumpLists {
  import opened Limits
  import opened Machine

  function InstrAt(code: seq<Instr>, i: int): Instr {
    if 0 <= i < |code| then code[i] else Jmp(NO_JUMP)
  }

  function Put(code: seq<Instr>, i: int, x: Instr): (r: seq<Instr>)
    ensures |r| == |code|
  {
    if 0 <= i < |code| then code[i := x] else code
  }

  function Elems(s: seq<int>): set<int> {
    set j | j in s
  }

  function Head(s: seq<int>): int {
    if s == [] then NO_JUMP else s[0]
  }

  function Magnitude(x: int): int {
    if x < 0 then -x else x
  }

  /** fixjump complains when the offset does not fit its field. */
  predicate Far(j: int, dest: int) {
    Magnitude(dest - (j + 1)) > MAXARG_sBx
  }

  /** getjump: the jump that follows `pc` in its list. */
  function GetJump(code: seq<Instr>, pc: int): int
    requires 0 <= pc < |code| && code[pc].Jmp?
  {
    if code[pc].sbx == NO_JUMP then NO_JUMP else pc + 1 + code[pc].sbx
  }

  /** Is j controlled by a TESTSET, so that taking it also produces a value? */
  predicate IsValueJump(code: seq<Instr>, j: int) {
    1 <= j <= |code| && code[j-1].TestSet?
  }

  /** need_value: some jump of the list produces no value. */
  predicate NeedValue(code: seq<Instr>, s: seq<int>) {
    exists j | j in s :: !IsValueJump(code, j)
  }

  predicate HasValueJump(code: seq<Instr>, s: seq<int>) {
    exists j | j in s :: IsValueJump(code, j)
  }

  ghost predicate Jumps(code: seq<Instr>, s: seq<int>) {
    forall j {:trigger j in s} :: j in s ==> 0 <= j < |code| && code[j].Jmp?
  }

  ghost predicate Distinct(s: seq<int>) {
    forall i, j :: 0 <= i < j < |s| ==> s[i] != s[j]
  }

  ghost predicate Disjoint(s: seq<int>, t: seq<int>) {
    forall j :: j in s ==> j !in t
  }

  ghost predicate LinkAt(code: seq<Instr>, s: seq<int>, i: int)
    requires 0 <= i < |s|
  {
    && 0 <= s[i] < |code| && code[s[i]].Jmp?
    && GetJump(code, s[i]) == if i + 1 < |s| then s[i+1] else NO_JUMP
  }

  ghost predicate Threaded(code: seq<Instr>, s: seq<int>) {
    Distinct(s) && forall i {:trigger LinkAt(code, s, i)} :: 0 <= i < |s| ==> LinkAt(code, s, i)
  }

  lemma InRange(code: seq<Instr>, s: seq<int>, j: int)
    requires Threaded(code, s) && j in s
    ensures 0 <= j < |code| && code[j].Jmp?
  {
    var i :| 0 <= i < |s| && s[i] == j;
    assert LinkAt(code, s, i);
  }

  /** patchtestreg on a TESTSET. */
  function Retarget(i: Instr, reg: int): Instr
    requires i.TestSet?
  {
    if reg != NO_REG && reg != i.b then TestSet(reg, i.b, i.cond) else Test(i.b, i.cond)
  }

  function PatchedAt(code: seq<Instr>, s: seq<int>, vtarget: int, reg: int, dtarget: int, k: int): Instr
    requires 0 <= k < |code|
  {
    if k in s then Jmp((if IsValueJump(code, k) then vtarget else dtarget) - (k + 1))
    else if code[k].TestSet? && k + 1 in s then Retarget(code[k], reg)
    else code[k]
  }

  /** patchlistaux: jumps that produce a value go to vtarget and leave it in reg, the others go to
      dtarget. */
  function Patched(code: seq<Instr>, s: seq<int>, vtarget: int, reg: int, dtarget: int): (r: seq<Instr>)
    ensures |r| == |code|
    ensures forall k {:trigger r[k]} :: 0 <= k < |code| ==> r[k] == PatchedAt(code, s, vtarget, reg, dtarget, k)
  {
    seq(|code|, k requires 0 <= k < |code| => PatchedAt(code, s, vtarget, reg, dtarget, k))
  }

  /** Does patching the list so need an offset that does not fit? */
  predicate PatchedFar(code: seq<Instr>, s: seq<int>, vtarget: int, dtarget: int) {
    exists j | j in s :: Far(j, if IsValueJump(code, j) then vtarget else dtarget)
  }

  /** removevalues: no TESTSET in front of a member of s. */
  function ValuesRemoved(code: seq<Instr>, s: seq<int>): (r: seq<Instr>)
    ensures |r| == |code|
    ensures forall k {:trigger r[k]} :: 0 <= k < |code| ==>
              r[k] == if code[k].TestSet? && k + 1 in s then Retarget(code[k], NO_REG) else code[k]
  {
    seq(|code|, k requires 0 <= k < |code| =>
      if code[k].TestSet? && k + 1 in s then Retarget(code[k], NO_REG) else code[k])
  }

  /** luaK_concat: link the last jump of s to the first of t. */
  function Linked(code: seq<Instr>, s: seq<int>, t: seq<int>): (r: seq<Instr>)
    ensures |r| == |code|
  {
    if s == [] || t == [] then code
    else Put(code, s[|s|-1], Jmp(t[0] - (s[|s|-1] + 1)))
  }

  predicate LinkedFar(s: seq<int>, t: seq<int>) {
    s != [] && t != [] && Far(s[|s|-1], t[0])
  }

  /** The denotation of luaK_concat is the concatenation. */
  lemma LinkedThreaded(code: seq<Instr>, s: seq<int>, t: seq<int>)
    requires Threaded(code, s) && Threaded(code, t) && Disjoint(s, t)
    ensures Threaded(Linked(code, s, t), s + t)
  {
    var r, u := Linked(code, s, t), s + t;
    if s == [] {
      assert u == t;
    } else if t == [] {
      assert u == s;
    } else {
      var last := s[|s|-1];
      forall i | 0 <= i < |u|
        ensures LinkAt(r, u, i)
      {
        if i < |s| - 1 {
          assert u[i] == s[i] && s[i] != last;
          assert LinkAt(code, s, i);
        } else if i == |s| - 1 {
          assert LinkAt(code, s, i);
          assert t[0] in t && last in s;
        } else {
          var n := i - |s|;
          assert u[i] == t[n] && t[n] in t && last in s;
          assert LinkAt(code, t, n);
        }
      }
      forall i, j | 0 <= i < j < |u|
        ensures u[i] != u[j]
      {
        if i < |s| <= j { assert u[i] in s && u[j] in t; }
      }
    }
  }

  /** Linking two lists changes the offsets of jumps only. */
  lemma LinkedFrame(code: seq<Instr>, s: seq<int>, t: seq<int>)
    requires Threaded(code, s)
    ensures forall k {:trigger Linked(code, s, t)[k]} :: 0 <= k < |code| ==>
              if k in s then code[k].Jmp? && Linked(code, s, t)[k].Jmp? else Linked(code, s, t)[k] == code[k]
  {
    forall k | 0 <= k < |code|
      ensures if k in s then code[k].Jmp? && Linked(code, s, t)[k].Jmp? else Linked(code, s, t)[k] == code[k]
    {
      if k in s { InRange(code, s, k); }
      if s != [] { assert s[|s|-1] in s; }
    }
  }

  /** A list is read off the jumps of its own members only. */
  lemma ThreadedFrame(code: seq<Instr>, code': seq<Instr>, s: seq<int>)
    requires Threaded(code, s)
    requires forall j :: j in s ==> 0 <= j < |code| && j < |code'| && code'[j] == code[j]
    ensures Threaded(code', s)
  {
    forall i | 0 <= i < |s|
      ensures LinkAt(code', s, i)
    {
      assert s[i] in s && LinkAt(code, s, i);
    }
  }

  /** Two lists that start at the same place are both empty or share a member; so `t != f` tells
      whether an expression has jumps. */
  lemma SameHead(code: seq<Instr>, s: seq<int>, t: seq<int>)
    requires Threaded(code, s) && Threaded(code, t) && Disjoint(s, t)
    ensures Head(s) == Head(t) <==> s == [] && t == []
  {
    if s != [] { assert s[0] in s; InRange(code, s, s[0]); }
    if t != [] { assert t[0] in t; InRange(code, t, t[0]); }
  }

  /** One round of patchlistaux. */
  function PatchOne(code: seq<Instr>, j: int, vtarget: int, reg: int, dtarget: int): (r: seq<Instr>)
    ensures |r| == |code|
  {
    if IsValueJump(code, j) then Put(Put(code, j - 1, Retarget(code[j-1], reg)), j, Jmp(vtarget - (j + 1)))
    else Put(code, j, Jmp(dtarget - (j + 1)))
  }

  /** Patching one more member. */
  lemma PatchedStep(code: seq<Instr>, s: seq<int>, n: nat, vtarget: int, reg: int, dtarget: int)
    requires Distinct(s) && Jumps(code, s) && n < |s|
    ensures 0 <= s[n] < |code| && s[n] in s
    ensures var before := Patched(code, s[..n], vtarget, reg, dtarget);
            && before[s[n]] == code[s[n]]
            && IsValueJump(before, s[n]) == IsValueJump(code, s[n])
            && Patched(code, s[..n+1], vtarget, reg, dtarget) == PatchOne(before, s[n], vtarget, reg, dtarget)
  {
    var q, j := s[..n], s[n];
    var before := Patched(code, q, vtarget, reg, dtarget);
    assert j in s && j !in q;
    assert forall i :: i in s[..n+1] <==> i in q || i == j;
    assert forall i :: i in q ==> i in s;
    assert before[j] == code[j];
    assert j >= 1 ==> before[j-1].TestSet? == code[j-1].TestSet? && (code[j-1].TestSet? ==> before[j-1] == code[j-1]);
    var after := PatchOne(before, j, vtarget, reg, dtarget);
    forall k | 0 <= k < |code|
      ensures Patched(code, s[..n+1], vtarget, reg, dtarget)[k] == after[k]
    {
      assert before[k] == PatchedAt(code, q, vtarget, reg, dtarget, k);
    }
  }

  lemma PatchedNone(code: seq<Instr>, vtarget: int, reg: int, dtarget: int)
    ensures Patched(code, [], vtarget, reg, dtarget) == code
  {
    assert forall k :: 0 <= k < |code| ==> Patched(code, [], vtarget, reg, dtarget)[k] == code[k];
  }

  lemma PatchedFarStep(code: seq<Instr>, s: seq<int>, n: nat, vtarget: int, dtarget: int)
    requires n < |s|
    ensures PatchedFar(code, s[..n+1], vtarget, dtarget)
         == (|| PatchedFar(code, s[..n], vtarget, dtarget)
             || Far(s[n], if IsValueJump(code, s[n]) then vtarget else dtarget))
  {
    assert s[..n+1] == s[..n] + [s[n]];
    if PatchedFar(code, s[..n], vtarget, dtarget) {
      var j :| j in s[..n] && Far(j, if IsValueJump(code, j) then vtarget else dtarget);
      assert j in s[..n+1];
    }
    assert s[n] in s[..n+1];
  }

  lemma ThreadedJumps(code: seq<Instr>, s: seq<int>)
    requires Threaded(code, s)
    ensures Jumps(code, s)
  {
    forall j | j in s ensures 0 <= j < |code| && code[j].Jmp? { InRange(code, s, j); }
  }

  /** A walk along a list has reached its end when there is no next jump. */
  lemma SuffixHead(code: seq<Instr>, s: seq<int>, n: nat)
    requires Threaded(code, s) && n <= |s|
    ensures Head(s[n..]) == NO_JUMP <==> n == |s|
    ensures n < |s| ==> LinkAt(code, s, n) && Head(s[n..]) == s[n] && GetJump(code, s[n]) == Head(s[n+1..])
  {
    if n < |s| {
      assert LinkAt(code, s, n);
      if n + 1 < |s| { assert LinkAt(code, s, n + 1); }
    }
  }

  /** Patching one list keeps the others. */
  lemma PatchedKeeps(code: seq<Instr>, s: seq<int>, vtarget: int, reg: int, dtarget: int, u: seq<int>)
    requires Threaded(code, u) && Disjoint(u, s)
    ensures Threaded(Patched(code, s, vtarget, reg, dtarget), u)
  {
    forall j | j in u
      ensures 0 <= j < |code| && Patched(code, s, vtarget, reg, dtarget)[j] == code[j]
    {
      InRange(code, u, j);
    }
    ThreadedFrame(code, Patched(code, s, vtarget, reg, dtarget), u);
  }

  /** removevalues changes no jump. */
  lemma ValuesRemovedKeeps(code: seq<Instr>, s: seq<int>, u: seq<int>)
    requires Threaded(code, u)
    ensures Threaded(ValuesRemoved(code, s), u)
  {
    forall j | j in u
      ensures 0 <= j < |code| && ValuesRemoved(code, s)[j] == code[j]
    {
      InRange(code, u, j);
    }
    ThreadedFrame(code, ValuesRemoved(code, s), u);
  }

  lemma PatchedFarNone(code: seq<Instr>, vtarget: int, dtarget: int)
    ensures !PatchedFar(code, [], vtarget, dtarget)
  {
  }

  lemma SameJump(code: seq<Instr>, code': seq<Instr>, j: int)
    requires 0 <= j < |code| == |code'| && code[j].Jmp? && code'[j] == code[j]
    ensures GetJump(code', j) == GetJump(code, j)
  {
  }

  lemma ThreadedDistinct(code: seq<Instr>, s: seq<int>)
    requires Threaded(code, s)
    ensures Distinct(s)
  {
  }
}
