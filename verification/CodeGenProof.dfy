/** Compiler correctness for boolean expressions: what the code emitted by `CodeGenSpec` does when
    the machine of `Machine` runs it. */
module CodeGenProof {
  import opened Limits
  import opened Machine
  import opened JumpLists
  import opened CodeGenSpec

  // ----- well-formed states -----

  /** The code once the jumps on hold are directed to its end. */
  function Settled(g: Gen): (r: seq<Instr>)
    ensures |r| == |g.code|
  {
    Patched(g.code, g.held, |g.code|, NO_REG, |g.code|)
  }

  ghost predicate Wf(g: Gen) {
    && TestsPaired(g.code)
    && Threaded(g.code, g.held)
    && 0 <= g.nactvar <= g.freereg <= g.maxstack
    && (!g.err ==> g.maxstack < MAXSTACK)
    && ConstantsOk(g.k, g.h)
  }

  /** The table h finds the constants of k, each of which is there once. */
  ghost predicate ConstantsOk(k: seq<Value>, h: map<Value, int>) {
    && (forall v :: v in h ==> 0 <= h[v] < |k| && k[h[v]] == v)
    && forall i :: 0 <= i < |k| ==> k[i] in h && h[k[i]] == i
  }

  /** Below the end of g0 only the jumps that g0 held, and the TESTSETs in front of them, may change. */
  ghost predicate BelowAt(g0: Gen, g: Gen, k: int)
    requires 0 <= k < |g0.code| <= |g.code|
  {
    if k in g0.held then g.code[k].Jmp?
    else if IsTest(g0.code[k]) && k + 1 in g0.held then SameTest(g0.code[k], g.code[k])
    else g.code[k] == g0.code[k]
  }

  /** A list of jumps of the code behind g0, and of jumps that g0 held. */
  ghost predicate Owns(g0: Gen, s: seq<int>) {
    forall j :: j in s ==> j >= |g0.code| || j in g0.held
  }

  /** g was reached from g0 by generating code behind it. */
  ghost predicate Extends(g0: Gen, g: Gen) {
    && |g0.code| <= |g.code|
    && (forall k {:trigger BelowAt(g0, g, k)} :: 0 <= k < |g0.code| ==> BelowAt(g0, g, k))
    && Owns(g0, g.held)
    && g0.k <= g.k
    && g.nactvar == g0.nactvar
    && (g0.err ==> g.err)
    && g0.mixed <= g.mixed
  }

  function Lists(e: Exp): set<int> {
    Elems(e.ts) + Elems(e.fs)
  }

  function Pending(g: Gen, e: Exp): set<int> {
    Lists(e) + Elems(g.held)
  }

  /** The jumps that g0 held are pending, or they lead into the code behind g0. */
  ghost predicate Aimed(g0: Gen, code: seq<Instr>, pending: set<int>) {
    forall j {:trigger j in pending} :: j in g0.held ==>
      0 <= j < |code| && code[j].Jmp? && (j in pending || j + 1 + code[j].sbx >= |g0.code|)
  }

  /** The lists of an expression: threaded, disjoint, and made of the jumps of its own code and of jumps
      that were on hold before it. */
  ghost predicate ListsOk(g0: Gen, g: Gen, e: Exp) {
    && Threaded(g.code, e.ts) && Threaded(g.code, e.fs)
    && Disjoint(e.ts, e.fs) && Disjoint(e.ts, g.held) && Disjoint(e.fs, g.held)
    && Owns(g0, e.ts) && Owns(g0, e.fs)
  }

  ghost predicate WfLists(g0: Gen, g: Gen, e: Exp) {
    ListsOk(g0, g, e) && Aimed(g0, g.code, Pending(g, e))
  }

  /** e describes an expression whose code starts at the end of g0. */
  ghost predicate WfExp(g0: Gen, g: Gen, e: Exp) {
    && WfLists(g0, g, e)
    && match e.k
       case VLOCAL => 0 <= e.info < g.nactvar
       case VNONRELOC => 0 <= e.info < g.nactvar || e.info == g0.freereg
       case VK => 0 <= e.info < |g.k| && !IsFalse(g.k[e.info])
       case VKNUM => !IsFalse(e.nval)
       case VRELOCABLE =>
         && g.held == [] && |g0.code| <= e.info == |g.code| - 1
         && (g.code[e.info].Not? || g.code[e.info].GetUpval?)
       case VJMP =>
         && g.held == [] && |g0.code| < e.info == |g.code| - 1
         && g.code[e.info] == Jmp(NO_JUMP) && g.code[e.info-1].Compare?
         && e.info !in e.ts && e.info !in e.fs
       case _ => true
  }

  ghost predicate State(g0: Gen, g: Gen, e: Exp) {
    Wf(g0) && Wf(g) && Extends(g0, g) && WfExp(g0, g, e)
  }

  /** Only an expression that sits in a temporary occupies a register: the first one that was free. */
  ghost predicate RegsOf(g0: Gen, g: Gen, e: Exp) {
    g.freereg == g0.freereg + if e.k.VNONRELOC? && e.info >= g.nactvar then 1 else 0
  }

  // ----- meaning -----

  ghost predicate Agree(R: Regs, R': Regs, n: int) {
    forall r :: r < n ==> Get(R', r) == Get(R, r)
  }

  /** The code of e without the instruction whose result is still open. */
  function Body(g: Gen, e: Exp): seq<Instr> {
    var n := if e.k.VRELOCABLE? then e.info else if e.k.VJMP? then e.info - 1 else |g.code|;
    if 0 <= n <= |g.code| then g.code[..n] else g.code
  }

  /** The value of e when its code was run to its end. */
  function Direct(g: Gen, e: Exp, env: Env, R: Regs): Value {
    match e.k
    case VTRUE => Boolean(true)
    case VFALSE => Boolean(false)
    case VK => At(env.k, e.info)
    case VKNUM => e.nval
    case VUPVAL => At(env.up, e.info)
    case VRELOCABLE => var i := InstrAt(g.code, e.info); if IsLoad(i) then Loaded(i, env, R) else Nil
    case VJMP => var i := InstrAt(g.code, e.info - 1); if IsTest(i) then Boolean(Taken(i, env, R)) else Nil
    case _ => Get(R, e.info)
  }

  function JumpValue(code: seq<Instr>, j: int, R: Regs, b: bool): Value {
    if IsValueJump(code, j) then Get(R, code[j-1].b) else Boolean(b)
  }

  /** Leaving through jump j gives value v: through the true list a true value, through the false
      list a false one; the value is in the operand of the TESTSET, or it is a boolean. */
  predicate Leaves(code: seq<Instr>, e: Exp, j: int, R: Regs, v: Value) {
    || (j in e.ts && !IsFalse(v) && v == JumpValue(code, j, R, true))
    || (j in e.fs && IsFalse(v) && v == JumpValue(code, j, R, false))
  }

  predicate Arrives(held: seq<int>, o: Outcome) {
    o.End? || (o.Exit? && o.j in held)
  }

  /** The code of an expression is entered at its start, or by a jump that was on hold there. */
  predicate Entry(g0: Gen, i: int) {
    i == -1 || i in g0.held
  }

  /** The constants are there, and the jumps that a literal may spoil are watched. */
  ghost predicate Covers(env: Env, g: Gen) {
    g.k <= env.k && g.mixed <= env.watch
  }

  /** Outcome o of the code of e, started with registers R, gives value v. */
  ghost predicate Gives(g0: Gen, g: Gen, e: Exp, env: Env, R: Regs, o: Outcome, v: Value) {
    || o.Mixed?
    || (Arrives(g.held, o) && Agree(R, o.regs, g0.freereg) && Direct(g, e, env, o.regs) == v)
    || (o.Exit? && Agree(R, o.regs, g0.freereg) && Leaves(Body(g, e), e, o.j, o.regs, v))
  }

  ghost predicate MeaningAt(E: Expr, g0: Gen, g: Gen, e: Exp, env: Env, R: Regs, i: int) {
    Gives(g0, g, e, env, R, Enter(env, Body(g, e), Pending(g, e), |g0.code|, i, R), Eval(E, env, R))
  }

  /** e means E: its code either runs to its end, and then e says where the value of E is, or leaves
      through one of the lists of e, with the value of E.  No register below g0.freereg changes. */
  ghost predicate Meaning(E: Expr, g0: Gen, g: Gen, e: Exp) {
    forall env: Env, R: Regs, i :: Covers(env, g) && Entry(g0, i) ==> MeaningAt(E, g0, g, e, env, R, i)
  }

  /** Outcome o of the code of e, started with registers R, decides on value v. */
  ghost predicate Decides(cond: bool, g0: Gen, g: Gen, e: Exp, R: Regs, o: Outcome, v: Value) {
    || o.Mixed?
    || (Arrives(g.held, o) && Agree(R, o.regs, g0.freereg) && IsFalse(v) != cond)
    || (o.Exit? && Agree(R, o.regs, g0.freereg) && Leaves(g.code, e, o.j, o.regs, v))
  }

  ghost predicate BranchAt(E: Expr, cond: bool, g0: Gen, g: Gen, e: Exp, env: Env, R: Regs, i: int) {
    Decides(cond, g0, g, e, R, Enter(env, g.code, Pending(g, e), |g0.code|, i, R), Eval(E, env, R))
  }

  /** The code runs to its end exactly when the truth value of E is `cond`. */
  ghost predicate Branch(E: Expr, cond: bool, g0: Gen, g: Gen, e: Exp) {
    forall env: Env, R: Regs, i :: Covers(env, g) && Entry(g0, i) ==> BranchAt(E, cond, g0, g, e, env, R, i)
  }

  // ----- structure -----

  lemma SettledPaired(g: Gen)
    requires Wf(g)
    ensures TestsPaired(Settled(g))
  {
    forall k | 0 <= k < |g.code| && IsTest(Settled(g)[k])
      ensures k + 1 < |g.code| && Settled(g)[k+1].Jmp?
    {
      assert Settled(g)[k] == PatchedAt(g.code, g.held, |g.code|, NO_REG, |g.code|, k);
      assert IsTest(g.code[k]);
      assert Settled(g)[k+1] == PatchedAt(g.code, g.held, |g.code|, NO_REG, |g.code|, k + 1);
    }
  }

  /** Settling keeps every list that is disjoint from the held one. */
  lemma SettledFrame(g: Gen, s: seq<int>)
    requires Wf(g) && Threaded(g.code, s) && Disjoint(s, g.held)
    ensures Threaded(Settled(g), s)
  {
    forall j | j in s
      ensures 0 <= j < |g.code| && Settled(g)[j] == g.code[j]
    {
      InRange(g.code, s, j);
      assert Settled(g)[j] == PatchedAt(g.code, g.held, |g.code|, NO_REG, |g.code|, j);
    }
    ThreadedFrame(g.code, Settled(g), s);
  }

  lemma PrefixKeeps(code: seq<Instr>, code': seq<Instr>, s: seq<int>)
    requires Threaded(code, s) && code <= code'
    ensures Threaded(code', s)
  {
    forall j | j in s
      ensures 0 <= j < |code| && code'[j] == code[j]
    {
      InRange(code, s, j);
    }
    ThreadedFrame(code, code', s);
  }

  /** The code in front of an expression does not end with a test. */
  lemma NoTestAtStart(g0: Gen, g: Gen)
    requires Wf(g0) && Wf(g) && Extends(g0, g)
    ensures var n := |g0.code|; n > 0 ==> !IsTest(g.code[n-1]) && !IsTest(Settled(g)[n-1])
  {
    var n := |g0.code|;
    if n > 0 {
      assert BelowAt(g0, g, n - 1);
      if n - 1 in g0.held { InRange(g0.code, g0.held, n - 1); }
      assert !IsTest(g0.code[n-1]);
      assert Settled(g)[n-1] == PatchedAt(g.code, g.held, |g.code|, NO_REG, |g.code|, n - 1);
    }
  }

  lemma ExtendsTrans(g0: Gen, g1: Gen, g2: Gen)
    requires Wf(g0) && Wf(g1) && Extends(g0, g1) && Extends(g1, g2)
    ensures Extends(g0, g2)
  {
    forall k | 0 <= k < |g0.code|
      ensures BelowAt(g0, g2, k)
    {
      assert BelowAt(g0, g1, k) && BelowAt(g1, g2, k);
      if k in g1.held { InRange(g1.code, g1.held, k); }
      if k + 1 == |g0.code| { NoTestAtStart(g0, g1); }
    }
  }

  // ----- emitting -----

  lemma EmitLemma(g: Gen, i: Instr)
    requires Wf(g)
    ensures var g' := Emit(g, i);
            && g'.code == Settled(g) + [i] && g'.held == []
            && g' == g.(code := g'.code, held := [], err := g'.err)
            && Extends(g, g') && TestsPaired(Settled(g))
            && (!IsTest(i) ==> Wf(g'))
  {
    SettledPaired(g);
    var g' := Emit(g, i);
    SettledExtends(g, g');
    if !IsTest(i) {
      forall k | 0 <= k < |g'.code| && IsTest(g'.code[k])
        ensures k + 1 < |g'.code| && g'.code[k+1].Jmp?
      {
        assert g'.code[k] == Settled(g)[k];
        assert g'.code[k+1] == Settled(g)[k+1];
      }
    }
  }

  lemma SettledExtends(g: Gen, g': Gen)
    requires Wf(g) && Settled(g) <= g'.code && g'.held == [] && g.k <= g'.k && g'.nactvar == g.nactvar
    requires (g.err ==> g'.err) && g.mixed <= g'.mixed
    ensures Extends(g, g')
  {
    forall k | 0 <= k < |g.code|
      ensures BelowAt(g, g', k)
    {
      assert g'.code[k] == Settled(g)[k] == PatchedAt(g.code, g.held, |g.code|, NO_REG, |g.code|, k);
    }
  }

  lemma EmitJumpLemma(g: Gen)
    requires Wf(g)
    ensures var (g', list) := EmitJump(g); var n := |g.code|;
            && g'.code == Linked(g.code + [Jmp(NO_JUMP)], [n], g.held) && |g'.code| == n + 1
            && g'.code[..n] == g.code && g'.code[n].Jmp?
            && g' == g.(code := g'.code, held := [], err := g'.err) && (g.err ==> g'.err)
            && list == [n] + g.held && Threaded(g'.code, list) && Wf(g')
  {
    var n := |g.code|;
    var g1 := g.(held := []);
    var c := g.code + [Jmp(NO_JUMP)];
    PatchedNone(g.code, n, NO_REG, n);
    assert Emit(g1, Jmp(NO_JUMP)).code == c;
    PrefixKeeps(g.code, c, g.held);
    assert LinkAt(c, [n], 0);
    assert Disjoint([n], g.held) by {
      if n in g.held { InRange(g.code, g.held, n); }
    }
    LinkedThreaded(c, [n], g.held);
    var g' := EmitJump(g).0;
    assert g'.code[..n] == g.code;
    assert TestsPaired(g'.code) by {
      forall k | 0 <= k < |g'.code| && IsTest(g'.code[k])
        ensures k + 1 < |g'.code| && g'.code[k+1].Jmp?
      {
        assert k < n && g'.code[k] == g.code[k];
      }
    }
  }

  lemma CondJumpLemma(g: Gen, i: Instr)
    requires Wf(g) && IsTest(i)
    ensures var (g', list) := CondJump(g, i); var n := |g.code|;
            && g'.code == Settled(g) + [i, Jmp(NO_JUMP)]
            && g' == g.(code := g'.code, held := [], err := g'.err)
            && list == [n + 1] && Threaded(g'.code, list)
            && Extends(g, g') && Wf(g')
  {
    EmitLemma(g, i);
    var g1, n := Emit(g, i), |g.code|;
    PatchedNone(g1.code, n + 1, NO_REG, n + 1);
    var (g', list) := CondJump(g, i);
    assert g'.code == g1.code + [Jmp(NO_JUMP)] == Settled(g) + [i, Jmp(NO_JUMP)];
    SettledExtends(g, g');
    forall k | 0 <= k < |g'.code| && IsTest(g'.code[k])
      ensures k + 1 < |g'.code| && g'.code[k+1].Jmp?
    {
      if k < n {
        assert g'.code[k] == Settled(g)[k];
        assert g'.code[k+1] == Settled(g)[k+1];
      }
    }
    assert LinkAt(g'.code, [n + 1], 0);
  }

  // ----- running on -----

  /** F repeats body, except that held jumps go to the end of the body without a value and the jumps of
      `lists` may have been relinked or lost their value. */
  ghost predicate FollowsAt(body: seq<Instr>, lists: set<int>, held: seq<int>, F: seq<Instr>, k: int)
    requires 0 <= k < |body| <= |F|
  {
    if k in lists then body[k].Jmp? && F[k].Jmp?
    else if k in held then body[k].Jmp? && F[k] == Jmp(|body| - (k + 1))
    else if IsTest(body[k]) && k + 1 in lists then SameTest(body[k], F[k])
    else if body[k].TestSet? && k + 1 in held then F[k] == Test(body[k].b, body[k].cond)
    else F[k] == body[k]
  }

  ghost predicate Follows(body: seq<Instr>, lists: set<int>, held: seq<int>, F: seq<Instr>, lo: nat,
                          entries: seq<int>) {
    && lo <= |body| <= |F|
    && (0 < lo ==> !IsTest(F[lo-1]) && !IsTest(body[lo-1]))
    && (forall j :: j in held ==> 0 <= j < |body| && j !in lists)
    && (forall j ::
          j in entries ==> 0 <= j < lo && body[j].Jmp? && (j in lists || j in held || j + 1 + body[j].sbx >= lo))
    && forall k {:trigger FollowsAt(body, lists, held, F, k)} :: 0 <= k < |body| ==> FollowsAt(body, lists, held, F, k)
  }

  lemma FollowsContinues(body: seq<Instr>, lists: set<int>, held: seq<int>, F: seq<Instr>, P: set<int>, lo: nat,
                         entries: seq<int>)
    requires Follows(body, lists, held, F, lo, entries)
    requires forall k :: 0 <= k < |body| ==> (k in P <==> k in lists)
    ensures Continues(body, lists + Elems(held), F, P, lo, entries)
  {
    var Q := lists + Elems(held);
    forall k | 0 <= k < |body| && Reachable(body, lo, entries, k)
      ensures Kept(body, Q, F, P, k)
    {
      assert FollowsAt(body, lists, held, F, k);
    }
    forall j | j in entries && j > 0
      ensures IsTest(F[j-1]) ==> IsTest(body[j-1])
    {
      assert FollowsAt(body, lists, held, F, j - 1);
    }
  }

  /** Where a jump leads in the code that follows. */
  lemma FollowsJump(env: Env, body: seq<Instr>, lists: set<int>, held: seq<int>, F: seq<Instr>, P: set<int>, lo: nat,
                    entries: seq<int>, j: int, S: Regs)
    requires Follows(body, lists, held, F, lo, entries) && 0 <= j < |body| && (j in lists || j in held)
    requires forall k :: 0 <= k < |body| ==> (k in P <==> k in lists)
    requires !Differs(env, body, j, S)
    ensures Jump(env, F, P, j, S) == if j in lists then Exit(j, S) else Run(env, F, P, |body|, S)
  {
    assert FollowsAt(body, lists, held, F, j);
    if j > 0 { assert FollowsAt(body, lists, held, F, j - 1); }
    assert !Differs(env, F, j, S);
    if j !in lists { assert j !in P; }
  }

  lemma ResumeRun(env: Env, body: seq<Instr>, lists: set<int>, held: seq<int>, F: seq<Instr>, P: set<int>,
                  lo: nat, entries: seq<int>, i: int, R: Regs)
    requires Follows(body, lists, held, F, lo, entries)
    requires i == -1 || i in entries
    requires forall k :: 0 <= k < |body| ==> (k in P <==> k in lists)
    requires Enter(env, body, lists + Elems(held), lo, i, R) != Stuck
    ensures var o := Enter(env, body, lists + Elems(held), lo, i, R);
            var o' := Enter(env, F, P, lo, i, R);
            && (Arrives(held, o) ==> o' == Run(env, F, P, |body|, o.regs))
            && (o.Exit? && o.j in lists ==> o' == Exit(o.j, o.regs))
            && (o.Exit? ==> o.j in lists || o.j in held)
            && (o.Mixed? ==> o'.Mixed?)
  {
    hide Run, Jump, Differs, FollowsAt, Continues;
    var Q := lists + Elems(held);
    FollowsContinues(body, lists, held, F, P, lo, entries);
    EnterContinues(env, body, Q, F, P, lo, entries, i, R);
    ExitIsPending(env, body, Q, lo, R);
    if i >= 0 { JumpExitIsPending(env, body, Q, i, R); }
    var o := Enter(env, body, Q, lo, i, R);
    if o.Exit? { FollowsJump(env, body, lists, held, F, P, lo, entries, o.j, o.regs); }
  }

  /** F begins with the settled body of e, except that the jumps of e may have been relinked. */
  ghost predicate Behind(g: Gen, e: Exp, F: seq<Instr>) {
    && |Body(g, e)| <= |F|
    && forall k {:trigger F[k]} :: 0 <= k < |Body(g, e)| ==> if k in Lists(e) then F[k].Jmp? else F[k] == Settled(g)[k]
  }

  lemma BodyFollows(g0: Gen, g: Gen, e: Exp, F: seq<Instr>)
    requires State(g0, g, e) && Behind(g, e, F)
    ensures Follows(Body(g, e), Lists(e), g.held, F, |g0.code|, g0.held)
  {
    var body, n := Body(g, e), |g0.code|;
    NoTestAtStart(g0, g);
    if n > 0 { assert if n - 1 in Lists(e) then F[n-1].Jmp? else F[n-1] == Settled(g)[n-1]; }
    forall k | 0 <= k < |body|
      ensures FollowsAt(body, Lists(e), g.held, F, k)
    {
      assert k !in Lists(e) ==> F[k] == Settled(g)[k] == PatchedAt(g.code, g.held, |g.code|, NO_REG, |g.code|, k);
      if k in e.ts { InRange(g.code, e.ts, k); }
      if k in e.fs { InRange(g.code, e.fs, k); }
      if k in g.held { InRange(g.code, g.held, k); }
    }
    forall j | j in g.held
      ensures 0 <= j < |body| && j !in Lists(e)
    {
      InRange(g.code, g.held, j);
    }
    forall j | j in g0.held
      ensures 0 <= j < n && body[j].Jmp? && (j in Lists(e) || j in g.held || j + 1 + body[j].sbx >= n)
    {
      InRange(g0.code, g0.held, j);
      assert j in Pending(g, e) || j !in Pending(g, e);
    }
  }

  /** An emission behind e keeps the lists of e. */
  lemma ListsKept(g0: Gen, g: Gen, e: Exp, g': Gen)
    requires State(g0, g, e) && g'.held == [] && Settled(g) <= g'.code
    ensures WfLists(g0, g', e)
  {
    SettledFrame(g, e.ts);
    SettledFrame(g, e.fs);
    PrefixKeeps(Settled(g), g'.code, e.ts);
    PrefixKeeps(Settled(g), g'.code, e.fs);
    SettledAimed(g0, g, e, g');
  }

  lemma SettledAimed(g0: Gen, g: Gen, e: Exp, g': Gen)
    requires State(g0, g, e) && g'.held == [] && Settled(g) <= g'.code
    ensures Aimed(g0, g'.code, Pending(g', e))
  {
    forall j | j in g0.held
      ensures 0 <= j < |g'.code| && g'.code[j].Jmp?
      ensures j in Pending(g', e) || j + 1 + g'.code[j].sbx >= |g0.code|
    {
      InRange(g0.code, g0.held, j);
      assert j in Pending(g, e) || j !in Pending(g, e);
      assert g'.code[j] == Settled(g)[j] == PatchedAt(g.code, g.held, |g.code|, NO_REG, |g.code|, j);
    }
  }

  lemma ListsInRange(e: Exp, code: seq<Instr>)
    requires Threaded(code, e.ts) && Threaded(code, e.fs)
    ensures forall j :: j in Lists(e) ==> 0 <= j < |code| && code[j].Jmp?
  {
    forall j | j in Lists(e)
      ensures 0 <= j < |code| && code[j].Jmp?
    {
      if j in e.ts { InRange(code, e.ts, j); } else { InRange(code, e.fs, j); }
    }
  }

  /** The instruction in front of a jump of e is the same in the body and in code behind it, as far as
      producing a value goes. */
  lemma SameControl(g0: Gen, g: Gen, e: Exp, F: seq<Instr>, j: int)
    requires State(g0, g, e) && j in Lists(e) && Behind(g, e, F)
    ensures 0 <= j < |Body(g, e)|
    ensures j > 0 ==> (F[j-1].TestSet? || Body(g, e)[j-1].TestSet? ==> F[j-1] == Body(g, e)[j-1])
  {
    assert j !in g.held;
    if j in e.ts { InRange(g.code, e.ts, j); } else { InRange(g.code, e.fs, j); }
    if j > 0 {
      var c := g.code[j-1];
      assert Body(g, e)[j-1] == c;
      if j - 1 in Lists(e) {
        if j - 1 in e.ts { InRange(g.code, e.ts, j - 1); } else { InRange(g.code, e.fs, j - 1); }
        assert c.Jmp?;
      } else {
        assert F[j-1] == Settled(g)[j-1] == PatchedAt(g.code, g.held, |g.code|, NO_REG, |g.code|, j - 1);
        if j - 1 in g.held { InRange(g.code, g.held, j - 1); }
      }
    }
  }

  lemma SameJumpValue(g0: Gen, g: Gen, e: Exp, F: seq<Instr>, j: int, R: Regs, b: bool)
    requires State(g0, g, e) && j in Lists(e) && Behind(g, e, F)
    ensures JumpValue(F, j, R, b) == JumpValue(Body(g, e), j, R, b)
  {
    SameControl(g0, g, e, F, j);
  }

  /** A run of the body of e, resumed in code F behind it. */
  lemma Resume(g0: Gen, g: Gen, e: Exp, F: seq<Instr>, P: set<int>, env: Env, R: Regs, i: int) returns (o: Outcome)
    requires State(g0, g, e) && Behind(g, e, F) && Entry(g0, i)
    requires forall k :: 0 <= k < |Body(g, e)| ==> (k in P <==> k in Lists(e))
    ensures o == Enter(env, Body(g, e), Pending(g, e), |g0.code|, i, R)
    ensures Arrives(g.held, o) ==> Enter(env, F, P, |g0.code|, i, R) == Run(env, F, P, |Body(g, e)|, o.regs)
    ensures o.Exit? && o.j in Lists(e) ==>
              && Enter(env, F, P, |g0.code|, i, R) == Exit(o.j, o.regs)
              && forall v :: Leaves(Body(g, e), e, o.j, o.regs, v) ==> Leaves(F, e, o.j, o.regs, v)
    ensures o.Mixed? ==> Enter(env, F, P, |g0.code|, i, R).Mixed?
  {
    BodyFollows(g0, g, e, F);
    o := Enter(env, Body(g, e), Pending(g, e), |g0.code|, i, R);
    if o != Stuck {
      ResumeRun(env, Body(g, e), Lists(e), g.held, F, P, |g0.code|, g0.held, i, R);
      if o.Exit? && o.j in Lists(e) {
        SameJumpValue(g0, g, e, F, o.j, o.regs, true);
        SameJumpValue(g0, g, e, F, o.j, o.regs, false);
      }
    }
  }

  /** An emission that only moves the value of e, or nothing but what settles the held jumps. */
  lemma MovedMeaningAt(E: Expr, g0: Gen, g: Gen, e: Exp, g': Gen, e': Exp, env: Env, R: Regs, i: int)
    requires State(g0, g, e) && Entry(g0, i) && MeaningAt(E, g0, g, e, env, R, i)
    requires g'.held == [] && e'.ts == e.ts && e'.fs == e.fs
    requires var n, F := |Body(g, e)|, Body(g', e');
             && n <= |F| <= n + 1 && Behind(g, e, F)
             && (|F| == n + 1 ==> IsLoad(F[n]) && !(F[n].LoadBool? && F[n].skip) && F[n].a >= g0.freereg)
             && forall S: Regs :: Direct(g', e', env, if |F| == n then S else S[F[n].a := Loaded(F[n], env, S)])
                               == Direct(g, e, env, S)
    requires forall j :: j in Lists(e) ==> j < |Body(g, e)|
    ensures MeaningAt(E, g0, g', e', env, R, i)
  {
    var n, F := |Body(g, e)|, Body(g', e');
    assert Pending(g', e') == Lists(e);
    var o := Resume(g0, g, e, F, Lists(e), env, R, i);
    if Arrives(g.held, o) { RunLastLoad(env, F, Lists(e), n, o.regs); }
  }

  lemma RunLastLoad(env: Env, F: seq<Instr>, P: set<int>, n: nat, S: Regs)
    requires n <= |F| <= n + 1
    requires |F| == n + 1 ==> IsLoad(F[n]) && !(F[n].LoadBool? && F[n].skip)
    ensures Run(env, F, P, n, S) == End(if |F| == n then S else S[F[n].a := Loaded(F[n], env, S)])
  {
    if |F| == n + 1 {
      var S' := S[F[n].a := Loaded(F[n], env, S)];
      assert Run(env, F, P, n + 1, S') == End(S');
    }
  }

  /** Meaning depends on the body, the lists and the place of the value only. */
  lemma SameMeaning(E: Expr, g0: Gen, g: Gen, e: Exp, g': Gen, e': Exp)
    requires Meaning(E, g0, g, e) && g.k <= g'.k && g.mixed <= g'.mixed
    requires Body(g', e') == Body(g, e) && g'.held == g.held && e'.ts == e.ts && e'.fs == e.fs
    requires forall env: Env, R: Regs {:trigger Direct(g', e', env, R)} ::
               Direct(g', e', env, R) == Direct(g, e, env, R)
    ensures Meaning(E, g0, g', e')
  {
    forall env: Env, R: Regs, i | Covers(env, g') && Entry(g0, i)
      ensures MeaningAt(E, g0, g', e', env, R, i)
    {
      assert MeaningAt(E, g0, g, e, env, R, i);
      assert Pending(g', e') == Pending(g, e);
    }
  }

  lemma DischargeVarsLemma(g0: Gen, g: Gen, e: Exp)
    requires State(g0, g, e)
    ensures var (g', e') := DischargeVars(g, e);
            && State(g0, g', e') && !e'.k.VLOCAL? && !e'.k.VUPVAL?
            && e'.ts == e.ts && e'.fs == e.fs
            && g' == g.(code := g'.code, held := g'.held, err := g'.err)
  {
    if e.k.VUPVAL? {
      var i := GetUpval(0, e.info);
      EmitLemma(g, i);
      ExtendsTrans(g0, g, Emit(g, i));
      ListsKept(g0, g, e, Emit(g, i));
    }
  }

  lemma DischargeVarsMeaning(E: Expr, g0: Gen, g: Gen, e: Exp)
    requires State(g0, g, e) && Meaning(E, g0, g, e)
    ensures var (g', e') := DischargeVars(g, e); Meaning(E, g0, g', e')
  {
    var (g', e') := DischargeVars(g, e);
    if e.k.VUPVAL? {
      EmitLemma(g, GetUpval(0, e.info));
      SettledFrame(g, e.ts);
      SettledFrame(g, e.fs);
      ListsInRange(e, Settled(g));
      forall env: Env, R: Regs, i | Covers(env, g') && Entry(g0, i)
        ensures MeaningAt(E, g0, g', e', env, R, i)
      {
        assert MeaningAt(E, g0, g, e, env, R, i);
        assert Body(g', e') == Settled(g);
        MovedMeaningAt(E, g0, g, e, g', e', env, R, i);
      }
    } else {
      SameMeaning(E, g0, g, e, g', e');
    }
  }

  // ----- moving a value into a register -----

  /** e is neither a variable nor a comparison. */
  predicate IsValue(e: Exp) {
    !e.k.VLOCAL? && !e.k.VUPVAL? && !e.k.VJMP?
  }

  /** What Discharge2Reg emits: at most one instruction, which loads the value of e into reg. */
  ghost predicate Placed(g: Gen, e: Exp, g': Gen, reg: int) {
    || (e.k.VNONRELOC? && e.info == reg && g' == g)
    || var n := |Body(g, e)|;
       && g'.held == [] && |g'.code| == n + 1 && g'.code[..n] == Settled(g)[..n]
       && IsLoad(g'.code[n]) && !(g'.code[n].LoadBool? && g'.code[n].skip) && g'.code[n].a == reg
       && forall env: Env, S: Regs {:trigger Loaded(g'.code[n], env, S)} :: g'.k <= env.k ==>
            Loaded(g'.code[n], env, S) == Direct(g, e, env, S)
  }

  lemma AddKLemma(g: Gen, v: Value)
    requires Wf(g)
    ensures var (g', i) := AddK(g, v);
            && Wf(g') && g' == g.(k := g'.k, h := g'.h, err := g'.err) && g.k <= g'.k && (g.err ==> g'.err)
            && 0 <= i < |g'.k| && g'.k[i] == v
  {
  }

  ghost predicate Discharged(g0: Gen, g: Gen, e: Exp, g': Gen, reg: int) {
    && Wf(g') && Extends(g0, g') && WfLists(g0, g', e.(k := VNONRELOC, info := reg)) && Placed(g, e, g', reg)
    && g' == g.(code := g'.code, held := g'.held, err := g'.err, k := g'.k, h := g'.h)
    && g.k <= g'.k && (g.err ==> g'.err)
  }

  lemma EmitPlaced(g0: Gen, g: Gen, e: Exp, g1: Gen, i: Instr, reg: int)
    requires State(g0, g, e) && IsValue(e) && !e.k.VRELOCABLE?
    requires Wf(g1) && g1 == g.(k := g1.k, h := g1.h, err := g1.err) && g.k <= g1.k && (g.err ==> g1.err)
    requires IsLoad(i) && !(i.LoadBool? && i.skip) && i.a == reg
    requires forall env: Env, S: Regs {:trigger Loaded(i, env, S)} ::
               g1.k <= env.k ==> Loaded(i, env, S) == Direct(g, e, env, S)
    ensures Discharged(g0, g, e, Emit(g1, i), reg)
  {
    EmitLemma(g1, i);
    SettledExtends(g, Emit(g1, i));
    ExtendsTrans(g0, g, Emit(g1, i));
    ListsKept(g0, g, e, Emit(g1, i));
    SameLists(g0, Emit(g1, i), e, e.(k := VNONRELOC, info := reg));
  }

  lemma SameLists(g0: Gen, g: Gen, e: Exp, e': Exp)
    requires WfLists(g0, g, e) && e'.ts == e.ts && e'.fs == e.fs
    ensures WfLists(g0, g, e')
  {
    assert Pending(g, e') == Pending(g, e);
  }

  lemma PutKeeps(code: seq<Instr>, i: nat, x: Instr, s: seq<int>)
    requires Threaded(code, s) && i < |code| && i !in s
    ensures Threaded(code[i := x], s)
  {
    forall j | j in s
      ensures 0 <= j < |code| && code[i := x][j] == code[j]
    {
      InRange(code, s, j);
    }
    ThreadedFrame(code, code[i := x], s);
  }

  /** The instruction at i, which belongs to e, is replaced by another one of its kind. */
  lemma PutLemma(g0: Gen, g: Gen, e: Exp, i: nat, x: Instr)
    requires State(g0, g, e) && |g0.code| <= i < |g.code| && g.held == []
    requires !g.code[i].Jmp? && (IsTest(x) ==> IsTest(g.code[i])) && !x.Jmp?
    ensures var g' := g.(code := g.code[i := x]); Wf(g') && Extends(g0, g') && WfLists(g0, g', e)
  {
    var g' := g.(code := g.code[i := x]);
    assert i !in e.ts by { if i in e.ts { InRange(g.code, e.ts, i); } }
    assert i !in e.fs by { if i in e.fs { InRange(g.code, e.fs, i); } }
    PutKeeps(g.code, i, x, e.ts);
    PutKeeps(g.code, i, x, e.fs);
    assert TestsPaired(g'.code) by {
      forall k | 0 <= k < |g'.code| && IsTest(g'.code[k])
        ensures k + 1 < |g'.code| && g'.code[k+1].Jmp?
      {
        assert IsTest(g.code[k]);
      }
    }
    forall k | 0 <= k < |g0.code|
      ensures BelowAt(g0, g', k)
    {
      assert BelowAt(g0, g, k);
    }
    assert Pending(g', e) == Pending(g, e);
    forall j | j in g0.held
      ensures 0 <= j < |g'.code| && g'.code[j].Jmp?
      ensures j in Pending(g', e) || j + 1 + g'.code[j].sbx >= |g0.code|
    {
      assert j in Pending(g, e) || j !in Pending(g, e);
      InRange(g0.code, g0.held, j);
      assert g'.code[j] == g.code[j];
    }
    assert Aimed(g0, g'.code, Pending(g', e));
  }

  lemma Relocate(g0: Gen, g: Gen, e: Exp, reg: int)
    requires State(g0, g, e) && e.k.VRELOCABLE?
    ensures Discharged(g0, g, e, g.(code := Put(g.code, e.info, SetA(InstrAt(g.code, e.info), reg))), reg)
  {
    var i := e.info;
    var x := SetA(g.code[i], reg);
    var g' := g.(code := g.code[i := x]);
    PutLemma(g0, g, e, i, x);
    SameLists(g0, g', e, e.(k := VNONRELOC, info := reg));
    assert Placed(g, e, g', reg) by {
      PatchedNone(g.code, |g.code|, NO_REG, |g.code|);
      assert g'.code[..i] == g.code[..i] == Settled(g)[..i];
    }
  }

  lemma PlaceConstant(g0: Gen, g: Gen, e: Exp, reg: int)
    requires State(g0, g, e) && (e.k.VK? || e.k.VKNUM?)
    ensures Discharged(g0, g, e, Discharge2Reg(g, e, reg).0, reg)
  {
    if e.k.VK? {
      EmitPlaced(g0, g, e, g, LoadK(reg, e.info), reg);
    } else {
      AddKLemma(g, e.nval);
      var (g1, i) := AddK(g, e.nval);
      EmitPlaced(g0, g, e, g1, LoadK(reg, i), reg);
    }
  }

  lemma PlaceLiteral(g0: Gen, g: Gen, e: Exp, reg: int)
    requires State(g0, g, e) && (e.k.VTRUE? || e.k.VFALSE?)
    ensures Discharged(g0, g, e, Discharge2Reg(g, e, reg).0, reg)
  {
    EmitPlaced(g0, g, e, g, LoadBool(reg, e.k.VTRUE?, false), reg);
  }

  lemma PlaceRegister(g0: Gen, g: Gen, e: Exp, reg: int)
    requires State(g0, g, e) && e.k.VNONRELOC?
    ensures Discharged(g0, g, e, Discharge2Reg(g, e, reg).0, reg)
  {
    if reg != e.info {
      EmitPlaced(g0, g, e, g, Move(reg, e.info), reg);
    } else {
      assert e == e.(k := VNONRELOC, info := reg);
    }
  }

  lemma Discharge2RegLemma(g0: Gen, g: Gen, e: Exp, reg: int)
    requires State(g0, g, e) && IsValue(e)
    ensures Discharge2Reg(g, e, reg).1 == e.(k := VNONRELOC, info := reg)
    ensures Discharged(g0, g, e, Discharge2Reg(g, e, reg).0, reg)
  {
    match e.k {
      case VRELOCABLE => Relocate(g0, g, e, reg);
      case VK => PlaceConstant(g0, g, e, reg);
      case VKNUM => PlaceConstant(g0, g, e, reg);
      case VTRUE => PlaceLiteral(g0, g, e, reg);
      case VFALSE => PlaceLiteral(g0, g, e, reg);
      case VNONRELOC => PlaceRegister(g0, g, e, reg);
    }
  }

  lemma ReserveLemma(g0: Gen, g: Gen, e: Exp)
    requires State(g0, g, e)
    ensures var g' := ReserveRegs(g, 1);
            && State(g0, g', e) && g' == g.(freereg := g.freereg + 1, maxstack := g'.maxstack, err := g'.err)
            && (g.err ==> g'.err)
  {
    var g' := ReserveRegs(g, 1);
    assert Extends(g0, g') by {
      forall k | 0 <= k < |g0.code| ensures BelowAt(g0, g', k) { assert BelowAt(g0, g, k); }
    }
  }

  lemma PlacedBehind(g0: Gen, g: Gen, e: Exp, g': Gen, reg: int)
    requires State(g0, g, e) && Placed(g, e, g', reg)
    requires !(e.k.VNONRELOC? && e.info == reg && g' == g) && Threaded(g'.code, e.ts) && Threaded(g'.code, e.fs)
    ensures Behind(g, e, g'.code) && forall j :: j in Lists(e) ==> j < |Body(g, e)|
  {
    ListsInRange(e, g'.code);
    assert forall k :: 0 <= k < |Body(g, e)| ==> g'.code[k] == g'.code[..|Body(g, e)|][k];
    ListsInRange(e, g.code);
  }

  lemma DischargedThreaded(g0: Gen, g: Gen, e: Exp, g': Gen, reg: int)
    requires Discharged(g0, g, e, g', reg)
    ensures Placed(g, e, g', reg) && Threaded(g'.code, e.ts) && Threaded(g'.code, e.fs)
    ensures g.k <= g'.k && g.mixed == g'.mixed
  {
  }

  lemma PlacedMeaning(E: Expr, g0: Gen, g: Gen, e: Exp, g': Gen)
    requires State(g0, g, e) && IsValue(e) && Discharged(g0, g, e, g', g0.freereg) && Meaning(E, g0, g, e)
    ensures Meaning(E, g0, g', e.(k := VNONRELOC, info := g0.freereg))
  {
    hide State, Discharged, Threaded, Behind, MeaningAt, Loaded;
    var e' := e.(k := VNONRELOC, info := g0.freereg);
    DischargedThreaded(g0, g, e, g', g0.freereg);
    if !(e.k.VNONRELOC? && e.info == g0.freereg && g' == g) {
      PlacedBehind(g0, g, e, g', g0.freereg);
      assert Body(g', e') == g'.code;
      forall env: Env, R: Regs, i | Covers(env, g') && Entry(g0, i)
        ensures MeaningAt(E, g0, g', e', env, R, i)
      {
        assert MeaningAt(E, g0, g, e, env, R, i);
        MovedMeaningAt(E, g0, g, e, g', e', env, R, i);
      }
    }
  }

  lemma DischargedState(g0: Gen, g: Gen, e: Exp, g': Gen)
    requires State(g0, g, e) && Discharged(g0, g, e, g', g0.freereg) && g.freereg == g0.freereg + 1
    ensures var e' := e.(k := VNONRELOC, info := g0.freereg); State(g0, g', e') && RegsOf(g0, g', e')
  {
  }

  /** discharge2anyreg: afterwards the value is in a register; the temporary, if one was needed, is the
      first register that was free. */
  lemma Discharge2AnyRegLemma(g0: Gen, g: Gen, e: Exp)
    requires State(g0, g, e) && IsValue(e) && RegsOf(g0, g, e)
    ensures var (g', e') := Discharge2AnyReg(g, e);
            && State(g0, g', e') && RegsOf(g0, g', e') && e'.k.VNONRELOC?
            && e'.ts == e.ts && e'.fs == e.fs && g.k <= g'.k && (g.err ==> g'.err)
            && g'.mixed == g.mixed
  {
    hide State, Placed, Wf, Extends, WfLists, Discharge2Reg;
    if !e.k.VNONRELOC? {
      var g1 := ReserveRegs(g, 1);
      ReserveLemma(g0, g, e);
      Discharge2RegLemma(g0, g1, e, g0.freereg);
      DischargedState(g0, g1, e, Discharge2Reg(g1, e, g0.freereg).0);
    }
  }

  lemma Discharge2AnyRegMeaning(E: Expr, g0: Gen, g: Gen, e: Exp)
    requires State(g0, g, e) && IsValue(e) && RegsOf(g0, g, e) && Meaning(E, g0, g, e)
    ensures var (g', e') := Discharge2AnyReg(g, e); Meaning(E, g0, g', e')
  {
    hide Discharge2Reg, Run, Jump, Eval, Meaning;
    if !e.k.VNONRELOC? {
      var g1 := ReserveRegs(g, 1);
      ReserveLemma(g0, g, e);
      SameMeaning(E, g0, g, e, g1, e);
      Discharge2RegLemma(g0, g1, e, g0.freereg);
      PlacedMeaning(E, g0, g1, e, Discharge2Reg(g1, e, g0.freereg).0);
    }
  }

  /** freeexp gives the temporary back; lcode.c asserts that it is the last one in use. */
  lemma FreeExpLemma(g0: Gen, g: Gen, e: Exp)
    requires State(g0, g, e) && RegsOf(g0, g, e)
    ensures FreeExp(g, e) == g.(freereg := g0.freereg) && Wf(FreeExp(g, e))
    ensures e.k.VNONRELOC? && e.info >= g.nactvar ==> e.info == FreeExp(g, e).freereg
  {
  }

  // ----- branching on an expression -----

  /** code' differs from `code` in the offsets of the jumps of s only. */
  ghost predicate Relinked(code: seq<Instr>, code': seq<Instr>, s: set<int>) {
    && |code'| == |code|
    && forall k {:trigger code'[k]} :: 0 <= k < |code| ==>
         if k in s then code[k].Jmp? && code'[k].Jmp? else code'[k] == code[k]
  }

  lemma RelinkedPaired(code: seq<Instr>, code': seq<Instr>, s: set<int>)
    requires TestsPaired(code) && Relinked(code, code', s)
    ensures TestsPaired(code')
  {
    forall k | 0 <= k < |code'| && IsTest(code'[k])
      ensures k + 1 < |code'| && code'[k+1].Jmp?
    {
      assert code'[k] == code[k];
      assert code[k+1].Jmp?;
      assert code'[k+1].Jmp?;
    }
  }

  lemma ConcatLemma(g: Gen, s: seq<int>, t: seq<int>, u: seq<int>)
    requires Threaded(g.code, s) && Threaded(g.code, t) && Disjoint(s, t)
    requires Threaded(g.code, u) && Disjoint(s, u)
    ensures var g' := Concat(g, s, t);
            && Threaded(g'.code, s + t) && Threaded(g'.code, u)
            && Relinked(g.code, g'.code, Elems(s)) && (g.err ==> g'.err)
            && g' == g.(code := g'.code, err := g'.err)
  {
    LinkedThreaded(g.code, s, t);
    LinkedFrame(g.code, s, t);
    forall j | j in u
      ensures 0 <= j < |g.code| && Linked(g.code, s, t)[j] == g.code[j]
    {
      InRange(g.code, u, j);
    }
    ThreadedFrame(g.code, Linked(g.code, s, t), u);
    var code' := Linked(g.code, s, t);
    forall k | 0 <= k < |g.code|
      ensures if k in Elems(s) then g.code[k].Jmp? && code'[k].Jmp? else code'[k] == g.code[k]
    {
      assert k in Elems(s) <==> k in s;
      assert Linked(g.code, s, t)[k] == code'[k];
    }
  }

  lemma RelinkedTrans(a: seq<Instr>, b: seq<Instr>, c: seq<Instr>, s: set<int>, t: set<int>)
    requires Relinked(a, b, s) && Relinked(b, c, t)
    ensures Relinked(a, c, s + t)
  {
    forall k | 0 <= k < |a|
      ensures if k in s + t then a[k].Jmp? && c[k].Jmp? else c[k] == a[k]
    {
      assert k in s ==> b[k].Jmp?;
      assert k in t ==> c[k].Jmp?;
    }
  }

  lemma RelinkedMore(a: seq<Instr>, b: seq<Instr>, s: set<int>, t: set<int>, e: Exp, held: seq<int>)
    requires Relinked(a, b, s) && s <= t && t == Lists(e) + Elems(held)
    requires Threaded(a, e.ts) && Threaded(a, e.fs) && Threaded(a, held)
    ensures Relinked(a, b, t)
  {
    forall k | 0 <= k < |a|
      ensures if k in t then a[k].Jmp? && b[k].Jmp? else b[k] == a[k]
    {
      if k in e.ts {
        InRange(a, e.ts, k);
      } else if k in e.fs {
        InRange(a, e.fs, k);
      } else if k in held {
        InRange(a, held, k);
      }
    }
  }

  ghost predicate ReadyToClose(g0: Gen, g: Gen, e: Exp, pc: seq<int>) {
    && Wf(g0) && Wf(g) && Extends(g0, g) && ListsOk(g0, g, e)
    && Threaded(g.code, pc) && Owns(g0, pc)
    && Disjoint(e.ts, pc) && Disjoint(e.fs, pc) && Disjoint(g.held, pc)
    && Aimed(g0, g.code, Pending(g, e) + Elems(pc))
  }

  /** The structure that Close leaves: the other list is held, the exits end with pc. */
  lemma CloseLists(g0: Gen, g: Gen, e: Exp, pc: seq<int>, cond: bool)
    requires ReadyToClose(g0, g, e, pc)
    ensures var (g', e') := Close(g, e, pc, cond);
            && ListsOk(g0, g', e') && Threaded(g'.code, g'.held) && Owns(g0, g'.held)
            && Relinked(g.code, g'.code, Pending(g, e)) && (g.err ==> g'.err)
            && g' == g.(code := g'.code, held := g'.held, err := g'.err)
            && g'.held == g.held + (if cond then e.ts else e.fs)
            && Pending(g', e') == Pending(g, e) + Elems(pc)
  {
    var (x, y) := if cond then (e.fs, e.ts) else (e.ts, e.fs);
    var g2 := Concat(g, x, pc);
    ConcatLemma(g, x, pc, y);
    ConcatLemma(g, x, pc, g.held);
    assert Disjoint(g.held, y) && Disjoint(g.held, x + pc) && Disjoint(y, x + pc);
    ConcatLemma(g2, g.held, y, x + pc);
    var g3 := Concat(g2, g.held, y);
    RelinkedTrans(g.code, g2.code, g3.code, Elems(x), Elems(g.held));
    RelinkedMore(g.code, g3.code, Elems(x) + Elems(g.held), Pending(g, e), e, g.held);
    assert Disjoint(x + pc, g.held + y);
  }

  /** Relinking the jumps of an expression keeps everything but their offsets. */
  lemma RelinkedState(g0: Gen, g: Gen, g': Gen, P: set<int>, P': set<int>)
    requires Wf(g0) && Extends(g0, g) && Relinked(g.code, g'.code, P)
    requires forall j :: j in P ==> j >= |g0.code| || j in g0.held
    requires Aimed(g0, g.code, P') && P <= P' && Owns(g0, g'.held)
    requires g' == g.(code := g'.code, held := g'.held, err := g'.err) && (g.err ==> g'.err)
    ensures Extends(g0, g') && Aimed(g0, g'.code, P')
  {
    forall k | 0 <= k < |g0.code|
      ensures BelowAt(g0, g', k)
    {
      assert BelowAt(g0, g, k);
      assert if k in P then g'.code[k].Jmp? else g'.code[k] == g.code[k];
    }
    forall j | j in g0.held
      ensures 0 <= j < |g'.code| && g'.code[j].Jmp? && (j in P' || j + 1 + g'.code[j].sbx >= |g0.code|)
    {
      assert j in P' || j !in P';
      assert if j in P then g'.code[j].Jmp? else g'.code[j] == g.code[j];
    }
  }

  lemma CloseLemma(g0: Gen, g: Gen, e: Exp, pc: seq<int>, cond: bool)
    requires ReadyToClose(g0, g, e, pc)
    ensures var (g', e') := Close(g, e, pc, cond);
            && Wf(g') && Extends(g0, g') && WfLists(g0, g', e')
            && Relinked(g.code, g'.code, Pending(g, e))
            && g' == g.(code := g'.code, held := g'.held, err := g'.err) && (g.err ==> g'.err)
            && g'.held == g.held + (if cond then e.ts else e.fs)
            && Pending(g', e') == Pending(g, e) + Elems(pc)
  {
    CloseLists(g0, g, e, pc, cond);
    var (g', e') := Close(g, e, pc, cond);
    RelinkedPaired(g.code, g'.code, Pending(g, e));
    RelinkedState(g0, g, g', Pending(g, e), Pending(g', e'));
  }

  /** g1 is g with the open instruction of e replaced by test t and its jump. */
  ghost predicate Jumped(g0: Gen, g: Gen, e: Exp, g1: Gen, t: Instr) {
    var n := |Body(g, e)|;
    && g1.held == [] && |g1.code| == n + 2 && g1.code[..n] == Settled(g)[..n]
    && g1.code[n] == t && IsTest(t) && g1.code[n+1] == Jmp(NO_JUMP)
    && Wf(g1) && Extends(g0, g1) && WfLists(g0, g1, e) && g.k <= g1.k
  }

  /** The test t jumps when the truth value of e is not `cond`; what it tests is the value of e. */
  ghost predicate TestsFor(g: Gen, e: Exp, t: Instr, cond: bool) {
    && IsTest(t)
    && forall env: Env, S: Regs {:trigger Direct(g, e, env, S)} ::
         && Taken(t, env, S) == (IsFalse(Direct(g, e, env, S)) == cond)
         && (t.TestSet? ==> Get(S, t.b) == Direct(g, e, env, S))
         && (!t.TestSet? && Taken(t, env, S) ==> Direct(g, e, env, S) == Boolean(!cond))
  }

  lemma JumpedReady(g0: Gen, g: Gen, e: Exp, g1: Gen, t: Instr)
    requires State(g0, g, e) && Jumped(g0, g, e, g1, t)
    ensures ReadyToClose(g0, g1, e, [|Body(g, e)| + 1])
    ensures |g0.code| <= |Body(g, e)|
  {
    var n := |Body(g, e)|;
    assert LinkAt(g1.code, [n + 1], 0);
    assert n + 1 !in e.ts by { if n + 1 in e.ts { InRange(g.code, e.ts, n + 1); } }
    assert n + 1 !in e.fs by { if n + 1 in e.fs { InRange(g.code, e.fs, n + 1); } }
    AimedMore(g0, g1.code, Pending(g1, e), Pending(g1, e) + {n + 1});
    assert Elems([n + 1]) == {n + 1};
  }

  lemma AimedMore(g0: Gen, code: seq<Instr>, P: set<int>, P': set<int>)
    requires Aimed(g0, code, P) && P <= P'
    ensures Aimed(g0, code, P')
  {
    forall j | j in g0.held
      ensures 0 <= j < |code| && code[j].Jmp? && (j in P' || j + 1 + code[j].sbx >= |g0.code|)
    {
      assert j in P || j !in P;
    }
  }

  lemma JumpedBehind(g0: Gen, g: Gen, e: Exp, g1: Gen, t: Instr, F: seq<Instr>)
    requires State(g0, g, e) && Jumped(g0, g, e, g1, t)
    requires Relinked(g1.code, F, Lists(e))
    ensures Behind(g, e, F)
  {
    forall k | 0 <= k < |Body(g, e)|
      ensures if k in Lists(e) then F[k].Jmp? else F[k] == Settled(g)[k]
    {
      assert k in Lists(e) ==> F[k].Jmp?;
      assert g1.code[k] == g1.code[..|Body(g, e)|][k];
    }
  }

  lemma RunTail(env: Env, F: seq<Instr>, P: set<int>, n: nat, S: Regs)
    requires |F| == n + 2 && IsTest(F[n]) && F[n+1].Jmp? && n + 1 in P
    ensures Run(env, F, P, n, S) == if !Taken(F[n], env, S) then End(S)
                                    else if Differs(env, F, n + 1, S) then Mixed else Exit(n + 1, S)
  {
    assert Run(env, F, P, n + 2, S) == End(S);
  }

  /** The exits of e and the final test together branch on the value of e. */
  lemma TailBranches(E: Expr, cond: bool, g0: Gen, g: Gen, e: Exp, g3: Gen, e3: Exp, n: nat, env: Env, R: Regs, i: int,
                     o: Outcome)
    requires |g3.code| == n + 2 && TestsFor(g, e, g3.code[n], cond)
    requires g3.held == (if cond then e.ts else e.fs)
    requires e3.ts == (if cond then [] else e.ts + [n + 1]) && e3.fs == (if cond then e.fs + [n + 1] else [])
    requires (o.End? || o.Exit?) && Agree(R, o.regs, g0.freereg)
    requires var o' := Enter(env, g3.code, Pending(g3, e3), |g0.code|, i, R); var v := Eval(E, env, R);
             || o'.Mixed?
             || (Direct(g, e, env, o.regs) == v
                 && o' == if Taken(g3.code[n], env, o.regs) then Exit(n + 1, o.regs) else End(o.regs))
             || (o.Exit? && o' == o && Leaves(g3.code, e, o.j, o.regs, v))
    ensures BranchAt(E, cond, g0, g3, e3, env, R, i)
  {
    var o', v := Enter(env, g3.code, Pending(g3, e3), |g0.code|, i, R), Eval(E, env, R);
    var t := g3.code[n];
    if o'.Mixed? {
    } else if Direct(g, e, env, o.regs) == v
              && o' == (if Taken(t, env, o.regs) then Exit(n + 1, o.regs) else End(o.regs)) {
      assert Taken(t, env, o.regs) == (IsFalse(v) == cond);
      if Taken(t, env, o.regs) {
        assert n + 1 in (if cond then e3.fs else e3.ts);
        assert JumpValue(g3.code, n + 1, o.regs, !cond) == v;
      }
    } else {
      assert o.j in e.ts ==> o.j in (if cond then g3.held else e3.ts);
      assert o.j in e.fs ==> o.j in (if cond then e3.fs else g3.held);
    }
  }

  /** g3 ends with test t and its jump; the jump joined the exits of e, the other list is on hold. */
  ghost predicate ClosedOn(g0: Gen, g: Gen, e: Exp, t: Instr, cond: bool, g3: Gen, e3: Exp) {
    var n := |Body(g, e)|;
    && Wf(g3) && Extends(g0, g3) && WfLists(g0, g3, e3)
    && Behind(g, e, g3.code) && |g3.code| == n + 2 && g3.code[n] == t && g3.code[n+1].Jmp?
    && (forall k :: 0 <= k < n ==> (k in Pending(g3, e3) <==> k in Lists(e))) && n + 1 in Pending(g3, e3)
    && g3.held == (if cond then e.ts else e.fs)
    && e3.ts == (if cond then [] else e.ts + [n + 1]) && e3.fs == (if cond then e.fs + [n + 1] else [])
    && g.k <= g3.k
  }

  lemma JumpedClosed(g0: Gen, g: Gen, e: Exp, g1: Gen, e1: Exp, t: Instr, cond: bool)
    requires State(g0, g, e) && Jumped(g0, g, e, g1, t) && e1.ts == e.ts && e1.fs == e.fs
    ensures var (g3, e3) := Close(g1, e1, [|Body(g, e)| + 1], cond);
            && ClosedOn(g0, g, e, t, cond, g3, e3) && (g1.err ==> g3.err)
            && g3 == g1.(code := g3.code, held := g3.held, err := g3.err)
  {
    var n := |Body(g, e)|;
    JumpedReady(g0, g, e, g1, t);
    SameReady(g0, g1, e, e1, [n + 1]);
    CloseLemma(g0, g1, e1, [n + 1], cond);
    var (g3, e3) := Close(g1, e1, [n + 1], cond);
    assert Pending(g1, e1) == Lists(e);
    JumpedBehind(g0, g, e, g1, t, g3.code);
    assert n + 1 in [n + 1];
    ListsInRange(e, g.code);
    assert g3.code[n] == t && g3.code[n+1].Jmp?;
  }

  lemma SameReady(g0: Gen, g: Gen, e: Exp, e': Exp, pc: seq<int>)
    requires ReadyToClose(g0, g, e, pc) && e'.ts == e.ts && e'.fs == e.fs
    ensures ReadyToClose(g0, g, e', pc)
  {
    assert Pending(g, e') == Pending(g, e);
  }

  lemma ClosedBranchAt(E: Expr, cond: bool, g0: Gen, g: Gen, e: Exp, t: Instr, g3: Gen, e3: Exp, env: Env, R: Regs,
                       i: int)
    requires State(g0, g, e) && ClosedOn(g0, g, e, t, cond, g3, e3) && TestsFor(g, e, t, cond)
    requires Entry(g0, i) && MeaningAt(E, g0, g, e, env, R, i)
    ensures BranchAt(E, cond, g0, g3, e3, env, R, i)
  {
    hide State, Wf, Extends, WfLists, Behind, Direct, Leaves, Run, Jump, Eval, Differs, Lists;
    var o := Resume(g0, g, e, g3.code, Pending(g3, e3), env, R, i);
    if o.Mixed? { return; }
    if Arrives(g.held, o) { RunTail(env, g3.code, Pending(g3, e3), |Body(g, e)|, o.regs); }
    if o.Exit? { LeavesByList(Body(g, e), e, o.j, o.regs, Eval(E, env, R)); }
    TailBranches(E, cond, g0, g, e, g3, e3, |Body(g, e)|, env, R, i, o);
  }

  lemma LeavesByList(code: seq<Instr>, e: Exp, j: int, S: Regs, v: Value)
    ensures Leaves(code, e, j, S, v) ==> j in Lists(e)
  {
  }

  /** A test and a jump behind an expression that sits in a register. */
  lemma TestSetJumps(g0: Gen, g: Gen, e: Exp, gf: Gen, c: bool)
    requires State(g0, g, e) && e.k.VNONRELOC? && Wf(gf) && gf == g.(freereg := gf.freereg)
    ensures var (g1, pc) := CondJump(gf, TestSet(NO_REG, e.info, c));
            && Jumped(g0, g, e, g1, TestSet(NO_REG, e.info, c)) && pc == [|Body(g, e)| + 1]
            && g1 == gf.(code := g1.code, held := [], err := g1.err) && (gf.err ==> g1.err)
  {
    var t := TestSet(NO_REG, e.info, c);
    CondJumpLemma(gf, t);
    var (g1, pc) := CondJump(gf, t);
    SettledExtends(g, g1);
    ExtendsTrans(g0, g, g1);
    ListsKept(g0, g, e, g1);
  }

  lemma TruncateKeeps(code: seq<Instr>, n: nat, s: seq<int>)
    requires Threaded(code, s) && |code| == n + 1 && !code[n].Jmp?
    ensures Threaded(code[..n], s)
  {
    forall j | j in s
      ensures 0 <= j < n
    {
      InRange(code, s, j);
    }
    ThreadedFrame(code, code[..n], s);
  }

  /** fs->pc--: the last instruction is taken back. */
  lemma Truncate(g0: Gen, g: Gen, e: Exp)
    requires State(g0, g, e) && e.k.VRELOCABLE?
    ensures var gs := g.(code := g.code[..|g.code|-1]);
            && Wf(gs) && Extends(g0, gs) && WfLists(g0, gs, e)
            && Settled(gs) == gs.code == Settled(g)[..e.info] && e.info == |Body(g, e)|
  {
    hide Threaded, BelowAt, Wf, TestsPaired;
    var n := e.info;
    var gs := g.(code := g.code[..n]);
    TruncatePaired(g0, g, e);
    PatchedNone(g.code, |g.code|, NO_REG, |g.code|);
    PatchedNone(gs.code, n, NO_REG, n);
    forall k | 0 <= k < |g0.code|
      ensures BelowAt(g0, gs, k)
    {
      TruncateBelow(g0, g, e, k);
    }
    forall j | j in g0.held
      ensures 0 <= j < |gs.code| && gs.code[j].Jmp? && (j in Pending(gs, e) || j + 1 + gs.code[j].sbx >= |g0.code|)
    {
      HeldBelow(g0, j);
      assert j in Pending(g, e) || j !in Pending(g, e);
    }
    TruncateKeeps(g.code, n, e.ts);
    TruncateKeeps(g.code, n, e.fs);
  }

  lemma HeldBelow(g0: Gen, j: int)
    requires Wf(g0) && j in g0.held
    ensures 0 <= j < |g0.code|
  {
    InRange(g0.code, g0.held, j);
  }

  lemma TruncatePaired(g0: Gen, g: Gen, e: Exp)
    requires State(g0, g, e) && e.k.VRELOCABLE?
    ensures Wf(g.(code := g.code[..e.info]))
  {
    hide BelowAt, Extends;
    var gs := g.(code := g.code[..e.info]);
    forall k | 0 <= k < e.info && IsTest(gs.code[k])
      ensures k + 1 < e.info && gs.code[k+1].Jmp?
    {
      assert g.code[k] == gs.code[k];
      assert g.code[k+1].Jmp?;
    }
  }

  lemma TruncateBelow(g0: Gen, g: Gen, e: Exp, k: int)
    requires State(g0, g, e) && e.k.VRELOCABLE? && 0 <= k < |g0.code|
    ensures |g0.code| <= e.info < |g.code| && BelowAt(g0, g.(code := g.code[..e.info]), k)
  {
    assert BelowAt(g0, g, k);
  }

  /** An emitted NOT is removed again, and its operand tested instead. */
  lemma NotJumps(g0: Gen, g: Gen, e: Exp, c: bool)
    requires State(g0, g, e) && e.k.VRELOCABLE? && g.code[e.info].Not?
    ensures var t := Test(g.code[e.info].b, !c);
            var (g1, pc) := CondJump(g.(code := g.code[..|g.code|-1]), t);
            && Jumped(g0, g, e, g1, t) && pc == [|Body(g, e)| + 1]
            && g1 == g.(code := g1.code, held := [], err := g1.err) && (g.err ==> g1.err)
  {
    var n, t := e.info, Test(g.code[e.info].b, !c);
    var gs := g.(code := g.code[..n]);
    Truncate(g0, g, e);
    CondJumpLemma(gs, t);
    var (g1, pc) := CondJump(gs, t);
    ExtendsTrans(g0, gs, g1);
    assert g1.code[..n] == Settled(gs);
    assert WfLists(g0, g1, e) by {
      var x := Exp(VTRUE, 0, Nil, e.ts, e.fs);
      SameLists(g0, gs, e, x);
      assert State(g0, gs, x);
      ListsKept(g0, gs, x, g1);
      SameLists(g0, g1, x, e);
    }
  }

  lemma NotTests(g: Gen, e: Exp, c: bool)
    requires e.k.VRELOCABLE? && 0 <= e.info < |g.code| && g.code[e.info].Not?
    ensures TestsFor(g, e, Test(g.code[e.info].b, !c), !c)
  {
  }

  lemma TestSetTests(g: Gen, e: Exp, c: bool)
    requires e.k.VNONRELOC?
    ensures TestsFor(g, e, TestSet(NO_REG, e.info, c), !c)
  {
  }

  ghost predicate JumpedOn(g0: Gen, g: Gen, e: Exp, ga: Gen, ea: Exp, g1: Gen, e1: Exp, pc: seq<int>, t: Instr,
                           cond: bool) {
    && State(g0, ga, ea) && ea.ts == e1.ts == e.ts && ea.fs == e1.fs == e.fs && g.k <= ga.k
    && Jumped(g0, ga, ea, g1, t) && pc == [|Body(ga, ea)| + 1] && TestsFor(ga, ea, t, cond)
    && (g.err ==> ga.err) && (ga.err ==> g1.err) && g1.freereg == g0.freereg && g1.mixed == g.mixed && g1.k == ga.k
  }

  /** The expression that jumponcond tests: e itself if it is an open NOT, else e in a register. */
  function Tested(g: Gen, e: Exp): (Gen, Exp) {
    if e.k.VRELOCABLE? && InstrAt(g.code, e.info).Not? then (g, e) else Discharge2AnyReg(g, e)
  }

  lemma JumpOnCondInReg(g0: Gen, g: Gen, e: Exp, c: bool)
    requires State(g0, g, e) && RegsOf(g0, g, e) && e.k.VNONRELOC?
    ensures var t := TestSet(NO_REG, e.info, c); var (g1, pc) := CondJump(FreeExp(g, e), t);
            JumpedOn(g0, g, e, g, e, g1, e, pc, t, !c)
  {
    FreeExpLemma(g0, g, e);
    TestSetJumps(g0, g, e, FreeExp(g, e), c);
    TestSetTests(g, e, c);
  }

  lemma JumpOnCondNot(g0: Gen, g: Gen, e: Exp, c: bool)
    requires State(g0, g, e) && RegsOf(g0, g, e) && e.k.VRELOCABLE? && g.code[e.info].Not?
    ensures var t := Test(g.code[e.info].b, !c);
            var (g1, pc) := CondJump(g.(code := g.code[..|g.code|-1]), t);
            JumpedOn(g0, g, e, g, e, g1, e, pc, t, !c)
  {
    NotJumps(g0, g, e, c);
    NotTests(g, e, c);
  }

  lemma JumpOnCondLemma(g0: Gen, g: Gen, e: Exp, c: bool) returns (t: Instr)
    requires State(g0, g, e) && IsValue(e) && RegsOf(g0, g, e)
    ensures var (g1, e1, pc) := JumpOnCond(g, e, c); var (ga, ea) := Tested(g, e);
            JumpedOn(g0, g, e, ga, ea, g1, e1, pc, t, !c)
  {
    hide JumpedOn, CondJump, Discharge2AnyReg;
    if e.k.VRELOCABLE? && g.code[e.info].Not? {
      t := Test(g.code[e.info].b, !c);
      JumpOnCondNot(g0, g, e, c);
    } else {
      var r := Discharge2AnyReg(g, e);
      t := JumpOnCondFrom(g0, g, e, r.0, r.1, c);
    }
  }

  lemma JumpOnCondFrom(g0: Gen, g: Gen, e: Exp, ga: Gen, ea: Exp, c: bool) returns (t: Instr)
    requires State(g0, g, e) && IsValue(e) && RegsOf(g0, g, e) && (ga, ea) == Discharge2AnyReg(g, e)
    ensures var (g1, pc) := CondJump(FreeExp(ga, ea), TestSet(NO_REG, ea.info, c));
            JumpedOn(g0, g, e, ga, ea, g1, ea, pc, t, !c)
  {
    t := TestSet(NO_REG, ea.info, c);
    Discharge2AnyRegLemma(g0, g, e);
    JumpOnCondInReg(g0, ga, ea, c);
  }

  lemma InvertLemma(g0: Gen, g: Gen, e: Exp)
    requires State(g0, g, e) && e.k.VJMP?
    ensures var g' := InvertJump(g, e); var c := g.code[e.info-1];
            && State(g0, g', e) && g' == g.(code := g'.code)
            && g'.code == g.code[e.info - 1 := Compare(c.cmp, !c.cond, c.b, c.c)]
            && Body(g', e) == Body(g, e)
  {
    var c := g.code[e.info-1];
    PutLemma(g0, g, e, e.info - 1, Compare(c.cmp, !c.cond, c.b, c.c));
  }

  /** A comparison already ends with its jump. */
  lemma CompareJumps(g0: Gen, g: Gen, e: Exp)
    requires State(g0, g, e) && e.k.VJMP?
    ensures Jumped(g0, g, e, g, g.code[e.info-1]) && [e.info] == [|Body(g, e)| + 1]
    ensures TestsFor(g, e, g.code[e.info-1], false)
  {
    PatchedNone(g.code, |g.code|, NO_REG, |g.code|);
  }

  lemma InvertedJumps(g0: Gen, g: Gen, e: Exp)
    requires State(g0, g, e) && e.k.VJMP?
    ensures var g' := InvertJump(g, e);
            && Jumped(g0, g, e, g', g'.code[e.info-1]) && TestsFor(g, e, g'.code[e.info-1], true)
  {
    InvertLemma(g0, g, e);
    var g' := InvertJump(g, e);
    PatchedNone(g.code, |g.code|, NO_REG, |g.code|);
    assert g'.code[..e.info-1] == g.code[..e.info-1];
  }

  lemma RelinkedRun(env: Env, code: seq<Instr>, code': seq<Instr>, P: set<int>, lo: nat, entries: seq<int>, i: int,
                    R: Regs)
    requires Relinked(code, code', P) && lo <= |code| && (i == -1 || i in entries)
    requires forall j :: j in entries ==> 0 <= j < lo && code[j].Jmp? && (j in P || j + 1 + code[j].sbx >= lo)
    ensures Enter(env, code', P, lo, i, R) == Enter(env, code, P, lo, i, R)
    ensures var o := Enter(env, code, P, lo, i, R); o.Exit? ==> o.j in P && 0 <= o.j < |code|
  {
    if 0 < lo < |code| { assert IsTest(code'[lo-1]) == IsTest(code[lo-1]); }
    forall k | 0 <= k < |code|
      ensures Kept(code, P, code', P, k)
    {
      assert if k in P then code'[k].Jmp? else code'[k] == code[k];
    }
    EnterContinues(env, code, P, code', P, lo, entries, i, R);
    ExitIsPending(env, code, P, lo, R);
    if i >= 0 { JumpExitIsPending(env, code, P, i, R); }
    var o := Enter(env, code, P, lo, i, R);
    if o.Exit? { assert code'[o.j].Jmp?; }
  }

  lemma RelinkedJumpValue(code: seq<Instr>, code': seq<Instr>, P: set<int>, j: int, R: Regs, b: bool)
    requires Relinked(code, code', P) && 0 <= j < |code|
    ensures IsValueJump(code', j) == IsValueJump(code, j)
    ensures JumpValue(code', j, R, b) == JumpValue(code, j, R, b)
  {
    if j > 0 { assert if j - 1 in P then code[j-1].Jmp? && code'[j-1].Jmp? else code'[j-1] == code[j-1]; }
  }

  /** The state after luaK_goiftrue or luaK_goiffalse. */
  ghost predicate BranchState(g0: Gen, g: Gen, e: Exp, cond: bool) {
    && Wf(g0) && Wf(g) && Extends(g0, g) && WfLists(g0, g, e)
    && g.freereg == g0.freereg && (if cond then e.ts == [] else e.fs == [])
  }

  /** Is e a constant whose truth value is known to be `cond`, so that no jump is emitted? */
  predicate NoJumpFor(e: Exp, cond: bool) {
    if cond then e.k.VTRUE? || e.k.VK? || e.k.VKNUM? else e.k.VFALSE?
  }

  /** Is e a literal of the other truth value, so that the jump is unconditional? */
  predicate AlwaysJumps(e: Exp, cond: bool) {
    if cond then e.k.VFALSE? else e.k.VTRUE?
  }

  lemma AimedFacts(g0: Gen, code: seq<Instr>, P: set<int>)
    requires Wf(g0) && Aimed(g0, code, P)
    ensures forall j :: j in g0.held ==>
              0 <= j < |g0.code| && j < |code| && code[j].Jmp? && (j in P || j + 1 + code[j].sbx >= |g0.code|)
  {
    forall j | j in g0.held
      ensures 0 <= j < |g0.code| && j < |code| && code[j].Jmp? && (j in P || j + 1 + code[j].sbx >= |g0.code|)
    {
      InRange(g0.code, g0.held, j);
      assert j in P || j !in P;
    }
  }

  lemma StillReady(g0: Gen, g: Gen, e: Exp)
    requires State(g0, g, e)
    ensures ReadyToClose(g0, g, e, [])
  {
    AimedMore(g0, g.code, Pending(g, e), Pending(g, e) + Elems([]));
  }

  /** g3 is g with its jumps relinked; the other list joined the jumps on hold. */
  ghost predicate StillOn(g: Gen, e: Exp, cond: bool, g3: Gen, e3: Exp) {
    && Relinked(g.code, g3.code, Pending(g, e)) && Pending(g3, e3) == Pending(g, e)
    && g3.held == g.held + (if cond then e.ts else e.fs)
    && e3.ts == (if cond then [] else e.ts) && e3.fs == if cond then e.fs else []
  }

  /** A constant operand that decides nothing adds no code. */
  lemma StillBranchAt(E: Expr, cond: bool, g0: Gen, g: Gen, e: Exp, g3: Gen, e3: Exp, env: Env, R: Regs, i: int)
    requires State(g0, g, e) && NoJumpFor(e, cond)
    requires Covers(env, g) && Entry(g0, i) && MeaningAt(E, g0, g, e, env, R, i)
    requires StillOn(g, e, cond, g3, e3)
    ensures BranchAt(E, cond, g0, g3, e3, env, R, i)
  {
    var P := Pending(g, e);
    AimedFacts(g0, g.code, P);
    RelinkedRun(env, g.code, g3.code, P, |g0.code|, g0.held, i, R);
    assert Body(g, e) == g.code;
    if !Enter(env, g.code, P, |g0.code|, i, R).Mixed? {
      StillBranches(E, cond, g0, g, e, g3, e3, env, R, i, Enter(env, g.code, P, |g0.code|, i, R));
    }
  }

  lemma StillBranches(E: Expr, cond: bool, g0: Gen, g: Gen, e: Exp, g3: Gen, e3: Exp, env: Env, R: Regs, i: int,
                      o: Outcome)
    requires StillOn(g, e, cond, g3, e3)
    requires (o.End? || (o.Exit? && 0 <= o.j < |g.code|)) && Agree(R, o.regs, g0.freereg)
    requires var v := Eval(E, env, R);
             (Arrives(g.held, o) && IsFalse(v) != cond) || (o.Exit? && Leaves(g.code, e, o.j, o.regs, v))
    requires Enter(env, g3.code, Pending(g3, e3), |g0.code|, i, R) == o
    ensures BranchAt(E, cond, g0, g3, e3, env, R, i)
  {
    if o.Exit? {
      RelinkedJumpValue(g.code, g3.code, Pending(g, e), o.j, o.regs, true);
      RelinkedJumpValue(g.code, g3.code, Pending(g, e), o.j, o.regs, false);
      assert o.j in g.held || o.j in (if cond then e.ts else e.fs) ==> o.j in g3.held;
    }
  }

  lemma StillClosed(g0: Gen, g: Gen, e: Exp, cond: bool)
    requires State(g0, g, e)
    ensures var (g3, e3) := Close(g, e, [], cond);
            && Wf(g3) && Extends(g0, g3) && WfLists(g0, g3, e3) && StillOn(g, e, cond, g3, e3)
            && g3 == g.(code := g3.code, held := g3.held, err := g3.err) && (g.err ==> g3.err)
  {
    StillReady(g0, g, e);
    CloseLemma(g0, g, e, [], cond);
    assert e.fs + [] == e.fs && e.ts + [] == e.ts;
  }

  lemma LiteralReady(g0: Gen, g: Gen, e: Exp)
    requires State(g0, g, e)
    ensures var (g1, e1, pc) := LiteralJump(g, e); var n := |g.code|;
            && ReadyToClose(g0, g1, e1, pc) && e1 == e && pc == [n] + g.held
            && |g1.code| == n + 1 && Relinked(g.code + [Jmp(NO_JUMP)], g1.code, {n})
            && g1 == g.(code := g1.code, held := [], err := g1.err, mixed := g1.mixed) && (g.err ==> g1.err)
            && g1.mixed == g.mixed + ValueJumps(g.code, g.held, e.k.VTRUE?)
  {
    var n, gm := |g.code|, g.(mixed := g.mixed + ValueJumps(g.code, g.held, e.k.VTRUE?));
    EmitJumpLemma(gm);
    var (g1, e1, pc) := LiteralJump(g, e);
    assert forall k :: 0 <= k < n ==> g1.code[k] == g1.code[..n][k] == g.code[k];
    forall k | 0 <= k < |g0.code|
      ensures BelowAt(g0, g1, k)
    {
      assert BelowAt(g0, g, k);
    }
    PrefixKeeps(g.code, g1.code, e.ts);
    PrefixKeeps(g.code, g1.code, e.fs);
    ListsInRange(e, g.code);
    assert n !in Lists(e);
    assert Disjoint(e.ts, pc);
    assert Disjoint(e.fs, pc);
    AimedFacts(g0, g.code, Pending(g, e));
    assert Pending(g1, e) + Elems(pc) == Pending(g, e) + {n};
  }

  lemma RelinkedSuperset(a: seq<Instr>, b: seq<Instr>, s: set<int>, t: set<int>)
    requires Relinked(a, b, s) && s <= t && forall k :: k in t && 0 <= k < |a| ==> a[k].Jmp?
    ensures Relinked(a, b, t)
  {
    forall k | 0 <= k < |a|
      ensures if k in t then a[k].Jmp? && b[k].Jmp? else b[k] == a[k]
    {
      assert if k in s then b[k].Jmp? else b[k] == a[k];
    }
  }

  /** The run up to an unconditional jump at the end leaves by that jump. */
  lemma RunIntoJump(env: Env, code: seq<Instr>, P: set<int>, lo: nat, entries: seq<int>, i: int, R: Regs)
    requires lo <= |code| && TestsPaired(code) && (i == -1 || i in entries)
    requires forall k :: k in P ==> 0 <= k < |code| && code[k].Jmp?
    requires forall j :: j in entries ==> 0 <= j < lo && code[j].Jmp? && (j in P || j + 1 + code[j].sbx >= lo)
    requires Enter(env, code, P, lo, i, R) != Stuck
    ensures var c, n := code + [Jmp(NO_JUMP)], |code|; var o := Enter(env, code, P, lo, i, R);
            Enter(env, c, P + {n}, lo, i, R) == if o.End? then Exit(n, o.regs) else o
  {
    var c, n := code + [Jmp(NO_JUMP)], |code|;
    assert c[..n] == code;
    forall k | 0 <= k < n ensures Kept(code, P, c, P + {n}, k) { }
    EnterContinues(env, code, P, c, P + {n}, lo, entries, i, R);
    ExitIsPending(env, code, P, lo, R);
    if i >= 0 { JumpExitIsPending(env, code, P, i, R); }
    var o := Enter(env, code, P, lo, i, R);
    if o.End? {
      assert c[n] == Jmp(NO_JUMP) && (n > 0 ==> c[n-1] == code[n-1] && !IsTest(code[n-1]));
      assert Run(env, c, P + {n}, n, o.regs) == Jump(env, c, P + {n}, n, o.regs);
    } else if o.Exit? {
      assert c[o.j] == code[o.j];
    }
  }

  /** g3 ends with an unconditional jump; it joined the exits of e, and so did the jumps on hold. */
  ghost predicate LiteralOn(g: Gen, e: Exp, cond: bool, g3: Gen, e3: Exp) {
    var n := |g.code|;
    && Relinked(g.code + [Jmp(NO_JUMP)], g3.code, Pending(g, e) + {n}) && Pending(g3, e3) == Pending(g, e) + {n}
    && g3.held == (if cond then e.ts else e.fs)
    && e3.ts == (if cond then [] else e.ts + ([n] + g.held)) && e3.fs == if cond then e.fs + ([n] + g.held) else []
  }

  lemma StateLists(g0: Gen, g: Gen, e: Exp)
    requires State(g0, g, e)
    ensures Wf(g) && Threaded(g.code, e.ts) && Threaded(g.code, e.fs)
  {
  }

  lemma LiteralClosed(g0: Gen, g: Gen, e: Exp, cond: bool)
    requires State(g0, g, e)
    ensures var (g1, e1, pc) := LiteralJump(g, e); var (g3, e3) := Close(g1, e1, pc, cond);
            && Wf(g3) && Extends(g0, g3) && WfLists(g0, g3, e3) && LiteralOn(g, e, cond, g3, e3)
            && g3 == g.(code := g3.code, held := g3.held, err := g3.err, mixed := g3.mixed) && (g.err ==> g3.err)
            && g3.mixed == g.mixed + ValueJumps(g.code, g.held, e.k.VTRUE?)
  {
    hide LiteralJump, ReadyToClose, Concat, PatchToHere, State, Wf, Extends, WfLists, ValueJumps, Threaded;
    var (g1, e1, pc) := LiteralJump(g, e);
    var n, c := |g.code|, g.code + [Jmp(NO_JUMP)];
    LiteralReady(g0, g, e);
    CloseLemma(g0, g1, e1, pc, cond);
    var (g3, e3) := Close(g1, e1, pc, cond);
    assert Pending(g1, e) == Lists(e);
    RelinkedTrans(c, g1.code, g3.code, {n}, Lists(e));
    StateLists(g0, g, e);
    PendingJumps(g, e);
    RelinkedSuperset(c, g3.code, {n} + Lists(e), Pending(g, e) + {n});
    assert Pending(g1, e) + Elems(pc) == Pending(g, e) + {n};
  }

  lemma PendingJumps(g: Gen, e: Exp)
    requires Wf(g) && Threaded(g.code, e.ts) && Threaded(g.code, e.fs)
    ensures forall k :: k in Pending(g, e) ==> 0 <= k < |g.code| && g.code[k].Jmp?
  {
    ListsInRange(e, g.code);
    forall k | k in Pending(g, e) ensures 0 <= k < |g.code| && g.code[k].Jmp? {
      if k in g.held { InRange(g.code, g.held, k); }
    }
  }

  lemma LiteralRun(g0: Gen, g: Gen, e: Exp, cond: bool, g3: Gen, e3: Exp, env: Env, R: Regs, i: int)
    requires State(g0, g, e) && Entry(g0, i) && LiteralOn(g, e, cond, g3, e3)
    requires Enter(env, g.code, Pending(g, e), |g0.code|, i, R) != Stuck
    ensures var o := Enter(env, g.code, Pending(g, e), |g0.code|, i, R);
            && Enter(env, g3.code, Pending(g3, e3), |g0.code|, i, R) == (if o.End? then Exit(|g.code|, o.regs) else o)
            && (o.Exit? ==> 0 <= o.j < |g.code| && !Differs(env, g.code, o.j, o.regs))
  {
    var P, n, c := Pending(g, e), |g.code|, g.code + [Jmp(NO_JUMP)];
    AimedFacts(g0, g.code, P);
    PendingJumps(g, e);
    RunIntoJump(env, g.code, P, |g0.code|, g0.held, i, R);
    RelinkedRun(env, c, g3.code, P + {n}, |g0.code|, g0.held, i, R);
    ExitIsPending(env, g.code, P, |g0.code|, R);
    if i >= 0 { JumpExitIsPending(env, g.code, P, i, R); }
  }

  lemma LiteralFacts(g0: Gen, g: Gen, e: Exp, cond: bool, g3: Gen, e3: Exp)
    requires State(g0, g, e) && AlwaysJumps(e, cond)
    ensures Wf(g) && Body(g, e) == g.code
    ensures forall env: Env, R: Regs :: Direct(g, e, env, R) == Boolean(!cond)
  {
  }

  lemma LiteralBranchAt(E: Expr, cond: bool, g0: Gen, g: Gen, e: Exp, g3: Gen, e3: Exp, env: Env, R: Regs, i: int)
    requires State(g0, g, e) && AlwaysJumps(e, cond) && Entry(g0, i) && MeaningAt(E, g0, g, e, env, R, i)
    requires LiteralOn(g, e, cond, g3, e3) && ValueJumps(g.code, g.held, !cond) <= env.watch
    ensures BranchAt(E, cond, g0, g3, e3, env, R, i)
  {
    hide Run, Jump, Eval, Differs, Leaves, State, LiteralOn, ValueJumps, Direct;
    LiteralFacts(g0, g, e, cond, g3, e3);
    LiteralRun(g0, g, e, cond, g3, e3, env, R, i);
    var o := Enter(env, g.code, Pending(g, e), |g0.code|, i, R);
    if o.Mixed? { return; }
    if o.Exit? && o.j in g.held && IsValueJump(g.code, o.j) { WatchedValue(env, g.code, g.held, !cond, o.j, o.regs); }
    LiteralBranches(E, cond, g0, g, e, g3, e3, env, R, i, Enter(env, g.code, Pending(g, e), |g0.code|, i, R));
  }

  /** A value jump at a literal that the machine did not stop at has the value of the literal. */
  lemma WatchedValue(env: Env, code: seq<Instr>, held: seq<int>, literal: bool, j: int, S: Regs)
    requires ValueJumps(code, held, literal) <= env.watch && j in held && IsValueJump(code, j)
    requires !Differs(env, code, j, S)
    ensures Get(S, code[j-1].b) == Boolean(literal)
  {
    assert (j, literal) in ValueJumps(code, held, literal);
  }

  /** A jump on hold at a literal carries no value, or that of the literal. */
  predicate HeldAgrees(code: seq<Instr>, j: int, S: Regs, literal: bool) {
    IsValueJump(code, j) ==> Get(S, code[j-1].b) == Boolean(literal)
  }

  lemma LiteralBranches(E: Expr, cond: bool, g0: Gen, g: Gen, e: Exp, g3: Gen, e3: Exp, env: Env, R: Regs, i: int,
                        o: Outcome)
    requires Wf(g) && LiteralOn(g, e, cond, g3, e3) && AlwaysJumps(e, cond)
    requires o.Exit? && o.j in g.held ==> HeldAgrees(g.code, o.j, o.regs, !cond)
    requires (o.End? || (o.Exit? && 0 <= o.j < |g.code|)) && Agree(R, o.regs, g0.freereg)
    requires || (Arrives(g.held, o) && Eval(E, env, R) == Boolean(!cond))
             || (o.Exit? && Leaves(g.code, e, o.j, o.regs, Eval(E, env, R)))
    requires Enter(env, g3.code, Pending(g3, e3), |g0.code|, i, R) == if o.End? then Exit(|g.code|, o.regs) else o
    ensures BranchAt(E, cond, g0, g3, e3, env, R, i)
  {
    LiteralLeaves(E, cond, g, e, g3, e3, env, R, o);
  }

  lemma LiteralLeaves(E: Expr, cond: bool, g: Gen, e: Exp, g3: Gen, e3: Exp, env: Env, R: Regs, o: Outcome)
    requires Wf(g) && LiteralOn(g, e, cond, g3, e3)
    requires o.Exit? && o.j in g.held ==> HeldAgrees(g.code, o.j, o.regs, !cond)
    requires o.End? || (o.Exit? && 0 <= o.j < |g.code|)
    ensures o.End? || o.j in g.held ==> Leaves(g3.code, e3, if o.End? then |g.code| else o.j, o.regs, Boolean(!cond))
    ensures forall v :: o.Exit? && Leaves(g.code, e, o.j, o.regs, v) ==>
              (o.j in g3.held && IsFalse(v) != cond) || Leaves(g3.code, e3, o.j, o.regs, v)
  {
    var n, c := |g.code|, g.code + [Jmp(NO_JUMP)];
    var j := if o.End? then n else o.j;
    RelinkedJumpValue(c, g3.code, Pending(g, e) + {n}, j, o.regs, true);
    RelinkedJumpValue(c, g3.code, Pending(g, e) + {n}, j, o.regs, false);
    assert j > 0 ==> c[j-1] == g.code[j-1];
    assert j in [n] + g.held ==> j in (if cond then e3.fs else e3.ts);
    assert j in (if cond then e.fs else e.ts) ==> j in (if cond then e3.fs else e3.ts);
  }

  /** What a call of goiftrue or goiffalse establishes; the value jumps that were put behind the
      jump of a literal are in `mixed`. */
  ghost predicate Branched(E: Expr, cond: bool, g0: Gen, g: Gen, e: Exp, g3: Gen, e3: Exp) {
    && BranchState(g0, g3, e3, cond) && g.k <= g3.k && (g.err ==> g3.err) && g.mixed <= g3.mixed
    && (Meaning(E, g0, g, e) ==> Branch(E, cond, g0, g3, e3))
  }

  lemma StillBranched(E: Expr, cond: bool, g0: Gen, g: Gen, e: Exp)
    requires State(g0, g, e) && RegsOf(g0, g, e) && NoJumpFor(e, cond)
    ensures var (g3, e3) := Close(g, e, [], cond); Branched(E, cond, g0, g, e, g3, e3)
  {
    var (g3, e3) := Close(g, e, [], cond);
    StillClosed(g0, g, e, cond);
    if Meaning(E, g0, g, e) {
      forall env: Env, R: Regs, i | Covers(env, g3) && Entry(g0, i)
        ensures BranchAt(E, cond, g0, g3, e3, env, R, i)
      {
        assert MeaningAt(E, g0, g, e, env, R, i);
        StillBranchAt(E, cond, g0, g, e, g3, e3, env, R, i);
      }
    }
  }

  lemma LiteralShape(g0: Gen, g: Gen, e: Exp, cond: bool, g3: Gen, e3: Exp)
    requires State(g0, g, e) && RegsOf(g0, g, e) && AlwaysJumps(e, cond) && LiteralOn(g, e, cond, g3, e3)
    requires Wf(g3) && Extends(g0, g3) && WfLists(g0, g3, e3) && g3.freereg == g.freereg
    ensures BranchState(g0, g3, e3, cond)
  {
  }

  lemma LiteralBranched(E: Expr, cond: bool, g0: Gen, g: Gen, e: Exp)
    requires State(g0, g, e) && RegsOf(g0, g, e) && AlwaysJumps(e, cond)
    ensures var (g1, e1, pc) := LiteralJump(g, e); var (g3, e3) := Close(g1, e1, pc, cond);
            Branched(E, cond, g0, g, e, g3, e3)
  {
    hide LiteralJump, Close, LiteralOn, State, WfLists, Run, ValueJumps, MeaningAt, BranchAt;
    var (g1, e1, pc) := LiteralJump(g, e);
    var (g3, e3) := Close(g1, e1, pc, cond);
    LiteralClosed(g0, g, e, cond);
    LiteralShape(g0, g, e, cond, g3, e3);
    if Meaning(E, g0, g, e) {
      forall env: Env, R: Regs, i | Covers(env, g3) && Entry(g0, i)
        ensures BranchAt(E, cond, g0, g3, e3, env, R, i)
      {
        assert MeaningAt(E, g0, g, e, env, R, i);
        LiteralBranchAt(E, cond, g0, g, e, g3, e3, env, R, i);
      }
    }
  }

  lemma JumpBranched(E: Expr, cond: bool, g0: Gen, g: Gen, e: Exp, g1: Gen, e1: Exp, t: Instr)
    requires State(g0, g, e) && Jumped(g0, g, e, g1, t) && TestsFor(g, e, t, cond)
    requires e1.ts == e.ts && e1.fs == e.fs && g1.freereg == g0.freereg && g1.k == g.k
    requires (g.err ==> g1.err) && g1.mixed == g.mixed
    ensures var (g3, e3) := Close(g1, e1, [|Body(g, e)| + 1], cond); Branched(E, cond, g0, g, e, g3, e3)
  {
    var (g3, e3) := Close(g1, e1, [|Body(g, e)| + 1], cond);
    JumpedClosed(g0, g, e, g1, e1, t, cond);
    if Meaning(E, g0, g, e) {
      forall env: Env, R: Regs, i | Covers(env, g3) && Entry(g0, i)
        ensures BranchAt(E, cond, g0, g3, e3, env, R, i)
      {
        assert MeaningAt(E, g0, g, e, env, R, i);
        ClosedBranchAt(E, cond, g0, g, e, t, g3, e3, env, R, i);
      }
    }
  }

  lemma TestedMeaning(E: Expr, g0: Gen, g: Gen, e: Exp)
    requires State(g0, g, e) && IsValue(e) && RegsOf(g0, g, e) && Meaning(E, g0, g, e)
    ensures Meaning(E, g0, Tested(g, e).0, Tested(g, e).1)
  {
    if !(e.k.VRELOCABLE? && g.code[e.info].Not?) { Discharge2AnyRegMeaning(E, g0, g, e); }
  }

  lemma JumpOnCondBranched(E: Expr, cond: bool, g0: Gen, g: Gen, e: Exp)
    requires State(g0, g, e) && IsValue(e) && RegsOf(g0, g, e)
    ensures var (g1, e1, pc) := JumpOnCond(g, e, !cond); var (g3, e3) := Close(g1, e1, pc, cond);
            Branched(E, cond, g0, g, e, g3, e3)
  {
    hide JumpOnCond, Tested, Close, State, Meaning, Branch, BranchState, Jumped, TestsFor;
    var t := JumpOnCondLemma(g0, g, e, !cond);
    var r, s := Tested(g, e), JumpOnCond(g, e, !cond);
    TestedErr(g0, g, e);
    JumpBranched(E, cond, g0, r.0, r.1, s.0, s.1, t);
    if Meaning(E, g0, g, e) { TestedMeaning(E, g0, g, e); }
  }

  lemma TestedErr(g0: Gen, g: Gen, e: Exp)
    requires State(g0, g, e) && IsValue(e) && RegsOf(g0, g, e)
    ensures var r := Tested(g, e).0; (g.err ==> r.err) && r.mixed == g.mixed
  {
    if !(e.k.VRELOCABLE? && g.code[e.info].Not?) { Discharge2AnyRegLemma(g0, g, e); }
  }

  lemma CompareBranched(E: Expr, cond: bool, g0: Gen, g: Gen, e: Exp)
    requires State(g0, g, e) && RegsOf(g0, g, e) && e.k.VJMP?
    ensures var g1 := if cond then InvertJump(g, e) else g; var (g3, e3) := Close(g1, e, [e.info], cond);
            Branched(E, cond, g0, g, e, g3, e3)
  {
    CompareJumps(g0, g, e);
    if cond {
      InvertLemma(g0, g, e);
      InvertedJumps(g0, g, e);
      JumpBranched(E, cond, g0, g, e, InvertJump(g, e), e, InvertJump(g, e).code[e.info-1]);
    } else {
      JumpBranched(E, cond, g0, g, e, g, e, g.code[e.info-1]);
    }
  }

  lemma BranchJumpLemma(E: Expr, cond: bool, g0: Gen, g: Gen, e: Exp)
    requires State(g0, g, e) && RegsOf(g0, g, e) && !e.k.VLOCAL? && !e.k.VUPVAL?
    ensures var (g1, e1, pc) := BranchJump(g, e, cond); var (g3, e3) := Close(g1, e1, pc, cond);
            Branched(E, cond, g0, g, e, g3, e3)
  {
    if NoJumpFor(e, cond) { StillBranched(E, cond, g0, g, e); }
    else if AlwaysJumps(e, cond) { LiteralBranched(E, cond, g0, g, e); }
    else if e.k.VJMP? { CompareBranched(E, cond, g0, g, e); }
    else { JumpOnCondBranched(E, cond, g0, g, e); }
  }

  /** luaK_goiftrue and luaK_goiffalse. */
  lemma GoIfLemma(E: Expr, cond: bool, g0: Gen, g: Gen, e: Exp)
    requires State(g0, g, e) && RegsOf(g0, g, e)
    ensures Branched(E, cond, g0, g, e, GoIf(g, e, cond).0, GoIf(g, e, cond).1)
  {
    var r := DischargeVars(g, e);
    DischargeVarsLemma(g0, g, e);
    if Meaning(E, g0, g, e) { DischargeVarsMeaning(E, g0, g, e); }
    BranchJumpLemma(E, cond, g0, r.0, r.1);
  }

  // ----- not -----

  /** Like MeaningAt, but the value at the end is the negation of the value of E; the exits are those of E. */
  ghost predicate NegatedAt(E: Expr, g0: Gen, g: Gen, e: Exp, env: Env, R: Regs, i: int) {
    var o, v := Enter(env, Body(g, e), Pending(g, e), |g0.code|, i, R), Eval(E, env, R);
    || o.Mixed?
    || (Arrives(g.held, o) && Agree(R, o.regs, g0.freereg) && Direct(g, e, env, o.regs) == Boolean(IsFalse(v)))
    || (o.Exit? && Agree(R, o.regs, g0.freereg) && Leaves(Body(g, e), e, o.j, o.regs, v))
  }

  ghost predicate Negated(E: Expr, g0: Gen, g: Gen, e: Exp) {
    forall env: Env, R: Regs, i :: Covers(env, g) && Entry(g0, i) ==> NegatedAt(E, g0, g, e, env, R, i)
  }

  lemma NegatedInPlace(E: Expr, g0: Gen, g: Gen, e: Exp, g1: Gen, e1: Exp)
    requires Meaning(E, g0, g, e) && g1.k == g.k && g1.mixed == g.mixed
    requires Body(g1, e1) == Body(g, e) && g1.held == g.held && e1.ts == e.ts && e1.fs == e.fs
    requires forall env: Env, R: Regs {:trigger Direct(g1, e1, env, R)} :: g.k <= env.k ==>
               Direct(g1, e1, env, R) == Boolean(IsFalse(Direct(g, e, env, R)))
    ensures Negated(E, g0, g1, e1)
  {
    forall env: Env, R: Regs, i | Covers(env, g1) && Entry(g0, i)
      ensures NegatedAt(E, g0, g1, e1, env, R, i)
    {
      assert MeaningAt(E, g0, g, e, env, R, i);
      assert Pending(g1, e1) == Pending(g, e);
    }
  }

  ghost predicate NotDone(E: Expr, g0: Gen, g: Gen, e: Exp, g1: Gen, e1: Exp) {
    && State(g0, g1, e1) && RegsOf(g0, g1, e1) && !e1.k.VLOCAL? && !e1.k.VUPVAL? && !e1.k.VK?
    && e1.ts == e.ts && e1.fs == e.fs && g.k <= g1.k && (g.err ==> g1.err) && g1.mixed == g.mixed
    && (Meaning(E, g0, g, e) ==> Negated(E, g0, g1, e1))
  }

  /** A NOT behind an expression that sits in a register. */
  lemma EmitNot(E: Expr, g0: Gen, g: Gen, e: Exp)
    requires State(g0, g, e) && RegsOf(g0, g, e) && e.k.VNONRELOC?
    ensures var gf := FreeExp(g, e);
            NotDone(E, g0, g, e, Emit(gf, Not(0, e.info)), e.(k := VRELOCABLE, info := |g.code|))
  {
    var gf := FreeExp(g, e);
    FreeExpLemma(g0, g, e);
    EmitLemma(gf, Not(0, e.info));
    var g1, e1 := Emit(gf, Not(0, e.info)), e.(k := VRELOCABLE, info := |g.code|);
    SettledExtends(g, g1);
    ExtendsTrans(g0, g, g1);
    ListsKept(g0, g, e, g1);
    SameLists(g0, g1, e, e1);
    assert Body(g1, e1) == Settled(g);
    if Meaning(E, g0, g, e) {
      forall env: Env, R: Regs, i | Covers(env, g1) && Entry(g0, i)
        ensures NegatedAt(E, g0, g1, e1, env, R, i)
      {
        assert MeaningAt(E, g0, g, e, env, R, i);
        NotArrives(E, g0, g, e, g1, e1, env, R, i);
      }
    }
  }

  lemma NotArrives(E: Expr, g0: Gen, g: Gen, e: Exp, g1: Gen, e1: Exp, env: Env, R: Regs, i: int)
    requires State(g0, g, e) && Entry(g0, i) && MeaningAt(E, g0, g, e, env, R, i) && e.k.VNONRELOC?
    requires Body(g1, e1) == Settled(g) && g1.held == [] && e1 == e.(k := VRELOCABLE, info := |g.code|)
    requires InstrAt(g1.code, e1.info) == Not(0, e.info)
    ensures NegatedAt(E, g0, g1, e1, env, R, i)
  {
    SettledFrame(g, e.ts);
    SettledFrame(g, e.fs);
    ListsInRange(e, Settled(g));
    assert Pending(g1, e1) == Lists(e);
    var o := Resume(g0, g, e, Settled(g), Lists(e), env, R, i);
  }

  lemma NotCompare(E: Expr, g0: Gen, g: Gen, e: Exp)
    requires State(g0, g, e) && RegsOf(g0, g, e) && e.k.VJMP?
    ensures NotDone(E, g0, g, e, InvertJump(g, e), e)
  {
    InvertLemma(g0, g, e);
    if Meaning(E, g0, g, e) { NegatedInPlace(E, g0, g, e, InvertJump(g, e), e); }
  }

  lemma NotConstant(E: Expr, g0: Gen, g: Gen, e: Exp, k: Kind)
    requires State(g0, g, e) && RegsOf(g0, g, e)
    requires if e.k.VFALSE? then k.VTRUE? else k.VFALSE? && (e.k.VTRUE? || e.k.VK? || e.k.VKNUM?)
    ensures NotDone(E, g0, g, e, g, e.(k := k))
  {
    SameLists(g0, g, e, e.(k := k));
    if Meaning(E, g0, g, e) { NegatedInPlace(E, g0, g, e, g, e.(k := k)); }
  }

  lemma NotInRegister(E: Expr, g0: Gen, g: Gen, e: Exp)
    requires State(g0, g, e) && RegsOf(g0, g, e) && (e.k.VRELOCABLE? || e.k.VNONRELOC?)
    ensures NotDone(E, g0, g, e, NotValue(g, e).0, NotValue(g, e).1)
  {
    var r := Discharge2AnyReg(g, e);
    Discharge2AnyRegLemma(g0, g, e);
    EmitNot(E, g0, r.0, r.1);
    if Meaning(E, g0, g, e) { Discharge2AnyRegMeaning(E, g0, g, e); }
  }

  lemma NotValueLemma(E: Expr, g0: Gen, g: Gen, e: Exp)
    requires State(g0, g, e) && RegsOf(g0, g, e) && !e.k.VLOCAL? && !e.k.VUPVAL?
    ensures NotDone(E, g0, g, e, NotValue(g, e).0, NotValue(g, e).1)
  {
    match e.k {
      case VJMP => NotCompare(E, g0, g, e);
      case VRELOCABLE => NotInRegister(E, g0, g, e);
      case VNONRELOC => NotInRegister(E, g0, g, e);
      case VFALSE => NotConstant(E, g0, g, e, VTRUE);
      case _ => NotConstant(E, g0, g, e, VFALSE);
    }
  }

  /** removevalues on the lists of e: their TESTSETs become TESTs. */
  ghost predicate ValuesDropped(code: seq<Instr>, code': seq<Instr>, s: set<int>) {
    && |code'| == |code|
    && forall k {:trigger code'[k]} :: 0 <= k < |code| ==>
         code'[k] == if code[k].TestSet? && k + 1 in s then Test(code[k].b, code[k].cond) else code[k]
  }

  lemma SwapListsDrops(g: Gen, e: Exp)
    ensures ValuesDropped(g.code, SwapLists(g, e).0.code, Lists(e))
  {
    var c1 := ValuesRemoved(g.code, e.ts);
    var c2 := ValuesRemoved(c1, e.fs);
    forall k | 0 <= k < |g.code|
      ensures c2[k] == if g.code[k].TestSet? && k + 1 in Lists(e) then Test(g.code[k].b, g.code[k].cond) else g.code[k]
    {
      assert c1[k] == if g.code[k].TestSet? && k + 1 in e.ts then Test(g.code[k].b, g.code[k].cond) else g.code[k];
    }
  }

  lemma DroppedLists(code: seq<Instr>, code': seq<Instr>, s: set<int>, u: seq<int>)
    requires ValuesDropped(code, code', s) && Threaded(code, u)
    ensures Threaded(code', u)
  {
    forall j | j in u
      ensures 0 <= j < |code| && code'[j] == code[j]
    {
      InRange(code, u, j);
    }
    ThreadedFrame(code, code', u);
  }

  lemma DroppedPaired(code: seq<Instr>, code': seq<Instr>, s: set<int>)
    requires ValuesDropped(code, code', s) && TestsPaired(code)
    ensures TestsPaired(code')
  {
    forall k | 0 <= k < |code'| && IsTest(code'[k])
      ensures k + 1 < |code'| && code'[k+1].Jmp?
    {
      assert IsTest(code[k]);
      assert code[k+1].Jmp?;
      assert code'[k+1] == code[k+1];
    }
  }

  lemma DroppedExtends(g0: Gen, g: Gen, g': Gen, s: set<int>)
    requires Wf(g0) && Wf(g) && Extends(g0, g) && ValuesDropped(g.code, g'.code, s) && g' == g.(code := g'.code)
    requires forall j :: j in s ==> j >= |g0.code| || j in g0.held
    ensures Extends(g0, g')
  {
    NoTestAtStart(g0, g);
    forall k | 0 <= k < |g0.code|
      ensures BelowAt(g0, g', k)
    {
      assert BelowAt(g0, g, k);
      assert g'.code[k] == if g.code[k].TestSet? && k + 1 in s then Test(g.code[k].b, g.code[k].cond) else g.code[k];
    }
  }

  lemma DroppedAimed(g0: Gen, code: seq<Instr>, code': seq<Instr>, s: set<int>, P: set<int>)
    requires Wf(g0) && Aimed(g0, code, P) && ValuesDropped(code, code', s)
    ensures Aimed(g0, code', P)
  {
    AimedFacts(g0, code, P);
    forall j | j in g0.held
      ensures 0 <= j < |code'| && code'[j].Jmp? && (j in P || j + 1 + code'[j].sbx >= |g0.code|)
    {
      assert code'[j] == code[j];
    }
  }

  lemma SwapListsState(g0: Gen, g: Gen, e: Exp)
    requires State(g0, g, e) && !e.k.VK?
    ensures State(g0, SwapLists(g, e).0, SwapLists(g, e).1)
  {
    var (g', e') := SwapLists(g, e);
    var s := Lists(e);
    SwapListsDrops(g, e);
    DroppedLists(g.code, g'.code, s, e.ts);
    DroppedLists(g.code, g'.code, s, e.fs);
    DroppedLists(g.code, g'.code, s, g.held);
    DroppedPaired(g.code, g'.code, s);
    DroppedExtends(g0, g, g', s);
    DroppedAimed(g0, g.code, g'.code, s, Pending(g, e));
    assert Pending(g', e') == Pending(g, e);
  }

  lemma DroppedRun(env: Env, code: seq<Instr>, code': seq<Instr>, s: set<int>, P: set<int>, lo: nat, entries: seq<int>,
                   i: int, R: Regs)
    requires ValuesDropped(code, code', s) && s <= P && lo <= |code| && (i == -1 || i in entries)
    requires forall k :: k in P ==> 0 <= k < |code| && code[k].Jmp?
    requires forall j :: j in entries ==> 0 <= j < lo && code[j].Jmp? && (j in P || j + 1 + code[j].sbx >= lo)
    ensures Enter(env, code', P, lo, i, R) == Enter(env, code, P, lo, i, R)
    ensures var o := Enter(env, code, P, lo, i, R); o.Exit? ==> o.j in P
  {
    if 0 < lo < |code| { assert IsTest(code'[lo-1]) == IsTest(code[lo-1]); }
    forall k | 0 <= k < |code|
      ensures Kept(code, P, code', P, k)
    {
      assert code'[k] == if code[k].TestSet? && k + 1 in s then Test(code[k].b, code[k].cond) else code[k];
    }
    EnterContinues(env, code, P, code', P, lo, entries, i, R);
    ExitIsPending(env, code, P, lo, R);
    if i >= 0 { JumpExitIsPending(env, code, P, i, R); }
    var o := Enter(env, code, P, lo, i, R);
    if o.Exit? { assert code'[o.j] == code[o.j]; }
  }

  lemma BodyDropped(g: Gen, e: Exp)
    requires (e.k.VRELOCABLE? ==> 0 <= e.info <= |g.code|) && (e.k.VJMP? ==> 0 <= e.info - 1 <= |g.code|)
    ensures var r := SwapLists(g, e);
            && ValuesDropped(Body(g, e), Body(r.0, r.1), Lists(e)) && Pending(r.0, r.1) == Pending(g, e)
            && r.0.held == g.held
            && r.1.k == e.k && r.1.info == e.info
  {
    SwapListsDrops(g, e);
  }

  lemma BodyPending(g0: Gen, g: Gen, e: Exp)
    requires State(g0, g, e)
    ensures forall k :: k in Pending(g, e) ==> 0 <= k < |Body(g, e)| && Body(g, e)[k].Jmp?
    ensures forall j :: j in g0.held ==>
              0 <= j < |g0.code| && Body(g, e)[j].Jmp? && (j in Pending(g, e) || j + 1 + Body(g, e)[j].sbx >= |g0.code|)
  {
    PendingJumps(g, e);
    AimedFacts(g0, g.code, Pending(g, e));
  }

  lemma SwapListsMeaning(E: Expr, g0: Gen, g: Gen, e: Exp)
    requires State(g0, g, e) && Negated(E, g0, g, e) && !e.k.VK? && !e.k.VLOCAL? && !e.k.VUPVAL?
    ensures Meaning(Negate(E), g0, SwapLists(g, e).0, SwapLists(g, e).1)
  {
    var (g', e') := SwapLists(g, e);
    BodyDropped(g, e);
    BodyPending(g0, g, e);
    forall env: Env, R: Regs, i | Covers(env, g') && Entry(g0, i)
      ensures MeaningAt(Negate(E), g0, g', e', env, R, i)
    {
      assert NegatedAt(E, g0, g, e, env, R, i);
      DroppedRun(env, Body(g, e), Body(g', e'), Lists(e), Pending(g, e), |g0.code|, g0.held, i, R);
      SwapListsDrops(g, e);
      DroppedMeaning(E, g0, g, e, g', e', env, R, i, Enter(env, Body(g, e), Pending(g, e), |g0.code|, i, R));
    }
  }

  lemma DroppedMeaning(E: Expr, g0: Gen, g: Gen, e: Exp, g': Gen, e': Exp, env: Env, R: Regs, i: int, o: Outcome)
    requires ValuesDropped(Body(g, e), Body(g', e'), Lists(e)) && ValuesDropped(g.code, g'.code, Lists(e))
    requires e' == e.(ts := e.fs, fs := e.ts) && g'.held == g.held
    requires var v := Eval(E, env, R);
             || o.Mixed?
             || (Arrives(g.held, o) && Agree(R, o.regs, g0.freereg) && Direct(g, e, env, o.regs) == Boolean(IsFalse(v)))
             || (o.Exit? && Agree(R, o.regs, g0.freereg) && Leaves(Body(g, e), e, o.j, o.regs, v))
    requires Enter(env, Body(g', e'), Pending(g', e'), |g0.code|, i, R) == o
    requires !e.k.VK? && !e.k.VLOCAL? && !e.k.VUPVAL?
    requires o.Exit? ==> 0 <= o.j < |Body(g, e)|
    ensures MeaningAt(Negate(E), g0, g', e', env, R, i)
  {
    if o.Exit? && o.j in Lists(e) && o.j > 0 {
      assert Body(g', e')[o.j-1] == if Body(g, e)[o.j-1].TestSet? && o.j - 1 + 1 in Lists(e)
                                    then Test(Body(g, e)[o.j-1].b, Body(g, e)[o.j-1].cond) else Body(g, e)[o.j-1];
      assert !IsValueJump(Body(g', e'), o.j);
    }
    if !o.Mixed? { DroppedDirect(g, e, g', e', env, o.regs); }
  }

  lemma DroppedDirect(g: Gen, e: Exp, g': Gen, e': Exp, env: Env, R: Regs)
    requires ValuesDropped(g.code, g'.code, Lists(e)) && e'.k == e.k && e'.info == e.info && e'.nval == e.nval
    ensures Direct(g', e', env, R) == Direct(g, e, env, R)
  {
    if e.k.VJMP? && 0 <= e.info - 1 < |g.code| {
      assert IsTest(g'.code[e.info-1]) == IsTest(g.code[e.info-1]);
    }
    if e.k.VRELOCABLE? && 0 <= e.info < |g.code| {
      assert IsLoad(g'.code[e.info]) ==> g'.code[e.info] == g.code[e.info];
      assert IsLoad(g.code[e.info]) ==> g'.code[e.info] == g.code[e.info];
    }
  }

  /** From (g, e), which means E, the generator got to (g', e'), which means E'. */
  ghost predicate Becomes(g0: Gen, E: Expr, g: Gen, e: Exp, E': Expr, g': Gen, e': Exp) {
    && State(g0, g', e') && RegsOf(g0, g', e')
    && g.k <= g'.k && (g.err ==> g'.err) && g.mixed <= g'.mixed
    && (Meaning(E, g0, g, e) && !g'.err ==> Meaning(E', g0, g', e'))
  }

  lemma SwapNegated(E: Expr, g0: Gen, g: Gen, e: Exp, g1: Gen, e1: Exp)
    requires NotDone(E, g0, g, e, g1, e1)
    ensures Becomes(g0, E, g, e, Negate(E), SwapLists(g1, e1).0, SwapLists(g1, e1).1)
  {
    SwapListsState(g0, g1, e1);
    if Meaning(E, g0, g, e) { SwapListsMeaning(E, g0, g1, e1); }
  }

  lemma DischargeVarsBecomes(E: Expr, g0: Gen, g: Gen, e: Exp)
    requires State(g0, g, e) && RegsOf(g0, g, e)
    ensures var (g', e') := DischargeVars(g, e);
            Becomes(g0, E, g, e, E, g', e') && !e'.k.VLOCAL? && !e'.k.VUPVAL?
  {
    DischargeVarsLemma(g0, g, e);
    if Meaning(E, g0, g, e) { DischargeVarsMeaning(E, g0, g, e); }
  }

  /** codenot */
  lemma CodeNotLemma(E: Expr, g0: Gen, g: Gen, e: Exp)
    requires State(g0, g, e) && RegsOf(g0, g, e)
    ensures Becomes(g0, E, g, e, Negate(E), CodeNot(g, e).0, CodeNot(g, e).1)
  {
    var r := DischargeVars(g, e);
    DischargeVarsBecomes(E, g0, g, e);
    var s := NotValue(r.0, r.1);
    NotValueLemma(E, g0, r.0, r.1);
    SwapNegated(E, g0, r.0, r.1, s.0, s.1);
  }

  // ----- putting the value into a register -----

  ghost predicate StoredAt(E: Expr, g0: Gen, g: Gen, reg: int, env: Env, R: Regs, i: int) {
    var o := Enter(env, g.code, Elems(g.held), |g0.code|, i, R);
    || o.Mixed?
    || (&& Arrives(g.held, o)
        && Get(o.regs, reg) == Eval(E, env, R)
        && forall r :: r < g0.freereg && r != reg ==> Get(o.regs, r) == Get(R, r))
  }

  /** The code puts the value of E into reg and changes no other register below g0.freereg. */
  ghost predicate Stored(E: Expr, g0: Gen, g: Gen, reg: int) {
    forall env: Env, R: Regs, i :: Covers(env, g) && Entry(g0, i) ==> StoredAt(E, g0, g, reg, env, R, i)
  }

  /** The code behind the body of e, before exp2reg patches the lists of e: n is the length of the body, pf
      and pt are the positions of the two loads, if `need`.  ts is the true list, with the jump of a comparison. */
  datatype Tail = Tail(n: nat, ts: seq<int>, fs: seq<int>, need: bool, pf: int, pt: int)

  /** exp2reg's last step. */
  function PatchBoth(g: Gen, t: Tail, reg: int): Gen {
    PatchList(PatchList(g, t.fs, |g.code|, reg, t.pf), t.ts, |g.code|, reg, t.pt)
  }

  ghost predicate BothAt(c: seq<Instr>, t: Tail, reg: int, F: seq<Instr>, k: int)
    requires 0 <= k < |c| == |F|
  {
    F[k] == if k in t.ts then Jmp((if IsValueJump(c, k) then |c| else t.pt) - (k + 1))
            else if k in t.fs then Jmp((if IsValueJump(c, k) then |c| else t.pf) - (k + 1))
            else if c[k].TestSet? && (k + 1 in t.ts || k + 1 in t.fs) then Retarget(c[k], reg)
            else c[k]
  }

  lemma PatchBothLemma(g: Gen, t: Tail, reg: int)
    requires Disjoint(t.ts, t.fs) && Jumps(g.code, t.ts) && Jumps(g.code, t.fs)
    ensures var g' := PatchBoth(g, t, reg);
            && |g'.code| == |g.code| && (forall k :: 0 <= k < |g.code| ==> BothAt(g.code, t, reg, g'.code, k))
            && g' == g.(code := g'.code, err := g'.err) && (g.err ==> g'.err)
  {
    var c, N := g.code, |g.code|;
    var c1 := Patched(c, t.fs, N, reg, t.pf);
    var F := Patched(c1, t.ts, N, reg, t.pt);
    forall k | 0 <= k < N
      ensures BothAt(c, t, reg, F, k)
    {
      assert F[k] == PatchedAt(c1, t.ts, N, reg, t.pt, k);
      assert c1[k] == PatchedAt(c, t.fs, N, reg, t.pf, k);
      if k > 0 { assert c1[k-1] == PatchedAt(c, t.fs, N, reg, t.pf, k - 1); }
    }
  }

  /** What PatchBoth is applied to. */
  ghost predicate TailOk(g: Gen, e: Exp, t: Tail, reg: int, c: seq<Instr>, held: seq<int>) {
    && t.n == |Body(g, e)| <= |c| && t.fs == e.fs && Disjoint(t.ts, t.fs) && Jumps(c, t.ts) && Jumps(c, t.fs)
    && t.ts == (if e.k.VJMP? then e.ts + [t.n + 1] else e.ts)
    && (forall k :: k in held ==> 0 <= k < |c| && c[k].Jmp? && k !in t.ts && k !in t.fs && (k < t.n ==> k in g.held))
    && (if t.need then |c| >= 2 && t.pf == |c| - 2 >= t.n && t.pt == |c| - 1
                       && c[t.pf] == LoadBool(reg, false, true) && c[t.pt] == LoadBool(reg, true, false)
        else forall j :: j in t.ts || j in t.fs ==> IsValueJump(c, j))
    && forall k {:trigger TailAt(g, e, t, c, held, k)} :: 0 <= k < t.n ==> TailAt(g, e, t, c, held, k)
  }

  ghost predicate TailAt(g: Gen, e: Exp, t: Tail, c: seq<Instr>, held: seq<int>, k: int)
    requires 0 <= k < |Body(g, e)| <= |c|
  {
    var body := Body(g, e);
    if k in Lists(e) then body[k].Jmp? && c[k].Jmp?
    else if k in g.held then body[k].Jmp? && c[k].Jmp? && (k in held || c[k] == Jmp(t.n - (k + 1)))
    else if body[k].TestSet? && k + 1 in g.held && k + 1 !in held then c[k] == Test(body[k].b, body[k].cond)
    else c[k] == body[k]
  }

  lemma TailContinues(g0: Gen, g: Gen, e: Exp, t: Tail, reg: int, c: seq<Instr>, held: seq<int>, F: seq<Instr>)
    requires State(g0, g, e) && TailOk(g, e, t, reg, c, held)
    requires |F| == |c| && forall k :: 0 <= k < |c| ==> BothAt(c, t, reg, F, k)
    ensures Continues(Body(g, e), Pending(g, e), F, Elems(held), |g0.code|, g0.held)
  {
    var body, n0 := Body(g, e), |g0.code|;
    BodyPending(g0, g, e);
    forall k | 0 <= k < t.n
      ensures Kept(body, Pending(g, e), F, Elems(held), k) && IsTest(F[k]) == IsTest(body[k])
    {
      assert TailAt(g, e, t, c, held, k);
      assert BothAt(c, t, reg, F, k);
    }
    assert n0 <= t.n;
  }

  ghost predicate OnlyReg(S: Regs, S': Regs, reg: int) {
    forall r :: r != reg ==> Get(S', r) == Get(S, r)
  }

  /** The two loads at the end of the code. */
  lemma RunLoads(env: Env, F: seq<Instr>, P: set<int>, n: nat, reg: int, S: Regs)
    requires |F| == n + 2 && F[n] == LoadBool(reg, false, true) && F[n+1] == LoadBool(reg, true, false)
    ensures Run(env, F, P, n, S) == End(S[reg := Boolean(false)])
    ensures Run(env, F, P, n + 1, S) == End(S[reg := Boolean(true)])
  {
    assert Run(env, F, P, n + 2, S[reg := Boolean(false)]) == End(S[reg := Boolean(false)]);
    assert Run(env, F, P, n + 2, S[reg := Boolean(true)]) == End(S[reg := Boolean(true)]);
  }

  lemma LoadsKept(g: Gen, e: Exp, t: Tail, reg: int, c: seq<Instr>, held: seq<int>, F: seq<Instr>)
    requires TailOk(g, e, t, reg, c, held) && t.need
    requires |F| == |c| && forall k :: 0 <= k < |c| ==> BothAt(c, t, reg, F, k)
    ensures F[t.pf] == LoadBool(reg, false, true) && F[t.pt] == LoadBool(reg, true, false)
  {
    assert BothAt(c, t, reg, F, t.pf) && BothAt(c, t, reg, F, t.pt);
  }

  /** In the patched code a jump of e is tested as before. */
  lemma StoreControl(g: Gen, e: Exp, t: Tail, reg: int, c: seq<Instr>, held: seq<int>, F: seq<Instr>, env: Env, j: int,
                     S: Regs)
    requires TailOk(g, e, t, reg, c, held) && 0 <= j < t.n && (j in t.ts || j in t.fs) && j !in g.held
    requires |F| == |c| && forall k :: 0 <= k < |c| ==> BothAt(c, t, reg, F, k)
    ensures IsValueJump(c, j) == IsValueJump(Body(g, e), j)
    ensures Differs(env, F, j, S) == Differs(env, Body(g, e), j, S)
    ensures F[j].Jmp? && c[j].Jmp?
    ensures IsValueJump(c, j) ==> c[j-1] == Body(g, e)[j-1] && F[j-1] == Retarget(c[j-1], reg)
    ensures !IsValueJump(c, j) ==> !(j > 0 && F[j-1].TestSet?)
  {
    assert TailAt(g, e, t, c, held, j) && BothAt(c, t, reg, F, j);
    if j > 0 { assert TailAt(g, e, t, c, held, j - 1) && BothAt(c, t, reg, F, j - 1); }
  }

  lemma ListNotHeld(g0: Gen, g: Gen, e: Exp, j: int)
    requires State(g0, g, e) && (j in e.ts || j in e.fs)
    ensures j !in g.held
  {
  }

  /** Leaving by a jump of e leads to the end of the code, with the value of the expression in reg. */
  lemma StoreExit(g0: Gen, g: Gen, e: Exp, t: Tail, reg: int, c: seq<Instr>, held: seq<int>, F: seq<Instr>,
                  env: Env, j: int, S: Regs, v: Value)
    requires State(g0, g, e) && TailOk(g, e, t, reg, c, held) && reg != NO_REG
    requires |F| == |c| && forall k :: 0 <= k < |c| ==> BothAt(c, t, reg, F, k)
    requires 0 <= j < t.n && Leaves(Body(g, e), e, j, S, v) && !Differs(env, Body(g, e), j, S)
    ensures var o := Jump(env, F, Elems(held), j, S);
            o.End? && Get(o.regs, reg) == v && OnlyReg(S, o.regs, reg)
  {
    hide State, TailAt, Differs;
    assert j in t.ts || j in t.fs;
    ListNotHeld(g0, g, e, j);
    StoreControl(g, e, t, reg, c, held, F, env, j, S);
    assert BothAt(c, t, reg, F, j);
    var N, P := |F|, Elems(held);
    assert j !in P;
    if IsValueJump(c, j) {
      var b := c[j-1].b;
      var S' := if reg != b then S[reg := Get(S, b)] else S;
      assert F[j] == Jmp(N - (j + 1));
      assert Jump(env, F, P, j, S) == Run(env, F, P, N, S') == End(S');
    } else {
      LoadsKept(g, e, t, reg, c, held, F);
      RunLoads(env, F, P, t.pf, reg, S);
      assert Jump(env, F, P, j, S) == Run(env, F, P, if j in t.ts then t.pt else t.pf, S);
    }
  }

  /** Running on from the end of the body arrives with the value in reg. */
  ghost predicate Delivers(g: Gen, e: Exp, n: nat, g': Gen, reg: int) {
    && (forall env: Env, S: Regs {:trigger Direct(g, e, env, S)} :: g'.k <= env.k ==>
         var o := Run(env, g'.code, Elems(g'.held), n, S);
         Arrives(g'.held, o) && Get(o.regs, reg) == Direct(g, e, env, S) && OnlyReg(S, o.regs, reg))
    && (forall j :: j in g'.held && j < n ==> e.k.VNONRELOC? && e.info == reg)
  }

  /** Leaving the body by a jump of its lists, or one on hold. */
  lemma StoredLeave(g0: Gen, g: Gen, e: Exp, t: Tail, reg: int, g2: Gen, g': Gen, env: Env, j: int, S: Regs, v: Value)
    requires State(g0, g, e) && TailOk(g, e, t, reg, g2.code, g2.held) && reg != NO_REG
    requires |g'.code| == |g2.code| && g'.held == g2.held
    requires forall k :: 0 <= k < |g2.code| ==> BothAt(g2.code, t, reg, g'.code, k)
    requires Delivers(g, e, t.n, g', reg) && g'.k <= env.k && 0 <= j < |Body(g, e)| && !Differs(env, Body(g, e), j, S)
    requires Leaves(Body(g, e), e, j, S, v) || (j in g.held && Direct(g, e, env, S) == v)
    ensures var o := Jump(env, g'.code, Elems(g'.held), j, S);
            Arrives(g'.held, o) && Get(o.regs, reg) == v && OnlyReg(S, o.regs, reg)
  {
    hide Run, Jump, Differs, State, Direct, Leaves, BothAt, Delivers;
    if Leaves(Body(g, e), e, j, S, v) {
      StoreExit(g0, g, e, t, reg, g2.code, g2.held, g'.code, env, j, S, v);
    } else {
      StoreHeld(g0, g, e, t, reg, g2, g', env, j, S);
    }
  }

  lemma StoredTail(E: Expr, g0: Gen, g: Gen, e: Exp, t: Tail, reg: int, g2: Gen, g': Gen, env: Env, R: Regs, i: int)
    requires State(g0, g, e) && TailOk(g, e, t, reg, g2.code, g2.held) && reg != NO_REG
    requires |g'.code| == |g2.code| && g'.held == g2.held
    requires forall k :: 0 <= k < |g2.code| ==> BothAt(g2.code, t, reg, g'.code, k)
    requires Delivers(g, e, t.n, g', reg) && g'.k <= env.k
    requires Entry(g0, i) && MeaningAt(E, g0, g, e, env, R, i)
    ensures StoredAt(E, g0, g', reg, env, R, i)
  {
    hide Run, Jump, Eval, Differs, TailOk, BothAt, Continues, State, Leaves;
    var o := Enter(env, Body(g, e), Pending(g, e), |g0.code|, i, R);
    TailContinues(g0, g, e, t, reg, g2.code, g2.held, g'.code);
    TailSize(g, e, t, reg, g2.code, g2.held);
    EnterContinues(env, Body(g, e), Pending(g, e), g'.code, Elems(g'.held), |g0.code|, g0.held, i, R);
    var v := Eval(E, env, R);
    if o.End? {
      assert Direct(g, e, env, o.regs) == v;
    } else if o.Exit? {
      ExitIsPending(env, Body(g, e), Pending(g, e), |g0.code|, R);
      if i >= 0 { JumpExitIsPending(env, Body(g, e), Pending(g, e), i, R); }
      StoredLeave(g0, g, e, t, reg, g2, g', env, o.j, o.regs, v);
    }
  }

  lemma TailSize(g: Gen, e: Exp, t: Tail, reg: int, c: seq<Instr>, held: seq<int>)
    requires TailOk(g, e, t, reg, c, held)
    ensures t.n == |Body(g, e)|
  {
  }

  /** A jump on hold leads to the end of the body, or it is still on hold. */
  lemma StoreHeld(g0: Gen, g: Gen, e: Exp, t: Tail, reg: int, g2: Gen, g': Gen, env: Env, j: int, S: Regs)
    requires State(g0, g, e) && TailOk(g, e, t, reg, g2.code, g2.held)
    requires |g'.code| == |g2.code| && g'.held == g2.held
    requires forall k :: 0 <= k < |g2.code| ==> BothAt(g2.code, t, reg, g'.code, k)
    requires Delivers(g, e, t.n, g', reg) && g'.k <= env.k && 0 <= j < t.n && j in g.held
    requires !Differs(env, Body(g, e), j, S)
    ensures var o := Jump(env, g'.code, Elems(g'.held), j, S);
            Arrives(g'.held, o) && Get(o.regs, reg) == Direct(g, e, env, S) && OnlyReg(S, o.regs, reg)
  {
    hide State, Run;
    HeldControl(g0, g, e, t, reg, g2.code, g2.held, g'.code, env, j, S);
    if j in g2.held {
      assert Direct(g, e, env, S) == Get(S, reg);
    } else {
      assert Jump(env, g'.code, Elems(g'.held), j, S) == Run(env, g'.code, Elems(g'.held), t.n, S);
      assert Direct(g, e, env, S) == Direct(g, e, env, S);
    }
  }

  lemma HeldControl(g0: Gen, g: Gen, e: Exp, t: Tail, reg: int, c: seq<Instr>, held: seq<int>, F: seq<Instr>, env: Env,
                    j: int, S: Regs)
    requires State(g0, g, e) && TailOk(g, e, t, reg, c, held) && 0 <= j < t.n && j in g.held
    requires |F| == |c| && forall k :: 0 <= k < |c| ==> BothAt(c, t, reg, F, k)
    requires !Differs(env, Body(g, e), j, S)
    ensures F[j].Jmp? && !Differs(env, F, j, S)
    ensures j !in held ==> F[j] == Jmp(t.n - (j + 1)) && !(j > 0 && F[j-1].TestSet?)
  {
    assert TailAt(g, e, t, c, held, j) && BothAt(c, t, reg, F, j);
    if j > 0 { assert TailAt(g, e, t, c, held, j - 1) && BothAt(c, t, reg, F, j - 1); }
  }

  lemma EmitSettled(g: Gen, i: Instr)
    requires Wf(g) && g.held == [] && !IsTest(i)
    ensures Emit(g, i) == g.(code := g.code + [i], err := Emit(g, i).err) && Wf(Emit(g, i))
    ensures g.err ==> Emit(g, i).err
  {
    EmitLemma(g, i);
    PatchedNone(g.code, |g.code|, NO_REG, |g.code|);
  }

  /** The two loads, with the jump over them and the jumps that were on hold left on hold. */
  lemma LoadTailsLemma(g: Gen, jump: bool, reg: int)
    requires Wf(g) && (!jump ==> g.held == [])
    ensures var (g', pf, pt) := LoadTails(g, jump, reg); var m := |g.code|;
            && Wf(g') && pt == pf + 1 && pf == m + (if jump then 1 else 0) && |g'.code| == pf + 2
            && g'.code[..m] == g.code && (jump ==> g'.code[m].Jmp?)
            && g'.code[pf] == LoadBool(reg, false, true) && g'.code[pt] == LoadBool(reg, true, false)
            && g'.held == (if jump then [m] + g.held else [])
            && g' == g.(code := g'.code, held := g'.held, err := g'.err) && (g.err ==> g'.err)
  {
    hide Emit, EmitJump, TestsPaired, ConstantsOk, Patched, Settled;
    var m := |g.code|;
    var (g1, fj) := if jump then EmitJump(g) else (g, []);
    if jump { EmitJumpLemma(g); }
    assert g1.held == [];
    var g2 := Emit(g1, LoadBool(reg, false, true));
    EmitSettled(g1, LoadBool(reg, false, true));
    var g3 := Emit(g2, LoadBool(reg, true, false));
    EmitSettled(g2, LoadBool(reg, true, false));
    PrefixKeeps(g1.code, g3.code, fj);
    var g' := LoadTails(g, jump, reg).0;
    assert g'.code == g3.code && g'.held == fj;
    assert g3.code[..m] == g1.code[..m];
  }

  /** Positions behind the body of e that exp2reg's patching leaves alone. */
  lemma BehindKept(c: seq<Instr>, t: Tail, reg: int, F: seq<Instr>, k: int)
    requires 0 <= k < |c| == |F| && BothAt(c, t, reg, F, k)
    requires Jumps(c, t.ts) && Jumps(c, t.fs)
    ensures !c[k].Jmp? && !IsTest(c[k]) ==> F[k] == c[k]
    ensures k !in t.ts && k !in t.fs && !IsTest(c[k]) ==> F[k] == c[k]
    ensures IsTest(F[k]) == IsTest(c[k])
  {
  }

  lemma RunToHold(env: Env, F: seq<Instr>, P: set<int>, m: nat, S: Regs)
    requires m < |F| && F[m].Jmp? && m in P && (m > 0 ==> !IsTest(F[m-1]))
    ensures Run(env, F, P, m, S) == Exit(m, S)
  {
  }

  /** The value was put into reg by at most one load; then the code ends, or a jump to the end follows. */
  lemma PlacedDelivers(g0: Gen, g: Gen, e: Exp, gd: Gen, reg: int, t: Tail, g2: Gen, g': Gen)
    requires State(g0, g, e) && IsValue(e) && Discharged(g0, g, e, gd, reg) && TailOk(g, e, t, reg, g2.code, g2.held)
    requires |g'.code| == |g2.code| && g'.held == g2.held && g'.k == gd.k
    requires forall k :: 0 <= k < |g2.code| ==> BothAt(g2.code, t, reg, g'.code, k)
    requires var m := |gd.code|;
             && m <= |g2.code| && g2.code[..m] == gd.code
             && if t.need then |g2.code| > m && g2.code[m].Jmp? && g2.held == [m] + gd.held
                else |g2.code| == m && g2.held == gd.held
    ensures Delivers(g, e, t.n, g', reg)
  {
    var F, m, n, P := g'.code, |gd.code|, t.n, Elems(g'.held);
    if t.need {
      assert m in g2.held;
      BehindKept(g2.code, t, reg, F, m);
      if m > 0 {
        BehindKept(g2.code, t, reg, F, m - 1);
        assert g2.code[m-1] == gd.code[m-1];
      }
    }
    if m == n + 1 {
      assert g2.code[n] == gd.code[n];
      BehindKept(g2.code, t, reg, F, n);
    }
    forall env: Env, S: Regs | g'.k <= env.k
      ensures var o := Run(env, F, P, n, S);
              Arrives(g'.held, o) && Get(o.regs, reg) == Direct(g, e, env, S) && OnlyReg(S, o.regs, reg)
    {
      PlacedRun(g, e, gd, reg, g', n, t.need, env, S);
    }
  }

  lemma PlacedRun(g: Gen, e: Exp, gd: Gen, reg: int, g': Gen, n: nat, need: bool, env: Env, S: Regs)
    requires Placed(g, e, gd, reg) && n == |Body(g, e)| && g'.k == gd.k <= env.k
    requires var m := |gd.code|;
             && m <= |g'.code|
             && (m == n + 1 ==> g'.code[n] == gd.code[n]) && (e.k.VNONRELOC? ==> |g.code| == n)
             && if need then m < |g'.code| && g'.code[m].Jmp? && m in g'.held && (m > 0 ==> !IsTest(g'.code[m-1]))
                else |g'.code| == m
    ensures var o := Run(env, g'.code, Elems(g'.held), n, S);
            Arrives(g'.held, o) && Get(o.regs, reg) == Direct(g, e, env, S) && OnlyReg(S, o.regs, reg)
  {
    var F, P, m := g'.code, Elems(g'.held), |gd.code|;
    if m == n + 1 {
      var S' := S[F[n].a := Loaded(F[n], env, S)];
      assert Run(env, F, P, n, S) == Run(env, F, P, n + 1, S');
      if need { RunToHold(env, F, P, m, S'); }
    } else {
      if need { RunToHold(env, F, P, m, S); }
    }
  }

  /** A comparison: its jump leads to the second load, falling through leads to the first. */
  lemma CompareDelivers(g0: Gen, g: Gen, e: Exp, reg: int, t: Tail, g2: Gen, g': Gen)
    requires State(g0, g, e) && e.k.VJMP? && TailOk(g, e, t, reg, g2.code, g2.held) && t.need
    requires |g'.code| == |g2.code| && g'.held == g2.held == []
    requires forall k :: 0 <= k < |g2.code| ==> BothAt(g2.code, t, reg, g'.code, k)
    requires |g2.code| == t.n + 4 && g2.code[t.n] == g.code[t.n] && g2.code[t.n+1].Jmp?
    ensures Delivers(g, e, t.n, g', reg)
  {
    var F, n := g'.code, t.n;
    CompareKept(g0, g, e, reg, t, g2, F);
    forall env: Env, S: Regs | g'.k <= env.k
      ensures var o := Run(env, F, Elems(g'.held), n, S);
              Arrives(g'.held, o) && Get(o.regs, reg) == Direct(g, e, env, S) && OnlyReg(S, o.regs, reg)
    {
      CompareDelivered(g, e, reg, g', n, env, S);
    }
  }

  lemma CompareKept(g0: Gen, g: Gen, e: Exp, reg: int, t: Tail, g2: Gen, F: seq<Instr>)
    requires State(g0, g, e) && e.k.VJMP? && TailOk(g, e, t, reg, g2.code, g2.held) && t.need
    requires |F| == |g2.code| && g2.held == []
    requires forall k :: 0 <= k < |g2.code| ==> BothAt(g2.code, t, reg, F, k)
    requires |g2.code| == t.n + 4 && g2.code[t.n] == g.code[t.n] && g2.code[t.n+1].Jmp?
    ensures t.n == e.info - 1 && t.n + 2 == |g.code| && F[t.n] == g.code[t.n] && F[t.n].Compare?
    ensures F[t.n+1] == Jmp(1)
    ensures F[t.n+2] == LoadBool(reg, false, true) && F[t.n+3] == LoadBool(reg, true, false)
    ensures forall j :: j in g2.held && j < t.n ==> e.k.VNONRELOC? && e.info == reg
  {
    assert BothAt(g2.code, t, reg, F, t.n) && BothAt(g2.code, t, reg, F, t.n + 1);
    assert t.n + 1 in t.ts;
    LoadsKept(g, e, t, reg, g2.code, g2.held, F);
  }

  lemma CompareDelivered(g: Gen, e: Exp, reg: int, g': Gen, n: nat, env: Env, S: Regs)
    requires e.k.VJMP? && n == e.info - 1 && n + 2 == |g.code| && |g'.code| == n + 4 && g'.held == []
    requires g'.code[n] == g.code[n] && g'.code[n].Compare? && g'.code[n+1] == Jmp(1)
    requires g'.code[n+2] == LoadBool(reg, false, true) && g'.code[n+3] == LoadBool(reg, true, false)
    ensures var o := Run(env, g'.code, Elems(g'.held), n, S);
            Arrives(g'.held, o) && Get(o.regs, reg) == Direct(g, e, env, S) && OnlyReg(S, o.regs, reg)
  {
    var F, P := g'.code, Elems(g'.held);
    RunLoads(env, F, P, n + 2, reg, S);
    assert Run(env, F, P, n, S) == Run(env, F, P, if Taken(F[n], env, S) then n + 3 else n + 2, S);
  }

  // ----- the structure exp2reg leaves -----

  ghost predicate StoredState(g0: Gen, g: Gen, reg: int) {
    && Wf(g0) && Wf(g) && Extends(g0, g)
    && Aimed(g0, g.code, Elems(g.held))
  }

  lemma PatchBothState(g0: Gen, g: Gen, e: Exp, t: Tail, reg: int, g2: Gen, g': Gen)
    requires State(g0, g, e) && Wf(g2) && TailOk(g, e, t, reg, g2.code, g2.held)
    requires Extends(g0, g2) && Aimed(g0, g2.code, Elems(g2.held) + Elems(t.ts) + Elems(t.fs))
    requires |g'.code| == |g2.code| && forall k :: 0 <= k < |g2.code| ==> BothAt(g2.code, t, reg, g'.code, k)
    requires g' == g2.(code := g'.code, err := g'.err) && (g2.err ==> g'.err)
    ensures StoredState(g0, g', reg)
  {
    PatchBothBelow(g0, g, e, t, reg, g2, g');
    var c, F := g2.code, g'.code;
    PatchBothKeeps(c, t, reg, F, g2.held);
    var P2 := Elems(g2.held) + Elems(t.ts) + Elems(t.fs);
    AimedFacts(g0, c, P2);
    forall j | j in g0.held
      ensures 0 <= j < |F| && F[j].Jmp? && (j in Elems(g'.held) || j + 1 + F[j].sbx >= |g0.code|)
    {
      assert BothAt(c, t, reg, F, j);
    }
  }

  lemma PatchBothBelow(g0: Gen, g: Gen, e: Exp, t: Tail, reg: int, g2: Gen, g': Gen)
    requires State(g0, g, e) && Wf(g2) && TailOk(g, e, t, reg, g2.code, g2.held) && Extends(g0, g2)
    requires |g'.code| == |g2.code| && forall k :: 0 <= k < |g2.code| ==> BothAt(g2.code, t, reg, g'.code, k)
    ensures |g0.code| <= t.n && forall k {:trigger BelowAt(g0, g', k)} :: 0 <= k < |g0.code| ==> BelowAt(g0, g', k)
  {
    var c, F := g2.code, g'.code;
    BodyPending(g0, g, e);
    assert |g0.code| <= t.n;
    NoTestAtStart(g0, g2);
    forall k | 0 <= k < |g0.code|
      ensures BelowAt(g0, g', k)
    {
      assert BelowAt(g0, g2, k) && BothAt(c, t, reg, F, k);
      assert k in t.ts || k in t.fs ==> k in Lists(e);
      assert k + 1 in t.ts || k + 1 in t.fs ==> k + 1 in Lists(e) || k + 1 == t.n + 1;
    }
  }

  lemma PatchBothKeeps(c: seq<Instr>, t: Tail, reg: int, F: seq<Instr>, held: seq<int>)
    requires TestsPaired(c) && Threaded(c, held) && Jumps(c, t.ts) && Jumps(c, t.fs)
    requires forall k :: k in held ==> k !in t.ts && k !in t.fs
    requires |F| == |c| && forall k :: 0 <= k < |c| ==> BothAt(c, t, reg, F, k)
    ensures TestsPaired(F) && Threaded(F, held)
  {
    forall k | 0 <= k < |F| && IsTest(F[k])
      ensures k + 1 < |F| && F[k+1].Jmp?
    {
      assert BothAt(c, t, reg, F, k);
      assert IsTest(c[k]);
      assert c[k+1].Jmp?;
      assert BothAt(c, t, reg, F, k + 1);
    }
    forall j | j in held
      ensures 0 <= j < |c| && F[j] == c[j]
    {
      InRange(c, held, j);
      assert BothAt(c, t, reg, F, j);
    }
    ThreadedFrame(c, F, held);
  }

  /** The call of exp2reg has put the value of E into reg. */
  ghost predicate StoredBy(E: Expr, g0: Gen, g: Gen, e: Exp, g': Gen, reg: int) {
    && StoredState(g0, g', reg) && g'.freereg == g.freereg
    && g.k <= g'.k && (g.err ==> g'.err) && g'.mixed == g.mixed
    && (Meaning(E, g0, g, e) && reg != NO_REG ==> Stored(E, g0, g', reg))
  }

  lemma StoredFromTail(E: Expr, g0: Gen, g: Gen, e: Exp, t: Tail, reg: int, g2: Gen)
    requires State(g0, g, e) && Wf(g2) && TailOk(g, e, t, reg, g2.code, g2.held)
    requires Extends(g0, g2) && Aimed(g0, g2.code, Elems(g2.held) + Elems(t.ts) + Elems(t.fs))
    requires g.k <= g2.k && g2.freereg == g.freereg && (g.err ==> g2.err) && g2.mixed == g.mixed
    requires Delivers(g, e, t.n, PatchBoth(g2, t, reg), reg)
    ensures StoredBy(E, g0, g, e, PatchBoth(g2, t, reg), reg)
  {
    var g' := PatchBoth(g2, t, reg);
    PatchBothLemma(g2, t, reg);
    PatchBothState(g0, g, e, t, reg, g2, g');
    if Meaning(E, g0, g, e) && reg != NO_REG {
      forall env: Env, R: Regs, i | Covers(env, g') && Entry(g0, i)
        ensures StoredAt(E, g0, g', reg, env, R, i)
      {
        assert MeaningAt(E, g0, g, e, env, R, i);
        StoredTail(E, g0, g, e, t, reg, g2, g', env, R, i);
      }
    }
  }

  /** The state before the lists are patched, when the value was put into reg. */
  lemma PlacedTail(g0: Gen, g: Gen, e: Exp, gd: Gen, reg: int, need: bool) returns (t: Tail, g2: Gen)
    requires State(g0, g, e) && IsValue(e) && Discharged(g0, g, e, gd, reg)
    requires need == (NeedValue(gd.code, e.ts) || NeedValue(gd.code, e.fs))
    ensures g2 == (if need then LoadTails(gd, true, reg).0 else gd)
    ensures t == Tail(|Body(g, e)|, e.ts, e.fs, need, if need then LoadTails(gd, true, reg).1 else NO_JUMP,
                      if need then LoadTails(gd, true, reg).2 else NO_JUMP)
    ensures Wf(g2) && TailOk(g, e, t, reg, g2.code, g2.held)
    ensures var m := |gd.code|;
            && m <= |g2.code| && g2.code[..m] == gd.code
            && (if need then |g2.code| > m && g2.code[m].Jmp? && g2.held == [m] + gd.held
                else |g2.code| == m && g2.held == gd.held)
            && g2 == gd.(code := g2.code, held := g2.held, err := g2.err) && (gd.err ==> g2.err)
  {
    hide State, Discharged, LoadTails, TailAt;
    var m, n := |gd.code|, |Body(g, e)|;
    g2 := if need then LoadTails(gd, true, reg).0 else gd;
    t := Tail(n, e.ts, e.fs, need, if need then LoadTails(gd, true, reg).1 else NO_JUMP,
              if need then LoadTails(gd, true, reg).2 else NO_JUMP);
    var c := g2.code;
    PlacedFacts(g0, g, e, gd, reg);
    if need { LoadTailsLemma(gd, true, reg); }
    assert c[..m] == gd.code;
    ListsInRange(e, gd.code);
    assert Jumps(c, e.ts) && Jumps(c, e.fs) by {
      forall j | j in e.ts || j in e.fs ensures 0 <= j < |c| && c[j].Jmp? {
        assert j in Lists(e);
        assert c[j] == gd.code[j];
      }
    }
    PlacedTailAt(g0, g, e, gd, reg, t, g2);
    PlacedHeld(g0, g, e, gd, reg, t, g2);
    if !need {
      forall j | j in e.ts || j in e.fs ensures IsValueJump(c, j) { }
    }
  }

  lemma PlacedFacts(g0: Gen, g: Gen, e: Exp, gd: Gen, reg: int)
    requires State(g0, g, e) && IsValue(e) && Discharged(g0, g, e, gd, reg)
    ensures Wf(gd) && Threaded(gd.code, e.ts) && Threaded(gd.code, e.fs) && Disjoint(e.ts, e.fs) && !e.k.VJMP?
  {
  }

  lemma PlacedHeld(g0: Gen, g: Gen, e: Exp, gd: Gen, reg: int, t: Tail, g2: Gen)
    requires State(g0, g, e) && IsValue(e) && Discharged(g0, g, e, gd, reg) && t.n == |Body(g, e)|
    requires var m := |gd.code|;
             && m <= |g2.code| && g2.code[..m] == gd.code
             && if t.need then |g2.code| > m && g2.code[m].Jmp? && g2.held == [m] + gd.held else g2.held == gd.held
    ensures forall k :: k in g2.held ==>
              0 <= k < |g2.code| && g2.code[k].Jmp? && k !in e.ts && k !in e.fs && (k < t.n ==> k in g.held)
  {
    var m := |gd.code|;
    ListsInRange(e, gd.code);
    forall k | k in g2.held
      ensures 0 <= k < |g2.code| && g2.code[k].Jmp? && k !in e.ts && k !in e.fs && (k < t.n ==> k in g.held)
    {
      if k in gd.held {
        InRange(gd.code, gd.held, k);
        assert g2.code[k] == g2.code[..m][k];
      } else {
        assert k == m && k !in Lists(e);
      }
    }
  }

  lemma PlacedTailAt(g0: Gen, g: Gen, e: Exp, gd: Gen, reg: int, t: Tail, g2: Gen)
    requires State(g0, g, e) && IsValue(e) && Discharged(g0, g, e, gd, reg) && t.n == |Body(g, e)|
    requires |gd.code| <= |g2.code| && g2.code[..|gd.code|] == gd.code
    requires forall k :: k in gd.held ==> k in g2.held
    requires forall k :: k in g2.held && k < |gd.code| ==> k in gd.held
    ensures t.n <= |gd.code|
    ensures forall k :: 0 <= k < t.n ==> TailAt(g, e, t, g2.code, g2.held, k)
  {
    var body := Body(g, e);
    PendingJumps(g, e);
    PendingJumps(gd, e);
    forall k | 0 <= k < t.n
      ensures TailAt(g, e, t, g2.code, g2.held, k)
    {
      assert g2.code[k] == g2.code[..|gd.code|][k] == gd.code[k];
      if gd != g {
        assert gd.code[k] == gd.code[..t.n][k] == Settled(g)[k];
        assert gd.code[k] == PatchedAt(g.code, g.held, |g.code|, NO_REG, |g.code|, k);
      }
    }
  }

  lemma PatchNothing(g: Gen, t: Tail, reg: int)
    requires t.ts == [] && t.fs == []
    ensures PatchBoth(g, t, reg) == g
  {
    PatchedNone(g.code, |g.code|, reg, t.pf);
    PatchedNone(g.code, |g.code|, reg, t.pt);
  }

  /** exp2reg on an expression whose value was put into reg. */
  lemma PlacedStored(E: Expr, g0: Gen, g: Gen, e: Exp, gd: Gen, reg: int)
    requires State(g0, g, e) && IsValue(e) && Discharged(g0, g, e, gd, reg)
    ensures StoredBy(E, g0, g, e, PatchValues(gd, e.ts, e.fs, true, reg), reg)
  {
    var need := NeedValue(gd.code, e.ts) || NeedValue(gd.code, e.fs);
    var t, g2 := PlacedTail(g0, g, e, gd, reg, need);
    if e.ts == [] && e.fs == [] { PatchNothing(g2, t, reg); }
    assert PatchValues(gd, e.ts, e.fs, true, reg) == PatchBoth(g2, t, reg);
    PatchBothLemma(g2, t, reg);
    PlacedDelivers(g0, g, e, gd, reg, t, g2, PatchBoth(g2, t, reg));
    PlacedExtends(g0, g, e, gd, reg, g2);
    StoredFromTail(E, g0, g, e, t, reg, g2);
  }

  lemma PlacedExtends(g0: Gen, g: Gen, e: Exp, gd: Gen, reg: int, g2: Gen)
    requires State(g0, g, e) && IsValue(e) && Discharged(g0, g, e, gd, reg)
    requires |gd.code| <= |g2.code| && g2.code[..|gd.code|] == gd.code
    requires g2.held == gd.held || g2.held == [|gd.code|] + gd.held
    requires g2 == gd.(code := g2.code, held := g2.held, err := g2.err) && (gd.err ==> g2.err)
    ensures Extends(g0, g2) && Aimed(g0, g2.code, Elems(g2.held) + Elems(e.ts) + Elems(e.fs))
  {
    var m := |gd.code|;
    assert forall k :: 0 <= k < m ==> g2.code[k] == g2.code[..m][k] == gd.code[k];
    forall k | 0 <= k < |g0.code|
      ensures BelowAt(g0, g2, k)
    {
      assert BelowAt(g0, gd, k);
    }
    AimedFacts(g0, gd.code, Pending(gd, e.(k := VNONRELOC, info := reg)));
  }

  lemma CompareConcat(g0: Gen, g: Gen, e: Exp)
    requires State(g0, g, e) && e.k.VJMP?
    ensures var g1 := Concat(g, e.ts, [e.info]);
            && Wf(g1) && Extends(g0, g1) && Relinked(g.code, g1.code, Pending(g, e))
            && Threaded(g1.code, e.ts + [e.info]) && Threaded(g1.code, e.fs)
            && Aimed(g0, g1.code, Elems(e.ts + [e.info]) + Elems(e.fs))
            && g1 == g.(code := g1.code, err := g1.err) && (g.err ==> g1.err)
  {
    var g1, info := Concat(g, e.ts, [e.info]), e.info;
    assert LinkAt(g.code, [info], 0);
    assert Disjoint(e.ts, [info]);
    ConcatLemma(g, e.ts, [info], e.fs);
    PendingJumps(g, e);
    RelinkedSuperset(g.code, g1.code, Elems(e.ts), Pending(g, e));
    RelinkedPaired(g.code, g1.code, Pending(g, e));
    var P' := Elems(e.ts + [info]) + Elems(e.fs);
    assert Pending(g, e) <= P';
    AimedMore(g0, g.code, Pending(g, e), P');
    RelinkedState(g0, g, g1, Pending(g, e), P');
  }

  lemma CompareTail(g0: Gen, g: Gen, e: Exp, g1: Gen, reg: int) returns (t: Tail, g2: Gen)
    requires State(g0, g, e) && e.k.VJMP? && g1 == Concat(g, e.ts, [e.info])
    ensures g2 == LoadTails(g1, false, reg).0
    ensures var (_, pf, pt) := LoadTails(g1, false, reg); t == Tail(|Body(g, e)|, e.ts + [e.info], e.fs, true, pf, pt)
    ensures NeedValue(g1.code, e.ts + [e.info])
    ensures Wf(g2) && TailOk(g, e, t, reg, g2.code, g2.held)
    ensures g2.held == [] && |g2.code| == t.n + 4 && g2.code[t.n] == g.code[t.n] && g2.code[t.n+1].Jmp?
    ensures |g1.code| <= |g2.code| && g2.code[..|g1.code|] == g1.code
    ensures g2 == g.(code := g2.code, held := [], err := g2.err) && (g.err ==> g2.err)
  {
    CompareConcat(g0, g, e);
    LoadTailsLemma(g1, false, reg);
    var r := LoadTails(g1, false, reg);
    g2 := r.0;
    t := Tail(|Body(g, e)|, e.ts + [e.info], e.fs, true, r.1, r.2);
    CompareTailOk(g0, g, e, g1.code, t, reg, g2.code);
    assert e.info in e.ts + [e.info];
    assert !IsValueJump(g1.code, e.info);
  }

  lemma CompareTailOk(g0: Gen, g: Gen, e: Exp, c1: seq<Instr>, t: Tail, reg: int, c: seq<Instr>)
    requires State(g0, g, e) && e.k.VJMP? && Relinked(g.code, c1, Pending(g, e))
    requires Threaded(c1, e.ts + [e.info]) && Threaded(c1, e.fs)
    requires t.n == |Body(g, e)| && t.ts == e.ts + [e.info] && t.fs == e.fs && t.need
    requires |c1| + 2 == |c| && c[..|c1|] == c1 && t.pf == |c1| && t.pt == |c1| + 1
    requires c[t.pf] == LoadBool(reg, false, true) && c[t.pt] == LoadBool(reg, true, false)
    ensures TailOk(g, e, t, reg, c, [])
    ensures c[t.n] == c1[t.n] == g.code[t.n] && c1[t.n+1].Jmp? && c[t.n+1].Jmp? && |c| == t.n + 4
  {
    var n := t.n;
    assert forall k :: 0 <= k < |c1| ==> c[k] == c[..|c1|][k] == c1[k];
    PendingJumps(g, e);
    assert c1[n] == g.code[n];
    assert c1[n+1].Jmp?;
    forall j | j in t.ts || j in t.fs
      ensures 0 <= j < |c| && c[j].Jmp?
    {
      if j in t.ts { InRange(c1, t.ts, j); } else { InRange(c1, t.fs, j); }
    }
    assert Disjoint(t.ts, t.fs);
    forall k | 0 <= k < n
      ensures TailAt(g, e, t, c, [], k)
    {
      assert if k in Pending(g, e) then c1[k].Jmp? else c1[k] == g.code[k];
    }
  }

  lemma ComparePatched(g1: Gen, e: Exp, t: Tail, g2: Gen, reg: int)
    requires g2 == LoadTails(g1, false, reg).0 && NeedValue(g1.code, e.ts + [e.info])
    requires var (_, pf, pt) := LoadTails(g1, false, reg); t == Tail(t.n, e.ts + [e.info], e.fs, true, pf, pt)
    ensures PatchValues(g1, e.ts + [e.info], e.fs, false, reg) == PatchBoth(g2, t, reg)
  {
    hide LoadTails, NeedValue;
    assert e.ts + [e.info] != [];
  }

  lemma TailLists(g: Gen, e: Exp, t: Tail, reg: int, c: seq<Instr>, held: seq<int>)
    requires TailOk(g, e, t, reg, c, held)
    ensures Disjoint(t.ts, t.fs) && Jumps(c, t.ts) && Jumps(c, t.fs)
  {
  }

  /** exp2reg on a comparison. */
  lemma CompareStored(E: Expr, g0: Gen, g: Gen, e: Exp, reg: int)
    requires State(g0, g, e) && e.k.VJMP?
    ensures StoredBy(E, g0, g, e, PatchValues(Concat(g, e.ts, [e.info]), e.ts + [e.info], e.fs, false, reg), reg)
  {
    hide State, TailOk, LoadTails, Concat, BothAt, Delivers, StoredBy, PatchBoth, PatchValues;
    var g1 := Concat(g, e.ts, [e.info]);
    var t, g2 := CompareTail(g0, g, e, g1, reg);
    ComparePatched(g1, e, t, g2, reg);
    TailLists(g, e, t, reg, g2.code, g2.held);
    PatchBothLemma(g2, t, reg);
    CompareDelivers(g0, g, e, reg, t, g2, PatchBoth(g2, t, reg));
    CompareExtends(g0, g, e, g1, g2);
    StoredFromTail(E, g0, g, e, t, reg, g2);
  }

  lemma CompareExtends(g0: Gen, g: Gen, e: Exp, g1: Gen, g2: Gen)
    requires State(g0, g, e) && e.k.VJMP? && g1 == Concat(g, e.ts, [e.info])
    requires |g1.code| <= |g2.code| && g2.code[..|g1.code|] == g1.code
    requires g2 == g.(code := g2.code, held := [], err := g2.err) && (g.err ==> g2.err)
    ensures Extends(g0, g2) && Aimed(g0, g2.code, Elems(g2.held) + Elems(e.ts + [e.info]) + Elems(e.fs))
  {
    CompareConcat(g0, g, e);
    var m := |g1.code|;
    assert forall k :: 0 <= k < m ==> g2.code[k] == g2.code[..m][k] == g1.code[k];
    forall k | 0 <= k < |g0.code|
      ensures BelowAt(g0, g2, k)
    {
      assert BelowAt(g0, g1, k);
    }
    AimedFacts(g0, g1.code, Elems(e.ts + [e.info]) + Elems(e.fs));
  }

  /** exp2reg, on an expression that is no variable any more. */
  lemma Exp2RegLemma(E: Expr, g0: Gen, g: Gen, e: Exp, reg: int)
    requires State(g0, g, e) && !e.k.VLOCAL? && !e.k.VUPVAL?
    ensures StoredBy(E, g0, g, e, Exp2Reg(g, e, reg).0, reg)
    ensures Exp2Reg(g, e, reg).1 == e.(k := VNONRELOC, info := reg, ts := [], fs := [])
  {
    if e.k.VJMP? {
      CompareStored(E, g0, g, e, reg);
    } else {
      Discharge2RegLemma(g0, g, e, reg);
      PlacedStored(E, g0, g, e, Discharge2Reg(g, e, reg).0, reg);
    }
  }

  lemma StoredMeaning(E: Expr, g0: Gen, g: Gen, e: Exp)
    requires Stored(E, g0, g, g0.freereg)
    requires e.k.VNONRELOC? && e.info == g0.freereg && e.ts == [] && e.fs == []
    ensures Meaning(E, g0, g, e)
  {
    forall env: Env, R: Regs, i | Covers(env, g) && Entry(g0, i)
      ensures MeaningAt(E, g0, g, e, env, R, i)
    {
      assert StoredAt(E, g0, g, g0.freereg, env, R, i);
      assert Pending(g, e) == Elems(g.held);
      assert Body(g, e) == g.code;
    }
  }

  lemma StoredBecomes(E: Expr, g0: Gen, g: Gen, e: Exp, g1: Gen, g': Gen, e': Exp)
    requires State(g0, g1, e) && g1.freereg == g0.freereg + 1 && StoredBy(E, g0, g1, e, g', g0.freereg)
    requires g.k <= g1.k && (g.err ==> g1.err) && g1.mixed == g.mixed
    requires Meaning(E, g0, g, e) ==> Meaning(E, g0, g1, e)
    requires e'.k.VNONRELOC? && e'.info == g0.freereg && e'.ts == [] && e'.fs == []
    ensures Becomes(g0, E, g, e, E, g', e')
  {
    assert Pending(g', e') == Elems(g'.held);
    if Meaning(E, g0, g, e) && !g'.err { StoredMeaning(E, g0, g', e'); }
  }

  lemma NextRegState(E: Expr, g0: Gen, g: Gen, e: Exp)
    requires State(g0, g, e) && RegsOf(g0, g, e)
    ensures var g1 := ReserveRegs(FreeExp(g, e), 1);
            && State(g0, g1, e) && g1.freereg == g0.freereg + 1 && g.k <= g1.k && (g.err ==> g1.err)
            && g1.mixed == g.mixed
            && (Meaning(E, g0, g, e) ==> Meaning(E, g0, g1, e))
  {
    var gf := FreeExp(g, e);
    FreeExpLemma(g0, g, e);
    assert State(g0, gf, e) by {
      forall k | 0 <= k < |g0.code| ensures BelowAt(g0, gf, k) { assert BelowAt(g0, g, k); }
      assert Pending(gf, e) == Pending(g, e);
    }
    ReserveLemma(g0, gf, e);
    if Meaning(E, g0, g, e) { SameMeaning(E, g0, g, e, ReserveRegs(gf, 1), e); }
  }

  lemma Exp2NextRegFrom(E: Expr, g0: Gen, g: Gen, e: Exp)
    requires State(g0, g, e) && RegsOf(g0, g, e) && !e.k.VLOCAL? && !e.k.VUPVAL?
    ensures var g1 := ReserveRegs(FreeExp(g, e), 1); var (g', e') := Exp2Reg(g1, e, g1.freereg - 1);
            Becomes(g0, E, g, e, E, g', e') && e'.k.VNONRELOC? && e'.ts == [] && e'.fs == [] && e'.info == g0.freereg
  {
    var g1 := ReserveRegs(FreeExp(g, e), 1);
    NextRegState(E, g0, g, e);
    Exp2RegLemma(E, g0, g1, e, g0.freereg);
    var r := Exp2Reg(g1, e, g0.freereg);
    StoredBecomes(E, g0, g, e, g1, r.0, r.1);
  }

  lemma Exp2NextRegLemma(E: Expr, g0: Gen, g: Gen, e: Exp)
    requires State(g0, g, e) && RegsOf(g0, g, e)
    ensures var (g', e') := Exp2NextReg(g, e);
            Becomes(g0, E, g, e, E, g', e') && e'.k.VNONRELOC? && e'.ts == [] && e'.fs == [] && e'.info == g0.freereg
  {
    var r := DischargeVars(g, e);
    DischargeVarsBecomes(E, g0, g, e);
    Exp2NextRegFrom(E, g0, r.0, r.1);
  }

  ghost predicate InRegister(e: Exp) {
    e.k.VNONRELOC? && e.ts == [] && e.fs == []
  }

  lemma TempStored(E: Expr, g0: Gen, g: Gen, e: Exp)
    requires State(g0, g, e) && RegsOf(g0, g, e) && e.k.VNONRELOC? && e.info >= g.nactvar
    ensures var (g', e') := Exp2Reg(g, e, e.info); Becomes(g0, E, g, e, E, g', e') && InRegister(e')
  {
    Exp2RegLemma(E, g0, g, e, e.info);
    var r := Exp2Reg(g, e, e.info);
    StoredBecomes(E, g0, g, e, g, r.0, r.1);
  }

  lemma Exp2AnyRegLemma(E: Expr, g0: Gen, g: Gen, e: Exp)
    requires State(g0, g, e) && RegsOf(g0, g, e)
    ensures var (g', e') := Exp2AnyReg(g, e); Becomes(g0, E, g, e, E, g', e') && InRegister(e')
  {
    hide State, RegsOf, Meaning, Exp2Reg, Exp2NextReg, DischargeVars;
    var r := DischargeVars(g, e);
    DischargeVarsBecomes(E, g0, g, e);
    if r.1.k.VNONRELOC? && r.1.ts == [] && r.1.fs == [] {
    } else if r.1.k.VNONRELOC? && r.1.info >= r.0.nactvar {
      TempStored(E, g0, r.0, r.1);
    } else {
      Exp2NextRegLemma(E, g0, r.0, r.1);
    }
  }

  // ----- operands of comparisons -----

  ghost predicate OperandAt(E: Expr, g0: Gen, g: Gen, x: int, env: Env, R: Regs, i: int) {
    var o := Enter(env, g.code, Elems(g.held), |g0.code|, i, R);
    o.Mixed? || (Arrives(g.held, o) && Agree(R, o.regs, g0.freereg) && RK(env, o.regs, x) == Eval(E, env, R))
  }

  ghost predicate Operand(E: Expr, g0: Gen, g: Gen, x: int) {
    forall env: Env, R: Regs, i :: Covers(env, g) && Entry(g0, i) ==> OperandAt(E, g0, g, x, env, R, i)
  }

  /** e is a constant in the range of an RK operand, or it is in a register; x is its operand. */
  ghost predicate OperandState(g0: Gen, g: Gen, e: Exp, x: int) {
    && Wf(g0) && Wf(g) && Extends(g0, g) && Aimed(g0, g.code, Elems(g.held))
    && e.ts == [] && e.fs == []
    && (|| (e.k.VK? && 0 <= e.info <= MAXINDEXRK && e.info < |g.k| && x == e.info + BITRK)
        || (e.k.VNONRELOC? && x == e.info && (0 <= x < g.nactvar || x == g0.freereg)))
    && RegsOf(g0, g, e)
  }

  ghost predicate IsOperand(E: Expr, g0: Gen, g: Gen, e: Exp, g': Gen, e': Exp, x: int) {
    && OperandState(g0, g', e', x)
    && g.k <= g'.k && (g.err ==> g'.err) && g.mixed <= g'.mixed
    && (Meaning(E, g0, g, e) && !g'.err ==> Operand(E, g0, g', x))
  }

  lemma RegisterOperand(E: Expr, g0: Gen, g: Gen, e: Exp)
    requires State(g0, g, e) && RegsOf(g0, g, e) && InRegister(e)
    ensures IsOperand(E, g0, g, e, g, e, e.info)
  {
    assert Pending(g, e) == Elems(g.held);
    if Meaning(E, g0, g, e) && !g.err {
      forall env: Env, R: Regs, i | Covers(env, g) && Entry(g0, i)
        ensures OperandAt(E, g0, g, e.info, env, R, i)
      {
        assert MeaningAt(E, g0, g, e, env, R, i);
        assert Body(g, e) == g.code;
      }
    }
  }

  /** A constant that fits an RK operand needs no code. */
  lemma ConstantOperand(E: Expr, g0: Gen, g: Gen, e: Exp, g': Gen, i: int)
    requires State(g0, g, e) && RegsOf(g0, g, e) && e.ts == [] && e.fs == []
    requires e.k.VTRUE? || e.k.VFALSE? || e.k.VKNUM? || e.k.VK?
    requires Wf(g') && g' == g.(k := g'.k, h := g'.h) && g.k <= g'.k && 0 <= i <= MAXINDEXRK && i < |g'.k|
    requires g'.k[i] == (match e.k case VKNUM => e.nval case VK => g.k[e.info] case _ => Boolean(e.k.VTRUE?))
    ensures IsOperand(E, g0, g, e, g', e.(k := VK, info := i), i + BITRK)
  {
    hide ConstantsOk, Enter;
    assert Pending(g, e) == Elems(g.held);
    forall k | 0 <= k < |g0.code| ensures BelowAt(g0, g', k) { assert BelowAt(g0, g, k); }
    var x := i + BITRK;
    if Meaning(E, g0, g, e) {
      forall env: Env, R: Regs, j | Covers(env, g') && Entry(g0, j)
        ensures OperandAt(E, g0, g', x, env, R, j)
      {
        assert MeaningAt(E, g0, g, e, env, R, j);
        assert Body(g, e) == g.code;
        assert At(env.k, i) == g'.k[i];
      }
    }
  }

  lemma NewConstantOperand(E: Expr, g0: Gen, g: Gen, e: Exp)
    requires State(g0, g, e) && RegsOf(g0, g, e) && e.ts == [] && e.fs == []
    requires (e.k.VTRUE? || e.k.VFALSE? || e.k.VKNUM?) && |g.k| <= MAXINDEXRK
    ensures var (g', i) := AddK(g, if e.k.VKNUM? then e.nval else Boolean(e.k.VTRUE?));
            IsOperand(E, g0, g, e, g', e.(k := VK, info := i), i + BITRK)
  {
    var v := if e.k.VKNUM? then e.nval else Boolean(e.k.VTRUE?);
    AddKLemma(g, v);
    var (g1, i) := AddK(g, v);
    assert i <= |g.k|;
    ConstantOperand(E, g0, g, e, g1, i);
  }

  lemma AnyRegOperand(E: Expr, g0: Gen, g: Gen, e: Exp)
    requires State(g0, g, e) && RegsOf(g0, g, e)
    ensures var (g', e') := Exp2AnyReg(g, e); IsOperand(E, g0, g, e, g', e', e'.info)
  {
    Exp2AnyRegLemma(E, g0, g, e);
    var r := Exp2AnyReg(g, e);
    RegisterOperand(E, g0, r.0, r.1);
  }

  lemma ConstantInRange(g0: Gen, g: Gen, e: Exp)
    requires State(g0, g, e) && e.k.VK?
    ensures Wf(g) && 0 <= e.info < |g.k|
  {
  }

  lemma OperandFrom(E: Expr, g0: Gen, g: Gen, e: Exp)
    requires State(g0, g, e) && RegsOf(g0, g, e) && e.ts == [] && e.fs == []
    ensures var (g', e', x) := ToOperand(g, e); IsOperand(E, g0, g, e, g', e', x)
  {
    hide State, RegsOf, IsOperand, Exp2AnyReg, AddK;
    if e.k.VK? { ConstantInRange(g0, g, e); }
    if (e.k.VTRUE? || e.k.VFALSE? || e.k.VKNUM?) && |g.k| <= MAXINDEXRK {
      NewConstantOperand(E, g0, g, e);
    } else if e.k.VK? && e.info <= MAXINDEXRK {
      ConstantOperand(E, g0, g, e, g, e.info);
      assert e == e.(k := VK, info := e.info);
    } else {
      AnyRegOperand(E, g0, g, e);
    }
  }

  /** luaK_exp2RK */
  lemma Exp2RKLemma(E: Expr, g0: Gen, g: Gen, e: Exp)
    requires State(g0, g, e) && RegsOf(g0, g, e)
    ensures var (g', e', x) := Exp2RK(g, e); IsOperand(E, g0, g, e, g', e', x)
  {
    var r := Exp2Val(g, e);
    if e.ts == [] && e.fs == [] {
      DischargeVarsBecomes(E, g0, g, e);
    } else {
      Exp2AnyRegLemma(E, g0, g, e);
    }
    OperandFrom(E, g0, r.0, r.1);
  }

  // ----- one expression behind another -----

  /** B holds the code of g1, changed below the end of g1 like BelowAt allows, and code behind it. */
  ghost predicate Above(g1: Gen, B: seq<Instr>) {
    && |g1.code| <= |B|
    && forall k {:trigger B[k]} :: 0 <= k < |g1.code| ==>
         if k in g1.held then B[k].Jmp?
         else if IsTest(g1.code[k]) && k + 1 in g1.held then SameTest(g1.code[k], B[k])
         else B[k] == g1.code[k]
  }

  lemma AboveBody(g1: Gen, g2: Gen, e: Exp)
    requires Wf(g1) && Wf(g2) && Extends(g1, g2) && |g1.code| <= |Body(g2, e)|
    ensures Above(g1, Body(g2, e))
  {
    forall k | 0 <= k < |g1.code|
      ensures if k in g1.held then Body(g2, e)[k].Jmp?
              else if IsTest(g1.code[k]) && k + 1 in g1.held then SameTest(g1.code[k], Body(g2, e)[k])
              else Body(g2, e)[k] == g1.code[k]
    {
      assert BelowAt(g1, g2, k);
    }
  }

  /** Entries of the first expression, and the jumps that are pending after it, are jumps of its code. */
  ghost predicate Pends(g0: Gen, g1: Gen, P1: set<int>) {
    && |g0.code| <= |g1.code|
    && (forall k :: k in P1 ==> 0 <= k < |g1.code| && g1.code[k].Jmp?)
    && (forall j ::
          j in g0.held ==> 0 <= j < |g0.code| && g1.code[j].Jmp? && (j in P1 || j + 1 + g1.code[j].sbx >= |g0.code|))
  }

  /** A run through the code of one expression goes on in the code behind it. */
  lemma RunAbove(env: Env, g0: Gen, g1: Gen, P1: set<int>, B: seq<Instr>, P: set<int>, i: int, R: Regs)
    requires Wf(g0) && Wf(g1) && Extends(g0, g1) && Above(g1, B) && Pends(g0, g1, P1) && Entry(g0, i)
    requires forall k :: k in g1.held ==> k in P1
    requires forall k :: k in P && 0 <= k < |g1.code| ==> k in P1
    requires Enter(env, g1.code, P1, |g0.code|, i, R) != Stuck
    ensures Enter(env, B, P, |g0.code|, i, R)
         == Continue(env, |g1.code|, B, P, Enter(env, g1.code, P1, |g0.code|, i, R))
  {
    var n0 := |g0.code|;
    NoTestAtStart(g0, g1);
    assert forall k :: 0 <= k < |g1.code| ==> IsTest(B[k]) == IsTest(g1.code[k]);
    forall k | 0 <= k < |g1.code|
      ensures Kept(g1.code, P1, B, P, k)
    {
      assert if k in g1.held then B[k].Jmp?
             else if IsTest(g1.code[k]) && k + 1 in g1.held then SameTest(g1.code[k], B[k])
             else B[k] == g1.code[k];
    }
    EnterContinues(env, g1.code, P1, B, P, n0, g0.held, i, R);
  }

  /** The code of an expression runs the same when jumps in front of it are pending too. */
  lemma RunRelinkedAbove(env: Env, g1: Gen, B2: seq<Instr>, P2: set<int>, B: seq<Instr>, P: set<int>, i: int, S: Regs)
    requires Wf(g1) && Above(g1, B2) && Relinked(B2, B, P2) && Entry(g1, i) && P2 <= P
    requires forall k :: k in P && k !in P2 ==> 0 <= k < |g1.code| && B2[k].Jmp? && k !in g1.held
    requires forall k :: k in P2 ==> 0 <= k < |B2| && B2[k].Jmp?
    requires forall j ::
               j in g1.held ==> 0 <= j < |g1.code| && B2[j].Jmp? && (j in P2 || j + 1 + B2[j].sbx >= |g1.code|)
    ensures Enter(env, B, P, |g1.code|, i, S) == Enter(env, B2, P2, |g1.code|, i, S)
  {
    var n1 := |g1.code|;
    assert forall k :: 0 <= k < |B2| ==> IsTest(B[k]) == IsTest(B2[k]);
    forall k | 0 <= k < |B2| && Reachable(B2, n1, g1.held, k)
      ensures Kept(B2, P2, B, P, k)
    {
      assert if k in P2 then B[k].Jmp? else B[k] == B2[k];
    }
    EnterContinues(env, B2, P2, B, P, n1, g1.held, i, S);
    ExitIsPending(env, B2, P2, n1, S);
    if i >= 0 { JumpExitIsPending(env, B2, P2, i, S); }
    var o := Enter(env, B2, P2, n1, i, S);
    if o.Exit? { assert B[o.j].Jmp?; }
  }

  // ----- and, or -----

  predicate Scoped(E: Expr, n: int) {
    match E
    case Local(r) => 0 <= r < n
    case Paren(e) => Scoped(e, n)
    case Negate(e) => Scoped(e, n)
    case And(l, r) => Scoped(l, n) && Scoped(r, n)
    case Or(l, r) => Scoped(l, n) && Scoped(r, n)
    case Rel(_, l, r) => Scoped(l, n) && Scoped(r, n)
    case _ => true
  }

  lemma EvalAgree(E: Expr, env: Env, R: Regs, S: Regs, n: int)
    requires Scoped(E, n) && Agree(R, S, n)
    ensures Eval(E, env, S) == Eval(E, env, R)
  {
  }

  function Exits(e: Exp, cond: bool): seq<int> {
    if cond then e.fs else e.ts
  }

  /** An expression generated behind the branch on another one. */
  ghost predicate Follower(g0: Gen, g1: Gen, x1: Exp, cond: bool, g2: Gen, x2: Exp) {
    && BranchState(g0, g1, x1, cond) && State(g1, g2, x2) && RegsOf(g1, g2, x2)
    && !x2.k.VLOCAL? && !x2.k.VUPVAL?
  }

  lemma ExitsKept(g0: Gen, g1: Gen, x1: Exp, cond: bool, g2: Gen, x2: Exp)
    requires Follower(g0, g1, x1, cond, g2, x2)
    ensures var s := Exits(x1, cond);
            && Threaded(g2.code, s) && Disjoint(s, g2.held) && Disjoint(s, x2.ts) && Disjoint(s, x2.fs)
            && Disjoint(s, g1.held) && Owns(g0, s) && forall j :: j in s ==> 0 <= j < |g1.code|
  {
    var s := Exits(x1, cond);
    forall j | j in s
      ensures 0 <= j < |g1.code| && g2.code[j] == g1.code[j]
    {
      InRange(g1.code, s, j);
      assert BelowAt(g1, g2, j);
    }
    ThreadedFrame(g1.code, g2.code, s);
  }

  lemma JoinAimed(g0: Gen, g1: Gen, x1: Exp, cond: bool, g2: Gen, x2: Exp)
    requires Follower(g0, g1, x1, cond, g2, x2)
    ensures Aimed(g0, g2.code, Pending(g2, x2) + Elems(Exits(x1, cond)))
  {
    var P := Pending(g2, x2) + Elems(Exits(x1, cond));
    AimedFacts(g0, g1.code, Pending(g1, x1));
    AimedFacts(g1, g2.code, Pending(g2, x2));
    assert Pending(g1, x1) == Elems(Exits(x1, cond)) + Elems(g1.held);
    forall j | j in g0.held
      ensures 0 <= j < |g2.code| && g2.code[j].Jmp? && (j in P || j + 1 + g2.code[j].sbx >= |g0.code|)
    {
      assert BelowAt(g1, g2, j);
    }
  }

  lemma JoinConcat(g0: Gen, g1: Gen, x1: Exp, cond: bool, g2: Gen, x2: Exp)
    requires Follower(g0, g1, x1, cond, g2, x2)
    ensures var (g3, x3) := JoinLists(g2, cond, x1, x2); var s := Exits(x1, cond);
            && g3 == g2.(code := g3.code, err := g3.err) && (g2.err ==> g3.err)
            && Relinked(g2.code, g3.code, Elems(if cond then x2.fs else x2.ts)) && Threaded(g3.code, g3.held)
            && ListsOk(g0, g3, x3) && Owns(g0, g3.held) && Pending(g3, x3) == Pending(g2, x2) + Elems(s)
  {
    var s := Exits(x1, cond);
    var (x, y) := if cond then (x2.fs, x2.ts) else (x2.ts, x2.fs);
    var (g3, x3) := JoinLists(g2, cond, x1, x2);
    ExitsKept(g0, g1, x1, cond, g2, x2);
    ConcatLemma(g2, x, s, y);
    ConcatLemma(g2, x, s, g2.held);
    assert Disjoint(x + s, y) && Disjoint(x + s, g2.held);
    JoinOwns(g0, g1, x1, cond, g2, x2);
  }

  lemma JoinOwns(g0: Gen, g1: Gen, x1: Exp, cond: bool, g2: Gen, x2: Exp)
    requires Follower(g0, g1, x1, cond, g2, x2)
    ensures Owns(g0, x2.ts) && Owns(g0, x2.fs) && Owns(g0, g2.held) && Owns(g0, Exits(x1, cond))
    ensures forall j :: j in Pending(g2, x2) ==> j >= |g0.code| || j in g0.held
  {
  }

  lemma JoinState(g0: Gen, g1: Gen, x1: Exp, cond: bool, g2: Gen, x2: Exp)
    requires Follower(g0, g1, x1, cond, g2, x2)
    ensures var (g3, x3) := JoinLists(g2, cond, x1, x2);
            && State(g0, g3, x3) && RegsOf(g0, g3, x3) && Relinked(g2.code, g3.code, Pending(g2, x2))
            && g3 == g2.(code := g3.code, err := g3.err) && (g2.err ==> g3.err)
            && Pending(g3, x3) == Pending(g2, x2) + Elems(Exits(x1, cond))
  {
    hide BelowAt, Concat;
    var (g3, x3) := JoinLists(g2, cond, x1, x2);
    ExitsKept(g0, g1, x1, cond, g2, x2);
    JoinConcat(g0, g1, x1, cond, g2, x2);
    JoinAimed(g0, g1, x1, cond, g2, x2);
    JoinOwns(g0, g1, x1, cond, g2, x2);
    ExtendsTrans(g0, g1, g2);
    PendingJumps(g2, x2);
    RelinkedSuperset(g2.code, g3.code, Elems(if cond then x2.fs else x2.ts), Pending(g2, x2));
    RelinkedPaired(g2.code, g3.code, Pending(g2, x2));
    RelinkedState(g0, g2, g3, Pending(g2, x2), Pending(g3, x3));
  }

  function JoinExpr(cond: bool, E1: Expr, E2: Expr): Expr {
    if cond then And(E1, E2) else Or(E1, E2)
  }

  /** (g3, x3) is (g2, x2) with the exits of x1 added to its list. */
  ghost predicate Joined(g1: Gen, x1: Exp, cond: bool, g2: Gen, x2: Exp, g3: Gen, x3: Exp) {
    var B2, B3 := Body(g2, x2), Body(g3, x3);
    && Relinked(B2, B3, Pending(g2, x2)) && Above(g1, B2) && Above(g1, B3)
    && x3.k == x2.k && x3.info == x2.info && x3.nval == x2.nval && g3.held == g2.held && g3.k == g2.k
    && |g3.code| == |g2.code|
    && x3.ts == (if cond then x2.ts else x2.ts + x1.ts) && x3.fs == (if cond then x2.fs + x1.fs else x2.fs)
    && Pending(g3, x3) == Pending(g2, x2) + Elems(Exits(x1, cond))
    && (x2.k.VJMP? ==> InstrAt(g3.code, x2.info - 1) == InstrAt(g2.code, x2.info - 1))
    && (x2.k.VRELOCABLE? ==> InstrAt(g3.code, x2.info) == InstrAt(g2.code, x2.info))
  }

  lemma JoinBodies(g0: Gen, g1: Gen, x1: Exp, cond: bool, g2: Gen, x2: Exp)
    requires Follower(g0, g1, x1, cond, g2, x2)
    ensures var (g3, x3) := JoinLists(g2, cond, x1, x2); Joined(g1, x1, cond, g2, x2, g3, x3)
  {
    var (g3, x3) := JoinLists(g2, cond, x1, x2);
    JoinState(g0, g1, x1, cond, g2, x2);
    AboveBody(g1, g2, x2);
    JoinBody(g0, g1, x1, cond, g2, x2, g3, x3);
    JoinAbove(g0, g1, x1, cond, g2, x2, Body(g3, x3));
  }

  lemma JoinBody(g0: Gen, g1: Gen, x1: Exp, cond: bool, g2: Gen, x2: Exp, g3: Gen, x3: Exp)
    requires Follower(g0, g1, x1, cond, g2, x2) && Relinked(g2.code, g3.code, Pending(g2, x2))
    requires x3.k == x2.k && x3.info == x2.info
    ensures Relinked(Body(g2, x2), Body(g3, x3), Pending(g2, x2))
  {
    var B2, B3 := Body(g2, x2), Body(g3, x3);
    PendingJumps(g2, x2);
    forall k | 0 <= k < |B2|
      ensures if k in Pending(g2, x2) then B2[k].Jmp? && B3[k].Jmp? else B3[k] == B2[k]
    {
      assert B3[k] == g3.code[k] && B2[k] == g2.code[k];
    }
  }

  lemma JoinAbove(g0: Gen, g1: Gen, x1: Exp, cond: bool, g2: Gen, x2: Exp, B3: seq<Instr>)
    requires Follower(g0, g1, x1, cond, g2, x2) && Above(g1, Body(g2, x2))
    requires Relinked(Body(g2, x2), B3, Pending(g2, x2))
    ensures Above(g1, B3)
  {
    var B2 := Body(g2, x2);
    forall k | 0 <= k < |g1.code|
      ensures if k in g1.held then B3[k].Jmp?
              else if IsTest(g1.code[k]) && k + 1 in g1.held then SameTest(g1.code[k], B3[k])
              else B3[k] == g1.code[k]
    {
      assert k in Pending(g2, x2) ==> k in g1.held;
      assert if k in g1.held then B2[k].Jmp?
             else if IsTest(g1.code[k]) && k + 1 in g1.held then SameTest(g1.code[k], B2[k])
             else B2[k] == g1.code[k];
      assert if k in Pending(g2, x2) then B3[k].Jmp? else B3[k] == B2[k];
    }
  }

  lemma SamePlace(g2: Gen, x2: Exp, g3: Gen, x3: Exp, env: Env, R: Regs)
    requires x3.k == x2.k && x3.info == x2.info && x3.nval == x2.nval && |g3.code| == |g2.code|
    requires x2.k.VJMP? ==> InstrAt(g3.code, x2.info - 1) == InstrAt(g2.code, x2.info - 1)
    requires x2.k.VRELOCABLE? ==> InstrAt(g3.code, x2.info) == InstrAt(g2.code, x2.info)
    ensures Direct(g3, x3, env, R) == Direct(g2, x2, env, R)
  {
  }

  /** A jump that leaves the first operand leaves the joined code. */
  lemma JoinExit(g0: Gen, g1: Gen, x1: Exp, cond: bool, g2: Gen, x2: Exp, g3: Gen, x3: Exp, env: Env, j: int, S: Regs)
    requires Follower(g0, g1, x1, cond, g2, x2) && Joined(g1, x1, cond, g2, x2, g3, x3)
    requires 0 <= j < |g1.code| && g1.code[j].Jmp? && j in Exits(x1, cond) && !Differs(env, g1.code, j, S)
    ensures Jump(env, Body(g3, x3), Pending(g3, x3), j, S) == Exit(j, S)
  {
    ExitsKept(g0, g1, x1, cond, g2, x2);
    var B3 := Body(g3, x3);
    assert j !in g1.held && B3[j].Jmp?;
    if j > 0 {
      assert if j - 1 in g1.held then B3[j-1].Jmp?
             else B3[j-1] == g1.code[j-1];
      HeldIsJump(g1, j - 1);
    }
    assert !Differs(env, B3, j, S);
  }

  lemma HeldIsJump(g: Gen, k: int)
    requires Wf(g) && 0 <= k < |g.code|
    ensures k in g.held ==> g.code[k].Jmp?
  {
    if k in g.held { InRange(g.code, g.held, k); }
  }

  /** The run of the joined code: the first operand decides, or the second one is run. */
  lemma JoinRun(g0: Gen, g1: Gen, x1: Exp, cond: bool, g2: Gen, x2: Exp, g3: Gen, x3: Exp, env: Env, R: Regs, i: int)
    requires Follower(g0, g1, x1, cond, g2, x2) && Joined(g1, x1, cond, g2, x2, g3, x3) && Entry(g0, i)
    requires Enter(env, g1.code, Pending(g1, x1), |g0.code|, i, R) != Stuck
    ensures var o1 := Enter(env, g1.code, Pending(g1, x1), |g0.code|, i, R);
            var o3 := Enter(env, Body(g3, x3), Pending(g3, x3), |g0.code|, i, R);
            && (o1.Exit? ==> 0 <= o1.j < |g1.code|)
            && (Arrives(g1.held, o1) ==>
                  o3 == Enter(env, Body(g2, x2), Pending(g2, x2), |g1.code|, if o1.End? then -1 else o1.j, o1.regs))
            && (o1.Exit? && o1.j in Exits(x1, cond) ==> o3 == o1) && (o1.Mixed? ==> o3.Mixed?)
  {
    hide Run, Jump, Differs;
    var B3, P1, P3 := Body(g3, x3), Pending(g1, x1), Pending(g3, x3);
    JoinPends(g0, g1, x1, cond, g2, x2, g3, x3);
    RunAbove(env, g0, g1, P1, B3, P3, i, R);
    var o1 := Enter(env, g1.code, P1, |g0.code|, i, R);
    ExitIsPending(env, g1.code, P1, |g0.code|, R);
    if i >= 0 { JumpExitIsPending(env, g1.code, P1, i, R); }
    if Arrives(g1.held, o1) {
      JoinRest(g0, g1, x1, cond, g2, x2, B3, P3, env, if o1.End? then -1 else o1.j, o1.regs);
    } else if o1.Exit? && o1.j in Exits(x1, cond) {
      JoinExit(g0, g1, x1, cond, g2, x2, g3, x3, env, o1.j, o1.regs);
    }
  }

  lemma JoinPends(g0: Gen, g1: Gen, x1: Exp, cond: bool, g2: Gen, x2: Exp, g3: Gen, x3: Exp)
    requires Follower(g0, g1, x1, cond, g2, x2) && Joined(g1, x1, cond, g2, x2, g3, x3)
    ensures Pends(g0, g1, Pending(g1, x1)) && forall k :: k in g1.held ==> k in Pending(g1, x1)
    ensures forall k :: k in Pending(g3, x3) && 0 <= k < |g1.code| ==> k in Pending(g1, x1)
  {
    ExitsKept(g0, g1, x1, cond, g2, x2);
    PendingJumps(g1, x1);
    AimedFacts(g0, g1.code, Pending(g1, x1));
    BodyPending(g1, g2, x2);
  }

  lemma JoinRest(g0: Gen, g1: Gen, x1: Exp, cond: bool, g2: Gen, x2: Exp, B3: seq<Instr>, P3: set<int>, env: Env,
                 i: int, S: Regs)
    requires Follower(g0, g1, x1, cond, g2, x2) && Entry(g1, i)
    requires Relinked(Body(g2, x2), B3, Pending(g2, x2)) && P3 == Pending(g2, x2) + Elems(Exits(x1, cond))
    ensures Enter(env, B3, P3, |g1.code|, i, S) == Enter(env, Body(g2, x2), Pending(g2, x2), |g1.code|, i, S)
  {
    ExitsKept(g0, g1, x1, cond, g2, x2);
    AboveBody(g1, g2, x2);
    BodyPending(g1, g2, x2);
    forall k | k in P3 && k !in Pending(g2, x2)
      ensures 0 <= k < |g1.code| && Body(g2, x2)[k].Jmp? && k !in g1.held
    {
      InRange(g2.code, Exits(x1, cond), k);
    }
    RunRelinkedAbove(env, g1, Body(g2, x2), Pending(g2, x2), B3, P3, i, S);
  }

  /** The instruction in front of a jump of the first operand is the same, as far as producing a value goes. */
  lemma JoinControl(g1: Gen, B: seq<Instr>, j: int)
    requires Above(g1, B) && Wf(g1) && 0 <= j < |g1.code| && j !in g1.held
    ensures IsValueJump(B, j) == IsValueJump(g1.code, j)
    ensures IsValueJump(B, j) ==> B[j-1] == g1.code[j-1]
  {
    if j > 0 {
      HeldIsJump(g1, j - 1);
      assert if j - 1 in g1.held then B[j-1].Jmp? else B[j-1] == g1.code[j-1];
    }
  }

  /** A jump that leaves the first operand leaves the joined expression with the same value. */
  lemma JoinLeavesFirst(g1: Gen, x1: Exp, cond: bool, g2: Gen, x2: Exp, g3: Gen, x3: Exp, j: int, S: Regs, v: Value)
    requires Joined(g1, x1, cond, g2, x2, g3, x3) && Wf(g1) && Disjoint(Exits(x1, cond), g1.held)
    requires 0 <= j < |g1.code| && j in Exits(x1, cond) && Leaves(g1.code, x1, j, S, v)
    requires if cond then x1.ts == [] else x1.fs == []
    ensures Leaves(Body(g3, x3), x3, j, S, v)
  {
    hide Body, Above, Relinked, Wf;
    assert j !in g1.held;
    JoinControl(g1, Body(g3, x3), j);
  }

  lemma JoinLeavesSecond(g1: Gen, x1: Exp, cond: bool, g2: Gen, x2: Exp, g3: Gen, x3: Exp, j: int, S: Regs, v: Value)
    requires Joined(g1, x1, cond, g2, x2, g3, x3)
    requires 0 <= j < |Body(g2, x2)| && Leaves(Body(g2, x2), x2, j, S, v)
    ensures Leaves(Body(g3, x3), x3, j, S, v)
  {
    RelinkedJumpValue(Body(g2, x2), Body(g3, x3), Pending(g2, x2), j, S, true);
    RelinkedJumpValue(Body(g2, x2), Body(g3, x3), Pending(g2, x2), j, S, false);
  }

  lemma JoinGives(g0: Gen, g1: Gen, x1: Exp, cond: bool, g2: Gen, x2: Exp, g3: Gen, x3: Exp,
                  env: Env, R: Regs, S: Regs, o: Outcome, v: Value)
    requires Joined(g1, x1, cond, g2, x2, g3, x3) && g0.freereg == g1.freereg
    requires Agree(R, S, g0.freereg) && Gives(g1, g2, x2, env, S, o, v) && (o.Exit? ==> 0 <= o.j < |Body(g2, x2)|)
    ensures Gives(g0, g3, x3, env, R, o, v)
  {
    if o.Mixed? { return; }
    SamePlace(g2, x2, g3, x3, env, o.regs);
    if !o.Mixed? && !(Arrives(g2.held, o) && Direct(g2, x2, env, o.regs) == v) {
      JoinLeavesSecond(g1, x1, cond, g2, x2, g3, x3, o.j, o.regs, v);
    }
  }

  /** The outcome of the second operand, when the first one does not decide. */
  lemma SecondGives(E2: Expr, g0: Gen, g1: Gen, x1: Exp, cond: bool, g2: Gen, x2: Exp, g3: Gen, x3: Exp,
                    env: Env, R: Regs, i: int, S: Regs) returns (o: Outcome)
    requires Follower(g0, g1, x1, cond, g2, x2) && Joined(g1, x1, cond, g2, x2, g3, x3)
    requires Entry(g1, i) && Covers(env, g2) && Scoped(E2, g0.nactvar) && Meaning(E2, g1, g2, x2)
    requires Agree(R, S, g0.freereg)
    ensures o == Enter(env, Body(g2, x2), Pending(g2, x2), |g1.code|, i, S)
    ensures Gives(g0, g3, x3, env, R, o, Eval(E2, env, R))
  {
    o := Enter(env, Body(g2, x2), Pending(g2, x2), |g1.code|, i, S);
    assert MeaningAt(E2, g1, g2, x2, env, S, i);
    EvalAgree(E2, env, R, S, g0.nactvar);
    ExitIsPending(env, Body(g2, x2), Pending(g2, x2), |g1.code|, S);
    if i >= 0 { JumpExitIsPending(env, Body(g2, x2), Pending(g2, x2), i, S); }
    JoinGives(g0, g1, x1, cond, g2, x2, g3, x3, env, R, S, o, Eval(E2, env, R));
  }

  lemma FirstGives(E1: Expr, g0: Gen, g1: Gen, x1: Exp, cond: bool, g2: Gen, x2: Exp, g3: Gen, x3: Exp,
                   env: Env, R: Regs, o: Outcome, v: Value)
    requires Follower(g0, g1, x1, cond, g2, x2) && Joined(g1, x1, cond, g2, x2, g3, x3)
    requires Decides(cond, g0, g1, x1, R, o, v) && !o.Mixed? && !(Arrives(g1.held, o) && IsFalse(v) != cond)
    requires o.Exit? ==> 0 <= o.j < |g1.code|
    ensures o.Exit? && o.j in Exits(x1, cond) && IsFalse(v) == cond
    ensures Gives(g0, g3, x3, env, R, o, v)
  {
    ExitsKept(g0, g1, x1, cond, g2, x2);
    JoinLeavesFirst(g1, x1, cond, g2, x2, g3, x3, o.j, o.regs, v);
  }

  lemma MixedGives(g0: Gen, g: Gen, e: Exp, env: Env, R: Regs, v: Value)
    ensures forall w :: Gives(g0, g, e, env, R, Mixed, w)
  {
  }

  lemma JoinEval(E1: Expr, E2: Expr, cond: bool, env: Env, R: Regs)
    ensures var v := Eval(E1, env, R);
            Eval(JoinExpr(cond, E1, E2), env, R) == if IsFalse(v) != cond then Eval(E2, env, R) else v
  {
  }

  lemma JoinMeaningAt(E1: Expr, E2: Expr, cond: bool, g0: Gen, g1: Gen, x1: Exp, g2: Gen, x2: Exp, g3: Gen, x3: Exp,
                      env: Env, R: Regs, i: int)
    requires Follower(g0, g1, x1, cond, g2, x2) && Joined(g1, x1, cond, g2, x2, g3, x3)
    requires Entry(g0, i) && Covers(env, g2) && Scoped(E2, g0.nactvar)
    requires BranchAt(E1, cond, g0, g1, x1, env, R, i) && Meaning(E2, g1, g2, x2)
    ensures MeaningAt(JoinExpr(cond, E1, E2), g0, g3, x3, env, R, i)
  {
    hide Run, Jump, Eval, Follower, Joined, Meaning, Gives, JoinExpr;
    JoinEval(E1, E2, cond, env, R);
    JoinRun(g0, g1, x1, cond, g2, x2, g3, x3, env, R, i);
    var o1, v1 := Enter(env, g1.code, Pending(g1, x1), |g0.code|, i, R), Eval(E1, env, R);
    if o1.Mixed? {
      MixedGives(g0, g3, x3, env, R, v1);
    } else if Arrives(g1.held, o1) && IsFalse(v1) != cond {
      var o := SecondGives(E2, g0, g1, x1, cond, g2, x2, g3, x3, env, R, if o1.End? then -1 else o1.j, o1.regs);
    } else {
      FirstGives(E1, g0, g1, x1, cond, g2, x2, g3, x3, env, R, o1, v1);
    }
  }

  /** What compiling an expression from g0 establishes. */
  ghost predicate Compiled(E: Expr, g0: Gen, g: Gen, e: Exp) {
    && State(g0, g, e) && RegsOf(g0, g, e)
    && (!g.err ==> Meaning(E, g0, g, e))
  }

  /** `and` and `or`: the second operand was compiled behind the branch on the first one. */
  lemma PosfixCompiled(E1: Expr, E2: Expr, cond: bool, g0: Gen, g1: Gen, x1: Exp, g2: Gen, x2: Exp)
    requires BranchState(g0, g1, x1, cond) && Scoped(E2, g0.nactvar) && Compiled(E2, g1, g2, x2)
    requires !g1.err ==> Branch(E1, cond, g0, g1, x1)
    ensures var (g3, x3) := Posfix(g2, cond, x1, x2); Compiled(JoinExpr(cond, E1, E2), g0, g3, x3)
  {
    var d := DischargeVars(g2, x2);
    DischargeVarsBecomes(E2, g1, g2, x2);
    JoinState(g0, g1, x1, cond, d.0, d.1);
    JoinBodies(g0, g1, x1, cond, d.0, d.1);
    var r3 := JoinLists(d.0, cond, x1, d.1);
    if !r3.0.err {
      forall env: Env, R: Regs, i | Covers(env, r3.0) && Entry(g0, i)
        ensures MeaningAt(JoinExpr(cond, E1, E2), g0, r3.0, r3.1, env, R, i)
      {
        assert BranchAt(E1, cond, g0, g1, x1, env, R, i);
        JoinMeaningAt(E1, E2, cond, g0, g1, x1, d.0, d.1, r3.0, r3.1, env, R, i);
      }
    }
  }

  // ----- comparisons -----

  /** Two operands, the second one generated behind the first. */
  ghost predicate Pair(g0: Gen, g1: Gen, e1: Exp, x1: int, g2: Gen, e2: Exp, x2: int) {
    OperandState(g0, g1, e1, x1) && OperandState(g1, g2, e2, x2)
  }

  /** An expression without code of its own, to speak of the code so far. */
  function NoExp(): Exp {
    Exp(VTRUE, 0, Nil, [], [])
  }

  lemma PairState(g0: Gen, g1: Gen, e1: Exp, x1: int, g2: Gen, e2: Exp, x2: int)
    requires Pair(g0, g1, e1, x1, g2, e2, x2)
    ensures State(g0, g2, NoExp()) && Pending(g2, NoExp()) == Elems(g2.held) && Body(g2, NoExp()) == g2.code
  {
    ExtendsTrans(g0, g1, g2);
    AimedFacts(g0, g1.code, Elems(g1.held));
    AimedFacts(g1, g2.code, Elems(g2.held));
    assert Pending(g2, NoExp()) == Elems(g2.held);
    forall j | j in g0.held
      ensures 0 <= j < |g2.code| && g2.code[j].Jmp? && (j in Elems(g2.held) || j + 1 + g2.code[j].sbx >= |g0.code|)
    {
      assert BelowAt(g1, g2, j);
    }
  }

  lemma PairRun(g0: Gen, g1: Gen, e1: Exp, x1: int, g2: Gen, e2: Exp, x2: int, env: Env, R: Regs, i: int)
    requires Pair(g0, g1, e1, x1, g2, e2, x2) && Entry(g0, i)
    requires var o := Enter(env, g1.code, Elems(g1.held), |g0.code|, i, R); o.Mixed? || Arrives(g1.held, o)
    ensures var o := Enter(env, g1.code, Elems(g1.held), |g0.code|, i, R);
            Enter(env, g2.code, Elems(g2.held), |g0.code|, i, R)
            == if o.Mixed? then o
               else Enter(env, g2.code, Elems(g2.held), |g1.code|, if o.End? then -1 else o.j, o.regs)
  {
    hide Run, Jump;
    var P1 := Elems(g1.held);
    AimedFacts(g0, g1.code, P1);
    forall k | k in P1 ensures 0 <= k < |g1.code| && g1.code[k].Jmp? { InRange(g1.code, g1.held, k); }
    AboveBody(g1, g2, NoExp());
    RunAbove(env, g0, g1, P1, g2.code, Elems(g2.held), i, R);
    var o := Enter(env, g1.code, P1, |g0.code|, i, R);
    if o.Exit? { InRange(g1.code, g1.held, o.j); }
  }

  /** An operand keeps its value while code behind it is run. */
  lemma OperandStays(g0: Gen, g1: Gen, e1: Exp, x1: int, env: Env, S: Regs, S': Regs)
    requires OperandState(g0, g1, e1, x1) && !g1.err && Agree(S, S', g1.freereg)
    ensures RK(env, S', x1) == RK(env, S, x1)
  {
  }

  /** Afterwards both operands have their values. */
  lemma PairAt(E1: Expr, E2: Expr, g0: Gen, g1: Gen, e1: Exp, x1: int, g2: Gen, e2: Exp, x2: int, env: Env, R: Regs,
               i: int)
    requires Pair(g0, g1, e1, x1, g2, e2, x2) && Entry(g0, i) && Covers(env, g2) && Scoped(E2, g0.nactvar)
    requires OperandAt(E1, g0, g1, x1, env, R, i) && Operand(E2, g1, g2, x2)
    requires !g1.err
    ensures var o := Enter(env, g2.code, Elems(g2.held), |g0.code|, i, R);
            || o.Mixed?
            || (&& Arrives(g2.held, o) && Agree(R, o.regs, g0.freereg)
                && RK(env, o.regs, x1) == Eval(E1, env, R) && RK(env, o.regs, x2) == Eval(E2, env, R))
  {
    hide Run, Jump, Eval, Extends, Aimed, RK;
    PairRun(g0, g1, e1, x1, g2, e2, x2, env, R, i);
    var o1 := Enter(env, g1.code, Elems(g1.held), |g0.code|, i, R);
    if o1.Mixed? { return; }
    var i', S := if o1.End? then -1 else o1.j, o1.regs;
    assert OperandAt(E2, g1, g2, x2, env, S, i');
    EvalAgree(E2, env, R, S, g0.nactvar);
    var o := Enter(env, g2.code, Elems(g2.held), |g1.code|, i', S);
    if !o.Mixed? { OperandStays(g0, g1, e1, x1, env, S, o.regs); }
  }

  /** The instruction codecomp emits compares the operands in the order of the source, or in the reverse
      order for > and >=. */
  function CompareInstr(op: RelOp, x1: int, x2: int): Instr {
    var (cmp, cond) := CompOf(op);
    var swap := !cond && cmp != OpEq;
    Compare(cmp, cond || swap, if swap then x2 else x1, if swap then x1 else x2)
  }

  lemma CompareInstrLemma(op: RelOp, E1: Expr, E2: Expr, x1: int, x2: int, env: Env, R: Regs, S: Regs)
    requires RK(env, S, x1) == Eval(E1, env, R) && RK(env, S, x2) == Eval(E2, env, R)
    ensures Boolean(Taken(CompareInstr(op, x1, x2), env, S)) == Eval(Rel(op, E1, E2), env, R)
  {
  }

  /** The state when the comparison and its jump were emitted. */
  lemma CompareState(g0: Gen, g2: Gen, gf: Gen, t: Instr, nval: Value)
    requires State(g0, g2, NoExp()) && t.Compare? && Wf(gf) && gf == g2.(freereg := g0.freereg)
    ensures var (g3, list) := CondJump(gf, t); var e := Exp(VJMP, Head(list), nval, [], []);
            && State(g0, g3, e) && RegsOf(g0, g3, e) && Body(g3, e) == Settled(g2)
            && g3.code[e.info-1] == t && g3.held == []
            && g3 == gf.(code := g3.code, held := [], err := g3.err) && (g2.err ==> g3.err)
  {
    CondJumpLemma(gf, t);
    var (g3, list) := CondJump(gf, t);
    SettledExtends(g2, g3);
    ExtendsTrans(g0, g2, g3);
    ListsKept(g0, g2, NoExp(), g3);
    SameLists(g0, g3, NoExp(), Exp(VJMP, Head(list), nval, [], []));
  }

  lemma CompareMeaningAt(op: RelOp, E1: Expr, E2: Expr, g0: Gen, g2: Gen, x1: int, x2: int, g3: Gen, e: Exp,
                         env: Env, R: Regs, i: int)
    requires State(g0, g2, NoExp()) && Entry(g0, i) && e.k.VJMP? && e.ts == [] && e.fs == []
    requires Body(g3, e) == Settled(g2) && g3.held == [] && InstrAt(g3.code, e.info - 1) == CompareInstr(op, x1, x2)
    requires var o := Enter(env, g2.code, Elems(g2.held), |g0.code|, i, R);
             || o.Mixed?
             || (&& Arrives(g2.held, o) && Agree(R, o.regs, g0.freereg)
                 && RK(env, o.regs, x1) == Eval(E1, env, R) && RK(env, o.regs, x2) == Eval(E2, env, R))
    ensures MeaningAt(Rel(op, E1, E2), g0, g3, e, env, R, i)
  {
    hide Eval;
    assert Pending(g3, e) == {} && Lists(NoExp()) == {};
    assert Body(g2, NoExp()) == g2.code && Pending(g2, NoExp()) == Elems(g2.held);
    var o := Resume(g0, g2, NoExp(), Settled(g2), {}, env, R, i);
    if !o.Mixed? { CompareInstrLemma(op, E1, E2, x1, x2, env, R, o.regs); }
  }

  /** An operand is found again without generating code. */
  lemma OperandAgain(g0: Gen, g1: Gen, e: Exp, x: int, g: Gen)
    requires OperandState(g0, g1, e, x)
    ensures Exp2RK(g, e) == (g, e, x)
  {
  }

  lemma FreeBoth(g0: Gen, g1: Gen, e1: Exp, x1: int, g2: Gen, e2: Exp, x2: int)
    requires Pair(g0, g1, e1, x1, g2, e2, x2)
    ensures var gf := FreeExp(FreeExp(g2, e2), e1); gf == g2.(freereg := g0.freereg) && Wf(gf)
  {
  }

  lemma PairCompiled(op: RelOp, E1: Expr, E2: Expr, g0: Gen, g1: Gen, e1: Exp, x1: int, g2: Gen, e2: Exp, x2: int,
                     nval: Value)
    requires Pair(g0, g1, e1, x1, g2, e2, x2) && Scoped(E2, g0.nactvar)
    requires !g2.err ==> !g1.err && Operand(E1, g0, g1, x1) && Operand(E2, g1, g2, x2)
    ensures var (g3, list) := CondJump(FreeExp(FreeExp(g2, e2), e1), CompareInstr(op, x1, x2));
            Compiled(Rel(op, E1, E2), g0, g3, Exp(VJMP, Head(list), nval, [], []))
  {
    hide Run, Jump, Eval, Gives;
    var t := CompareInstr(op, x1, x2);
    var gf := FreeExp(FreeExp(g2, e2), e1);
    FreeBoth(g0, g1, e1, x1, g2, e2, x2);
    PairState(g0, g1, e1, x1, g2, e2, x2);
    CompareState(g0, g2, gf, t, nval);
    var r := CondJump(gf, t);
    var g3, e := r.0, Exp(VJMP, Head(r.1), nval, [], []);
    if !g3.err {
      forall env: Env, R: Regs, i | Covers(env, g3) && Entry(g0, i)
        ensures MeaningAt(Rel(op, E1, E2), g0, g3, e, env, R, i)
      {
        assert OperandAt(E1, g0, g1, x1, env, R, i);
        PairAt(E1, E2, g0, g1, e1, x1, g2, e2, x2, env, R, i);
        CompareMeaningAt(op, E1, E2, g0, g2, x1, x2, g3, e, env, R, i);
      }
    }
  }

  /** codecomp, when the second operand was compiled behind the first. */
  lemma CodeCompCompiled(op: RelOp, E1: Expr, E2: Expr, g0: Gen, g1: Gen, e1: Exp, x1: int, g2: Gen, y: Exp)
    requires OperandState(g0, g1, e1, x1) && Compiled(E2, g1, g2, y) && Scoped(E2, g0.nactvar)
    requires !g1.err ==> Operand(E1, g0, g1, x1)
    ensures var (g3, e) := CodeComp(g2, CompOf(op).0, CompOf(op).1, e1, y);
            Compiled(Rel(op, E1, E2), g0, g3, e)
  {
    hide Run, Jump, Eval, Meaning, Operand, Exp2RK;
    OperandAgain(g0, g1, e1, x1, g2);
    Exp2RKLemma(E2, g1, g2, y);
    var r := Exp2RK(g2, y);
    PairCompiled(op, E1, E2, g0, g1, e1, x1, r.0, r.1, r.2, e1.nval);
  }

  // ----- the whole expression -----

  /** An expression that needs no code of its own. */
  lemma NoCodeCompiled(E: Expr, g0: Gen, g: Gen, e: Exp)
    requires Wf(g0) && Wf(g) && g == g0.(k := g.k, h := g.h, err := g.err) && g0.k <= g.k && (g0.err ==> g.err)
    requires e.ts == [] && e.fs == []
    requires match e.k
             case VLOCAL => 0 <= e.info < g.nactvar
             case VK => 0 <= e.info < |g.k| && !IsFalse(g.k[e.info])
             case VKNUM => !IsFalse(e.nval)
             case VTRUE => true
             case VFALSE => true
             case VUPVAL => true
             case _ => false
    requires forall env: Env, R: Regs {:trigger Direct(g, e, env, R)} ::
               g.k <= env.k ==> Direct(g, e, env, R) == Eval(E, env, R)
    ensures Compiled(E, g0, g, e)
  {
    forall k | 0 <= k < |g0.code| ensures BelowAt(g0, g, k) {
      if k in g0.held { InRange(g0.code, g0.held, k); }
    }
    assert Pending(g, e) == Elems(g0.held);
    forall j | j in g0.held ensures 0 <= j < |g.code| && g.code[j].Jmp? && j in Pending(g, e) {
      InRange(g0.code, g0.held, j);
    }
    forall env: Env, R: Regs, i | Covers(env, g) && Entry(g0, i)
      ensures MeaningAt(E, g0, g, e, env, R, i)
    {
      assert Body(g, e) == g.code;
      assert Direct(g, e, env, R) == Eval(E, env, R);
    }
  }

  lemma BecomesCompiled(E: Expr, g0: Gen, g: Gen, e: Exp, E': Expr, g': Gen, e': Exp)
    requires Compiled(E, g0, g, e) && Becomes(g0, E, g, e, E', g', e')
    ensures Compiled(E', g0, g', e')
  {
  }

  lemma StringCompiled(s: string, g0: Gen)
    requires Wf(g0)
    ensures Compiled(Str(s), g0, Compile(g0, Str(s)).0, Compile(g0, Str(s)).1)
  {
    AddKLemma(g0, Text(s));
    var (g, i) := AddK(g0, Text(s));
    NoCodeCompiled(Str(s), g0, g, Exp(VK, i, Nil, [], []));
  }

  lemma LeafCompiled(E: Expr, g0: Gen)
    requires Wf(g0) && Scoped(E, g0.nactvar)
    requires E.Local? || E.Upval? || E.True? || E.False? || E.Numeral?
    ensures Compiled(E, g0, Compile(g0, E).0, Compile(g0, E).1)
  {
    var r := Compile(g0, E);
    NoCodeCompiled(E, g0, r.0, r.1);
  }

  lemma JoinCompiled(cond: bool, l: Expr, r: Expr, g0: Gen, g1: Gen, x1: Exp)
    requires Compiled(l, g0, g1, x1) && Scoped(r, g0.nactvar)
    requires var g2 := GoIf(g1, x1, cond).0; Wf(g2) ==> Compiled(r, g2, Compile(g2, r).0, Compile(g2, r).1)
    ensures var (g2, x2) := GoIf(g1, x1, cond);
            var (g3, x3) := Compile(g2, r); var (g4, x4) := Posfix(g3, cond, x2, x3);
            Compiled(JoinExpr(cond, l, r), g0, g4, x4)
  {
    hide Meaning, Branch, Posfix, Compile, GoIf;
    GoIfLemma(l, cond, g0, g1, x1);
    var b := GoIf(g1, x1, cond);
    var c := Compile(b.0, r);
    PosfixCompiled(l, r, cond, g0, b.0, b.1, c.0, c.1);
  }

  lemma RelCompiled(op: RelOp, l: Expr, r: Expr, g0: Gen, g1: Gen, x1: Exp)
    requires Compiled(l, g0, g1, x1) && Scoped(r, g0.nactvar)
    requires var g2 := Exp2RK(g1, x1).0; Wf(g2) ==> Compiled(r, g2, Compile(g2, r).0, Compile(g2, r).1)
    ensures var (g2, x2, _) := Exp2RK(g1, x1);
            var (g3, x3) := Compile(g2, r); var (g4, x4) := CodeComp(g3, CompOf(op).0, CompOf(op).1, x2, x3);
            Compiled(Rel(op, l, r), g0, g4, x4)
  {
    hide Meaning, Operand, Exp2RK, CodeComp, Compile;
    Exp2RKLemma(l, g0, g1, x1);
    var b := Exp2RK(g1, x1);
    var c := Compile(b.0, r);
    CodeCompCompiled(op, l, r, g0, b.0, b.1, b.2, c.0, c.1);
  }

  /** Compiler correctness: what Compile returns means the expression, unless a limit was exceeded, or the jump
      of a literal was mixed with a pending value jump. */
  lemma {:induction false} CompileCorrect(E: Expr, g0: Gen)
    requires Wf(g0) && Scoped(E, g0.nactvar)
    ensures Compiled(E, g0, Compile(g0, E).0, Compile(g0, E).1)
    decreases E
  {
    hide Meaning, GoIf, Exp2RK, CodeComp, CodeNot, Posfix, State, Wf;
    match E {
      case Str(s) => StringCompiled(s, g0);
      case Paren(e) =>
        CompileCorrect(e, g0);
        var c := Compile(g0, e);
        DischargeVarsBecomes(e, g0, c.0, c.1);
        ParenCompiled(e, g0, c.0, c.1);
      case Negate(e) =>
        CompileCorrect(e, g0);
        var c := Compile(g0, e);
        CodeNotLemma(e, g0, c.0, c.1);
        var d := CodeNot(c.0, c.1);
        BecomesCompiled(e, g0, c.0, c.1, E, d.0, d.1);
      case And(l, r) =>
        CompileCorrect(l, g0);
        var c := Compile(g0, l);
        GoIfWf(l, true, g0, c.0, c.1);
        CompileCorrect(r, GoIf(c.0, c.1, true).0);
        JoinCompiled(true, l, r, g0, c.0, c.1);
      case Or(l, r) =>
        CompileCorrect(l, g0);
        var c := Compile(g0, l);
        GoIfWf(l, false, g0, c.0, c.1);
        CompileCorrect(r, GoIf(c.0, c.1, false).0);
        JoinCompiled(false, l, r, g0, c.0, c.1);
      case Rel(op, l, r) =>
        CompileCorrect(l, g0);
        var c := Compile(g0, l);
        OperandWf(l, g0, c.0, c.1);
        CompileCorrect(r, Exp2RK(c.0, c.1).0);
        RelCompiled(op, l, r, g0, c.0, c.1);
      case _ => LeafCompiled(E, g0);
    }
  }

  lemma ParenCompiled(E: Expr, g0: Gen, g: Gen, e: Exp)
    requires Compiled(E, g0, g, e)
    ensures var (g', e') := DischargeVars(g, e); Compiled(Paren(E), g0, g', e')
  {
    DischargeVarsBecomes(E, g0, g, e);
    var d := DischargeVars(g, e);
    if !d.0.err {
      forall env: Env, R: Regs, i | Covers(env, d.0) && Entry(g0, i)
        ensures MeaningAt(Paren(E), g0, d.0, d.1, env, R, i)
      {
        assert MeaningAt(E, g0, d.0, d.1, env, R, i);
      }
    }
  }

  lemma GoIfWf(E: Expr, cond: bool, g0: Gen, g: Gen, e: Exp)
    requires Compiled(E, g0, g, e)
    ensures var g' := GoIf(g, e, cond).0; Wf(g') && g'.nactvar == g0.nactvar
  {
    GoIfLemma(E, cond, g0, g, e);
  }

  lemma OperandWf(E: Expr, g0: Gen, g: Gen, e: Exp)
    requires Compiled(E, g0, g, e)
    ensures var g' := Exp2RK(g, e).0; Wf(g') && g'.nactvar == g0.nactvar
  {
    Exp2RKLemma(E, g0, g, e);
  }
}
