/** The code generator (lcode.c), with its state updated in place and its patch lists threaded through
    the code.  Every method is proved to compute its function of `CodeGenSpec`. */
module CodeGen {
  import opened Limits
  import opened Machine
  import opened JumpLists
  import opened CodeGenSpec
  import opened CodeGenProof
  import opened CodeGenTheorems
  import opened CodeGenLimits

  /** expdesc.  t and f are the heads of its patch lists; ts and fs are the lists they denote. */
  class ExpDesc {
    var k: Kind
    var info: int
    var nval: Value
    var t: int
    var f: int
    ghost var ts: seq<int>
    ghost var fs: seq<int>

    /** init_exp */
    constructor (k: Kind, info: int, nval: Value)
      ensures Abs() == Exp(k, info, nval, [], []) && Heads()
    {
      this.k, this.info, this.nval := k, info, nval;
      t, f := NO_JUMP, NO_JUMP;
      ts, fs := [], [];
    }

    ghost function Abs(): Exp
      reads this
    {
      Exp(k, info, nval, ts, fs)
    }

    ghost predicate Heads()
      reads this
    {
      t == Head(ts) && f == Head(fs)
    }
  }

  /** FuncState and the vectors of its Proto; the next instruction goes to position |code|. */
  class FuncState {
    var code: seq<Instr>
    var jpc: int
    var freereg: int
    var nactvar: int
    var maxstack: int
    var k: seq<Value>
    var h: map<Value, int>
    var err: bool
    ghost var held: seq<int>
    ghost var mixed: set<(int, bool)>

    /** A function whose n parameters occupy the first registers. */
    constructor (n: nat)
      requires n < MAXSTACK
      ensures Abs() == NewFunction(n) && Valid()
    {
      code, jpc, freereg, nactvar, maxstack := [], NO_JUMP, n, n, if n < 2 then 2 else n;
      k, h, err := [], map[], false;
      held, mixed := [], {};
    }

    ghost function Abs(): Gen
      reads this
    {
      Gen(code, held, freereg, nactvar, maxstack, k, h, err, mixed)
    }

    ghost predicate Valid()
      reads this
    {
      Wf(Abs()) && jpc == Head(held)
    }

    // ----- jump lists -----

    method FixJump(pc: int, dest: int)
      requires 0 <= pc < |code|
      modifies this`code, this`err
      ensures code == Put(old(code), pc, Jmp(dest - (pc + 1))) && err == (old(err) || Far(pc, dest))
    {
      var offset := dest - (pc + 1);
      if Magnitude(offset) > MAXARG_sBx { err := true; }  // the offset does not fit its field
      code := code[pc := Jmp(offset)];
    }

    /** luaK_concat */
    method Concat(l1: int, l2: int, ghost s: seq<int>, ghost t: seq<int>) returns (l: int)
      requires Threaded(code, s) && Threaded(code, t) && l1 == Head(s) && l2 == Head(t)
      modifies this`code, this`err
      ensures Abs() == CodeGenSpec.Concat(old(Abs()), s, t) && l == Head(s + t)
    {
      SuffixHead(code, s, 0);
      SuffixHead(code, t, 0);
      assert s[0..] == s && t[0..] == t;
      if l2 == NO_JUMP {
        assert s + t == s;
        return l1;
      } else if l1 == NO_JUMP {
        assert s + t == t;
        return l2;
      }
      var list := l1;
      ghost var i := 0;
      var next := GetJump(code, list);
      while next != NO_JUMP
        invariant code == old(code) && err == old(err)
        invariant 0 <= i < |s| && list == s[i] && LinkAt(code, s, i) && next == GetJump(code, list)
        decreases |s| - i
      {
        SuffixHead(code, s, i);
        SuffixHead(code, s, i + 1);
        list, i := next, i + 1;
        next := GetJump(code, list);
      }
      SuffixHead(code, s, i);
      SuffixHead(code, s, i + 1);
      FixJump(list, l2);
      l := l1;
    }

    /** luaK_concat on the true list of e. */
    method ConcatT(e: ExpDesc, list: int, ghost s: seq<int>)
      requires Threaded(code, e.ts) && Threaded(code, s) && e.Heads() && list == Head(s)
      modifies this`code, this`err, e`t, e`ts
      ensures Abs() == CodeGenSpec.Concat(old(Abs()), old(e.ts), s)
      ensures e.Abs() == old(e.Abs()).(ts := old(e.ts) + s) && e.Heads()
    {
      e.t := Concat(e.t, list, e.ts, s);
      e.ts := e.ts + s;
    }

    /** luaK_concat on the false list of e. */
    method ConcatF(e: ExpDesc, list: int, ghost s: seq<int>)
      requires Threaded(code, e.fs) && Threaded(code, s) && e.Heads() && list == Head(s)
      modifies this`code, this`err, e`f, e`fs
      ensures Abs() == CodeGenSpec.Concat(old(Abs()), old(e.fs), s)
      ensures e.Abs() == old(e.Abs()).(fs := old(e.fs) + s) && e.Heads()
    {
      e.f := Concat(e.f, list, e.fs, s);
      e.fs := e.fs + s;
    }

    /** patchtestreg */
    method PatchTestReg(node: int, reg: int) returns (patched: bool)
      requires 0 <= node < |code| && code[node].Jmp?
      modifies this`code
      ensures patched == IsValueJump(old(code), node)
      ensures code == if patched then Put(old(code), node - 1, Retarget(old(code)[node-1], reg)) else old(code)
    {
      // getjumpcontrol: the instruction in front of the jump if it is a test, else the jump itself
      var i := if node >= 1 && IsTest(code[node-1]) then node - 1 else node;
      if !code[i].TestSet? { return false; }
      if reg != NO_REG && reg != code[i].b {
        code := code[i := TestSet(reg, code[i].b, code[i].cond)];
      } else {
        code := code[i := Test(code[i].b, code[i].cond)];
      }
      return true;
    }

    /** One round of patchlistaux. */
    method PatchJump(list: int, vtarget: int, reg: int, dtarget: int)
      requires 0 <= list < |code| && code[list].Jmp?
      modifies this`code, this`err
      ensures code == PatchOne(old(code), list, vtarget, reg, dtarget)
      ensures err == (old(err) || Far(list, if IsValueJump(old(code), list) then vtarget else dtarget))
    {
      var value := PatchTestReg(list, reg);
      FixJump(list, if value then vtarget else dtarget);
    }

    method PatchListAux(list0: int, vtarget: int, reg: int, dtarget: int, ghost s: seq<int>)
      requires Threaded(code, s) && list0 == Head(s)
      modifies this`code, this`err
      ensures Abs() == PatchList(old(Abs()), s, vtarget, reg, dtarget)
    {
      hide Patched, PatchedFar, PatchOne, IsValueJump, Far, GetJump, Threaded;
      var list := list0;
      ghost var n, before := 0, code;
      ThreadedJumps(code, s);
      ThreadedDistinct(code, s);
      PatchedFarNone(code, vtarget, dtarget);
      PatchedNone(code, vtarget, reg, dtarget);
      assert s[..0] == [] && s[0..] == s;
      while list != NO_JUMP
        invariant 0 <= n <= |s| && list == Head(s[n..])
        invariant code == Patched(before, s[..n], vtarget, reg, dtarget)
        invariant err == (old(err) || PatchedFar(before, s[..n], vtarget, dtarget))
        decreases |s| - n
      {
        SuffixHead(before, s, n);
        PatchedStep(before, s, n, vtarget, reg, dtarget);
        PatchedFarStep(before, s, n, vtarget, dtarget);
        SameJump(before, code, list);
        var next := GetJump(code, list);
        PatchJump(list, vtarget, reg, dtarget);
        list, n := next, n + 1;
      }
      SuffixHead(before, s, n);
      assert s[..n] == s;
    }

    /** need_value */
    method ListNeedsValue(list0: int, ghost s: seq<int>) returns (need: bool)
      requires Threaded(code, s) && list0 == Head(s)
      ensures need == NeedValue(code, s)
    {
      var list := list0;
      ghost var n := 0;
      assert s[0..] == s;
      while list != NO_JUMP
        invariant 0 <= n <= |s| && list == Head(s[n..])
        invariant forall i :: 0 <= i < n ==> IsValueJump(code, s[i])
        decreases |s| - n
      {
        SuffixHead(code, s, n);
        var i := if list >= 1 && IsTest(code[list-1]) then list - 1 else list;
        if !code[i].TestSet? {
          assert s[n] in s;
          return true;
        }
        list, n := GetJump(code, list), n + 1;
      }
      SuffixHead(code, s, n);
      return false;
    }

    /** removevalues */
    method RemoveValues(list0: int, ghost s: seq<int>)
      requires Threaded(code, s) && list0 == Head(s)
      modifies this`code
      ensures code == ValuesRemoved(old(code), s)
    {
      var list := list0;
      ghost var n, before := 0, code;
      assert s[0..] == s;
      while list != NO_JUMP
        invariant 0 <= n <= |s| && list == Head(s[n..]) && |code| == |before|
        invariant forall i :: 0 <= i < |code| ==>
                    code[i] == if before[i].TestSet? && i + 1 in s[..n] then Retarget(before[i], NO_REG) else before[i]
        decreases |s| - n
      {
        SuffixHead(before, s, n);
        assert s[..n+1] == s[..n] + [s[n]];
        assert s[n] !in s[..n];
        var patched := PatchTestReg(list, NO_REG);
        list, n := GetJump(code, list), n + 1;
      }
      SuffixHead(before, s, n);
      assert s[..n] == s;
    }

    /** dischargejpc */
    method DischargeJpc()
      requires Threaded(code, held) && jpc == Head(held)
      modifies this`code, this`err, this`jpc, this`held
      ensures Abs() == Discharge(old(Abs())) && jpc == NO_JUMP
    {
      PatchListAux(jpc, |code|, NO_REG, |code|, held);
      jpc, held := NO_JUMP, [];
    }

    /** luaK_code */
    method Code(i: Instr) returns (pc: int)
      requires Threaded(code, held) && jpc == Head(held)
      modifies this`code, this`err, this`jpc, this`held
      ensures Abs() == Emit(old(Abs()), i) && jpc == NO_JUMP && pc == |old(code)|
    {
      DischargeJpc();
      if |code| >= MAX_INT { err := true; }
      code := code + [i];
      pc := |code| - 1;
    }

    /** luaK_jump */
    method Jump() returns (j: int)
      requires Valid()
      modifies this`code, this`err, this`jpc, this`held
      ensures Abs() == EmitJump(old(Abs())).0 && jpc == NO_JUMP && held == [] && j == Head(EmitJump(old(Abs())).1)
    {
      ghost var g := Abs();
      EmitJumpLemma(g);
      var onHold := jpc;
      ghost var s := held;
      jpc, held := NO_JUMP, [];
      j := Code(Jmp(NO_JUMP));
      PatchedNone(g.code, |g.code|, NO_REG, |g.code|);
      assert code == g.code + [Jmp(NO_JUMP)];
      PrefixKeeps(g.code, code, s);
      assert LinkAt(code, [j], 0);
      j := Concat(j, onHold, [j], s);
    }

    method CondJump(i: Instr) returns (j: int)
      requires Valid() && IsTest(i)
      modifies this`code, this`err, this`jpc, this`held
      ensures Abs() == CodeGenSpec.CondJump(old(Abs()), i).0 && jpc == NO_JUMP && held == []
      ensures j == Head(CodeGenSpec.CondJump(old(Abs()), i).1) == |old(code)| + 1
    {
      ghost var g := Abs();
      CondJumpLemma(g, i);
      var pc := Code(i);
      PatchedNone(code, |code|, NO_REG, |code|);
      j := Code(Jmp(NO_JUMP));
      assert Abs() == CodeGenSpec.CondJump(g, i).0;
    }

    /** luaK_patchtohere */
    method PatchToHere(list: int, ghost s: seq<int>)
      requires Threaded(code, held) && jpc == Head(held) && Threaded(code, s) && list == Head(s)
      modifies this`code, this`err, this`jpc, this`held
      ensures Abs() == CodeGenSpec.PatchToHere(old(Abs()), s) && jpc == Head(held)
    {
      jpc := Concat(jpc, list, held, s);
      held := held + s;
    }

    // ----- registers and constants -----

    method CheckStack(n: int)
      modifies this`maxstack, this`err
      ensures Abs() == CodeGenSpec.CheckStack(old(Abs()), n)
    {
      var newstack := freereg + n;
      if newstack > maxstack {
        if newstack >= MAXSTACK { err := true; }  // no instruction can name so many registers
        maxstack := newstack;
      }
    }

    method ReserveRegs(n: int)
      modifies this`maxstack, this`err, this`freereg
      ensures Abs() == CodeGenSpec.ReserveRegs(old(Abs()), n)
    {
      CheckStack(n);
      freereg := freereg + n;
    }

    method FreeExp(e: ExpDesc)
      modifies this`freereg
      ensures Abs() == CodeGenSpec.FreeExp(old(Abs()), e.Abs())
    {
      if e.k == VNONRELOC && e.info >= nactvar { freereg := freereg - 1; }
    }

    method AddK(v: Value) returns (i: int)
      modifies this`k, this`h, this`err
      ensures (Abs(), i) == CodeGenSpec.AddK(old(Abs()), v)
    {
      if v in h {
        i := h[v];
      } else {
        i := |k|;
        if i >= MAXARG_Bx { err := true; }
        h := h[v := i];
        k := k + [v];
      }
    }

    // ----- putting an expression somewhere -----

    /** e describes an expression whose code starts at the end of g0, and its list heads are right. */
    ghost predicate Holds(e: ExpDesc, g0: Gen)
      reads this, e
    {
      State(g0, Abs(), e.Abs()) && jpc == Head(held) && e.Heads()
    }

    /** luaK_dischargevars */
    method DischargeVars(e: ExpDesc)
      requires Valid() && e.Heads()
      modifies this`code, this`err, this`jpc, this`held, e`k, e`info
      ensures (Abs(), e.Abs()) == CodeGenSpec.DischargeVars(old(Abs()), old(e.Abs()))
      ensures Valid() && e.Heads()
    {
      if e.k == VLOCAL {
        e.k := VNONRELOC;
      } else if e.k == VUPVAL {
        EmitLemma(Abs(), GetUpval(0, e.info));
        var pc := Code(GetUpval(0, e.info));
        e.info, e.k := pc, VRELOCABLE;
      }
    }

    lemma Discharge2RegFacts(g0: Gen, g: Gen, e: Exp, reg: int)
      requires State(g0, g, e)
      ensures Wf(g) && Wf(CodeGenSpec.Discharge2Reg(g, e, reg).0)
      ensures var (g1, e1) := CodeGenSpec.DischargeVars(g, e);
              Wf(g1) && (e1.k.VRELOCABLE? ==> 0 <= e1.info < |g1.code|) && !e1.k.VLOCAL? && !e1.k.VUPVAL?
    {
      hide Discharged;
      DischargeVarsLemma(g0, g, e);
      var d := CodeGenSpec.DischargeVars(g, e);
      if !d.1.k.VJMP? {
        Discharge2RegLemma(g0, d.0, d.1, reg);
        DischargedWf(g0, d.0, d.1, CodeGenSpec.Discharge2Reg(d.0, d.1, reg).0, reg);
      }
    }

    lemma DischargedWf(g0: Gen, g: Gen, e: Exp, g': Gen, reg: int)
      requires Discharged(g0, g, e, g', reg)
      ensures Wf(g')
    {
    }

    method Discharge2Reg(e: ExpDesc, reg: int, ghost g0: Gen)
      requires Holds(e, g0)
      modifies this`code, this`err, this`jpc, this`held, this`k, this`h, e`k, e`info
      ensures (Abs(), e.Abs()) == CodeGenSpec.Discharge2Reg(old(Abs()), old(e.Abs()), reg)
      ensures Valid() && e.Heads()
    {
      hide State, Placed, Discharged, WfLists, Extends, TestsPaired, ConstantsOk, Patched, PatchedFar, Direct;
      ghost var g, x := Abs(), e.Abs();
      Discharge2RegFacts(g0, g, x, reg);
      DischargeVars(e);
      if e.k == VJMP { return; }
      match e.k {
        case VTRUE => var _ := Code(LoadBool(reg, true, false));
        case VFALSE => var _ := Code(LoadBool(reg, false, false));
        case VK => var _ := Code(LoadK(reg, e.info));
        case VKNUM =>
          var i := AddK(e.nval);
          var _ := Code(LoadK(reg, i));
        case VRELOCABLE => code := code[e.info := SetA(code[e.info], reg)];
        case VNONRELOC =>
          if reg != e.info { var _ := Code(Move(reg, e.info)); }
        case _ => assert false;
      }
      e.k, e.info := VNONRELOC, reg;
    }

    method Discharge2AnyReg(e: ExpDesc, ghost g0: Gen)
      requires Holds(e, g0) && RegsOf(g0, Abs(), e.Abs()) && IsValue(e.Abs())
      modifies this, e`k, e`info
      ensures (Abs(), e.Abs()) == CodeGenSpec.Discharge2AnyReg(old(Abs()), old(e.Abs()))
      ensures Holds(e, g0) && RegsOf(g0, Abs(), e.Abs())
    {
      Discharge2AnyRegLemma(g0, Abs(), e.Abs());
      if e.k != VNONRELOC {
        ReserveLemma(g0, Abs(), e.Abs());
        ReserveRegs(1);
        Discharge2Reg(e, freereg - 1, g0);
      }
    }

    method HasJumps(e: ExpDesc) returns (b: bool)
      requires Threaded(code, e.ts) && Threaded(code, e.fs) && Disjoint(e.ts, e.fs) && e.Heads()
      ensures b <==> !(e.ts == [] && e.fs == [])
    {
      SameHead(code, e.ts, e.fs);
      b := e.t != e.f;
    }

    /** The part of exp2reg that emits the two loads. */
    method LoadTails(jump: bool, reg: int) returns (pf: int, pt: int)
      requires Valid() && (!jump ==> held == [])
      modifies this`code, this`err, this`jpc, this`held
      ensures (Abs(), pf, pt) == CodeGenSpec.LoadTails(old(Abs()), jump, reg)
      ensures Valid()
    {
      LoadTailsLemma(Abs(), jump, reg);
      var fj := NO_JUMP;
      ghost var s: seq<int> := [];
      if jump {
        EmitJumpLemma(Abs());
        s := CodeGenSpec.EmitJump(Abs()).1;
        fj := Jump();
      }
      EmitSettled(Abs(), LoadBool(reg, false, true));
      ghost var before := code;
      pf := Code(LoadBool(reg, false, true));
      EmitSettled(Abs(), LoadBool(reg, true, false));
      pt := Code(LoadBool(reg, true, false));
      PrefixKeeps(before, code, s);
      PatchToHere(fj, s);
    }

    /** The part of exp2reg for an expression with jumps. */
    method PatchValues(e: ExpDesc, jump: bool, reg: int)
      requires Valid() && e.Heads() && Threaded(code, e.ts) && Threaded(code, e.fs) && Disjoint(e.ts, e.fs)
      requires !jump ==> held == []
      modifies this`code, this`err, this`jpc, this`held
      ensures Abs() == CodeGenSpec.PatchValues(old(Abs()), e.ts, e.fs, jump, reg)
      ensures jpc == Head(held)
    {
      var jumps := HasJumps(e);
      if !jumps { return; }
      var pf, pt := NO_JUMP, NO_JUMP;
      var needT := ListNeedsValue(e.t, e.ts);
      var needF := ListNeedsValue(e.f, e.fs);
      if needT || needF {
        LoadTailsLemma(Abs(), jump, reg);
        ghost var before := code;
        pf, pt := LoadTails(jump, reg);
        assert before <= code;
        PrefixKeeps(before, code, e.ts);
        PrefixKeeps(before, code, e.fs);
      }
      var final := |code|;
      PatchedKeeps(code, e.fs, final, reg, pf, e.ts);
      PatchListAux(e.f, final, reg, pf, e.fs);
      PatchListAux(e.t, final, reg, pt, e.ts);
    }

    lemma Exp2RegFacts(g0: Gen, g: Gen, e: Exp, reg: int)
      requires State(g0, g, e)
      ensures var (g1, e1) := CodeGenSpec.Discharge2Reg(g, e, reg);
              && Threaded(g1.code, e1.ts) && Threaded(g1.code, e1.fs) && Disjoint(e1.ts, e1.fs)
              && (!e1.k.VJMP? ==> Wf(g1))
              && (e1.k.VJMP? ==>
                    && Threaded(g1.code, [e1.info]) && g1.held == []
                    && var g2 := CodeGenSpec.Concat(g1, e1.ts, [e1.info]);
                       && Wf(g2) && g2.held == [] && Threaded(g2.code, e1.ts + [e1.info]) && Threaded(g2.code, e1.fs)
                       && Disjoint(e1.ts + [e1.info], e1.fs))
      ensures Wf(CodeGenSpec.Exp2Reg(g, e, reg).0)
    {
      hide ConstantsOk;
      DischargeVarsLemma(g0, g, e);
      var d := CodeGenSpec.DischargeVars(g, e);
      Exp2RegLemma(True, g0, d.0, d.1, reg);
      if d.1.k.VJMP? {
        CompareConcat(g0, d.0, d.1);
        assert LinkAt(d.0.code, [d.1.info], 0);
      } else {
        Discharge2RegLemma(g0, d.0, d.1, reg);
      }
    }

    /** The part of exp2reg behind discharge2reg. */
    method CloseLists(e: ExpDesc, reg: int)
      requires jpc == Head(held) && e.Heads()
      requires Threaded(code, e.ts) && Threaded(code, e.fs) && Disjoint(e.ts, e.fs)
      requires if e.k != VJMP then Wf(Abs())
               else && Threaded(code, [e.info]) && held == []
                    && var g := CodeGenSpec.Concat(Abs(), e.ts, [e.info]);
                       && Wf(g) && g.held == [] && Threaded(g.code, e.ts + [e.info]) && Threaded(g.code, e.fs)
                       && Disjoint(e.ts + [e.info], e.fs)
      modifies this`code, this`err, this`jpc, this`held, e`t, e`ts
      ensures var g, x := old(Abs()), old(e.Abs());
              Abs() == CodeGenSpec.CloseLists(g, x, reg)
      ensures jpc == Head(held)
    {
      hide Wf, Threaded, Disjoint, Linked, CodeGenSpec.Concat, CodeGenSpec.PatchValues;
      var jump := e.k != VJMP;
      if !jump { ConcatT(e, e.info, [e.info]); }
      PatchValues(e, jump, reg);
    }

    method Exp2Reg(e: ExpDesc, reg: int, ghost g0: Gen)
      requires Holds(e, g0)
      modifies this, e
      ensures (Abs(), e.Abs()) == CodeGenSpec.Exp2Reg(old(Abs()), old(e.Abs()), reg)
      ensures Valid() && e.Heads()
    {
      hide State, Wf, Threaded, Disjoint, Linked, CodeGenSpec.Concat, CodeGenSpec.Discharge2Reg,
           CodeGenSpec.CloseLists;
      Exp2RegFacts(g0, Abs(), e.Abs(), reg);
      Discharge2Reg(e, reg, g0);
      CloseLists(e, reg);
      e.t, e.f, e.ts, e.fs := NO_JUMP, NO_JUMP, [], [];
      e.info, e.k := reg, VNONRELOC;
    }

    lemma Exp2NextRegFacts(g0: Gen, g: Gen, e: Exp)
      requires State(g0, g, e) && RegsOf(g0, g, e)
      ensures var (g', e') := CodeGenSpec.Exp2NextReg(g, e); State(g0, g', e') && RegsOf(g0, g', e') && Wf(g)
      ensures var (g1, e1) := CodeGenSpec.DischargeVars(g, e);
              State(g0, CodeGenSpec.ReserveRegs(CodeGenSpec.FreeExp(g1, e1), 1), e1)
    {
      hide Meaning;
      Exp2NextRegLemma(True, g0, g, e);
      DischargeVarsBecomes(True, g0, g, e);
      var d := CodeGenSpec.DischargeVars(g, e);
      NextRegState(True, g0, d.0, d.1);
    }

    method Exp2NextReg(e: ExpDesc, ghost g0: Gen)
      requires Holds(e, g0) && RegsOf(g0, Abs(), e.Abs())
      modifies this, e
      ensures (Abs(), e.Abs()) == CodeGenSpec.Exp2NextReg(old(Abs()), old(e.Abs()))
      ensures Holds(e, g0) && RegsOf(g0, Abs(), e.Abs())
    {
      hide State, Wf, RegsOf, CodeGenSpec.Exp2Reg, CodeGenSpec.DischargeVars, CodeGenSpec.ReserveRegs;
      Exp2NextRegFacts(g0, Abs(), e.Abs());
      DischargeVars(e);
      FreeExp(e);
      ReserveRegs(1);
      Exp2Reg(e, freereg - 1, g0);
    }

    lemma Exp2AnyRegFacts(g0: Gen, g: Gen, e: Exp)
      requires State(g0, g, e) && RegsOf(g0, g, e)
      ensures var (g', e') := CodeGenSpec.Exp2AnyReg(g, e); State(g0, g', e') && RegsOf(g0, g', e') && Wf(g')
      ensures var (g1, e1) := CodeGenSpec.DischargeVars(g, e);
              && State(g0, g1, e1) && RegsOf(g0, g1, e1) && Wf(g1)
              && Threaded(g1.code, e1.ts) && Threaded(g1.code, e1.fs) && Disjoint(e1.ts, e1.fs)
    {
      hide Meaning;
      Exp2AnyRegLemma(True, g0, g, e);
      DischargeVarsBecomes(True, g0, g, e);
    }

    method Exp2AnyReg(e: ExpDesc, ghost g0: Gen) returns (reg: int)
      requires Valid() && e.Heads()
      requires InRegister(e.Abs()) || (Holds(e, g0) && RegsOf(g0, Abs(), e.Abs()))
      modifies this, e
      ensures (Abs(), e.Abs()) == CodeGenSpec.Exp2AnyReg(old(Abs()), old(e.Abs())) && reg == e.info
      ensures Valid() && e.Heads()
    {
      hide State, Wf, RegsOf, Threaded, Disjoint, CodeGenSpec.Exp2Reg, CodeGenSpec.Exp2NextReg,
           CodeGenSpec.DischargeVars;
      if InRegister(e.Abs()) { AlreadyInRegister(Abs(), e.Abs()); } else { Exp2AnyRegFacts(g0, Abs(), e.Abs()); }
      DischargeVars(e);
      if e.k == VNONRELOC {
        var jumps := HasJumps(e);
        if !jumps { return e.info; }
        if e.info >= nactvar {
          Exp2Reg(e, e.info, g0);
          return e.info;
        }
      }
      Exp2NextReg(e, g0);
      return e.info;
    }

    lemma AlreadyInRegister(g: Gen, e: Exp)
      requires InRegister(e)
      ensures CodeGenSpec.DischargeVars(g, e) == (g, e)
      ensures Threaded(g.code, e.ts) && Threaded(g.code, e.fs) && Disjoint(e.ts, e.fs)
    {
    }

    /** Is x already an operand, as it is when codecomp comes back to its first operand? */
    ghost predicate IsOperandNow(x: Exp) {
      x.ts == [] && x.fs == [] && (x.k.VNONRELOC? || (x.k.VK? && x.info <= MAXINDEXRK))
    }

    lemma Exp2RKFacts(g0: Gen, g: Gen, e: Exp)
      requires State(g0, g, e) && RegsOf(g0, g, e)
      ensures Wf(g) && Threaded(g.code, e.ts) && Threaded(g.code, e.fs) && Disjoint(e.ts, e.fs)
      ensures Wf(CodeGenSpec.Exp2RK(g, e).0)
      ensures var (g1, e1) := CodeGenSpec.Exp2Val(g, e); State(g0, g1, e1) && RegsOf(g0, g1, e1) && Wf(g1)
    {
      hide Meaning;
      Exp2RKLemma(True, g0, g, e);
      if e.ts == [] && e.fs == [] { DischargeVarsBecomes(True, g0, g, e); } else { Exp2AnyRegLemma(True, g0, g, e); }
    }

    method Exp2Val(e: ExpDesc, ghost g0: Gen)
      requires Valid() && e.Heads()
      requires IsOperandNow(e.Abs()) || (Holds(e, g0) && RegsOf(g0, Abs(), e.Abs()))
      modifies this, e
      ensures (Abs(), e.Abs()) == CodeGenSpec.Exp2Val(old(Abs()), old(e.Abs()))
      ensures Valid() && e.Heads()
    {
      hide State, Wf, RegsOf, CodeGenSpec.Exp2AnyReg, CodeGenSpec.DischargeVars;
      if !IsOperandNow(e.Abs()) { Exp2RKFacts(g0, Abs(), e.Abs()); }
      var jumps := HasJumps(e);
      if jumps { var _ := Exp2AnyReg(e, g0); } else { DischargeVars(e); }
    }

    /** luaK_exp2RK */
    method Exp2RK(e: ExpDesc, ghost g0: Gen) returns (o: int)
      requires Valid() && e.Heads()
      requires IsOperandNow(e.Abs()) || (Holds(e, g0) && RegsOf(g0, Abs(), e.Abs()))
      modifies this, e
      ensures (Abs(), e.Abs(), o) == CodeGenSpec.Exp2RK(old(Abs()), old(e.Abs()))
      ensures Valid() && e.Heads()
    {
      hide State, Wf, RegsOf, CodeGenSpec.Exp2AnyReg, CodeGenSpec.DischargeVars, CodeGenSpec.Exp2Val, CodeGenSpec.AddK;
      if IsOperandNow(e.Abs()) { OperandNow(Abs(), e.Abs()); } else { Exp2RKFacts(g0, Abs(), e.Abs()); }
      Exp2Val(e, g0);
      if e.k == VKNUM || e.k == VTRUE || e.k == VFALSE {
        if |k| <= MAXINDEXRK {
          var i := AddK(if e.k == VKNUM then e.nval else Boolean(e.k == VTRUE));
          e.info, e.k := i, VK;
          return e.info + BITRK;
        }
      } else if e.k == VK {
        if e.info <= MAXINDEXRK { return e.info + BITRK; }
      }
      o := Exp2AnyReg(e, g0);
    }

    lemma OperandNow(g: Gen, e: Exp)
      requires IsOperandNow(e)
      ensures CodeGenSpec.Exp2Val(g, e) == (g, e)
      ensures CodeGenSpec.Exp2RK(g, e) == (g, e, if e.k.VK? then e.info + BITRK else e.info)
    {
    }

    // ----- jumping on an expression -----

    method InvertJump(e: ExpDesc)
      requires 0 <= e.info - 1 < |code| && code[e.info-1].Compare?
      modifies this`code
      ensures Abs() == CodeGenSpec.InvertJump(old(Abs()), e.Abs())
    {
      var c := code[e.info-1];
      code := code[e.info-1 := Compare(c.cmp, !c.cond, c.b, c.c)];
    }

    lemma JumpOnCondFacts(g0: Gen, g: Gen, e: Exp, cond: bool)
      requires State(g0, g, e) && IsValue(e) && RegsOf(g0, g, e)
      ensures e.k.VRELOCABLE? ==> 0 <= e.info < |g.code|
      ensures e.k.VRELOCABLE? && g.code[e.info].Not? ==> Wf(g.(code := g.code[..|g.code|-1]))
      ensures var (ga, ea) := CodeGenSpec.Discharge2AnyReg(g, e); Wf(CodeGenSpec.FreeExp(ga, ea))
      ensures Wf(CodeGenSpec.JumpOnCond(g, e, cond).0)
    {
      hide Direct, TestsFor;
      if e.k.VRELOCABLE? && g.code[e.info].Not? { Truncate(g0, g, e); }
      Discharge2AnyRegLemma(g0, g, e);
      var d := CodeGenSpec.Discharge2AnyReg(g, e);
      FreeExpLemma(g0, d.0, d.1);
      var t := JumpOnCondLemma(g0, g, e, cond);
    }

    method JumpOnCond(e: ExpDesc, cond: bool, ghost g0: Gen) returns (j: int)
      requires Holds(e, g0) && IsValue(e.Abs()) && RegsOf(g0, Abs(), e.Abs())
      modifies this, e`k, e`info
      ensures var r := CodeGenSpec.JumpOnCond(old(Abs()), old(e.Abs()), cond);
              Abs() == r.0 && e.Abs() == r.1 && j == Head(r.2)
      ensures Valid() && e.Heads()
    {
      hide State, Wf, RegsOf, CodeGenSpec.Discharge2AnyReg, CodeGenSpec.CondJump;
      JumpOnCondFacts(g0, Abs(), e.Abs(), cond);
      if e.k == VRELOCABLE {
        var ie := code[e.info];
        if ie.Not? {
          code := code[..|code|-1];  // the NOT is taken back
          j := CondJump(Test(ie.b, !cond));
          return;
        }
      }
      Discharge2AnyReg(e, g0);
      FreeExp(e);
      j := CondJump(TestSet(NO_REG, e.info, cond));
    }

    lemma BranchFacts(g0: Gen, g: Gen, e: Exp, cond: bool)
      requires State(g0, g, e) && RegsOf(g0, g, e) && !e.k.VLOCAL? && !e.k.VUPVAL?
      ensures var (g1, e1, pc) := CodeGenSpec.BranchJump(g, e, cond);
              && ReadyToClose(g0, g1, e1, pc) && e1.ts == e.ts && e1.fs == e.fs
              && e1 == e.(k := e1.k, info := e1.info)
    {
      hide Direct, TestsFor;
      if NoJumpFor(e, cond) {
        StillReady(g0, g, e);
      } else if AlwaysJumps(e, cond) {
        LiteralReady(g0, g, e);
      } else if e.k.VJMP? {
        CompareJumps(g0, g, e);
        InvertLemma(g0, g, e);
        InvertedJumps(g0, g, e);
        var g1 := if cond then CodeGenSpec.InvertJump(g, e) else g;
        JumpedReady(g0, g, e, g1, g1.code[e.info-1]);
      } else {
        JumpOnCondReady(g0, g, e, !cond);
      }
    }

    lemma JumpOnCondReady(g0: Gen, g: Gen, e: Exp, cond: bool)
      requires State(g0, g, e) && IsValue(e) && RegsOf(g0, g, e)
      ensures var (g1, e1, pc) := CodeGenSpec.JumpOnCond(g, e, cond);
              ReadyToClose(g0, g1, e1, pc) && e1 == e.(k := e1.k, info := e1.info)
    {
      var t := JumpOnCondLemma(g0, g, e, cond);
      var r, s := Tested(g, e), CodeGenSpec.JumpOnCond(g, e, cond);
      JumpedReady(g0, r.0, r.1, s.0, t);
      SameReady(g0, s.0, r.1, s.1, s.2);
    }

    /** The switch of luaK_goiftrue. */
    method BranchTrue(e: ExpDesc, ghost g0: Gen) returns (pc: int)
      requires Holds(e, g0) && RegsOf(g0, Abs(), e.Abs()) && e.k != VLOCAL && e.k != VUPVAL
      modifies this, e`k, e`info
      ensures var r := BranchJump(old(Abs()), old(e.Abs()), true); Abs() == r.0 && e.Abs() == r.1 && pc == Head(r.2)
      ensures Valid() && e.Heads()
    {
      hide RegsOf, Wf, CodeGenSpec.JumpOnCond, CodeGenSpec.EmitJump, WfLists, Extends, TestsPaired, ValueJumps;
      BranchFacts(g0, Abs(), e.Abs(), true);
      ReadyWf(g0, BranchJump(Abs(), e.Abs(), true));
      if e.k == VK || e.k == VKNUM || e.k == VTRUE {
        pc := NO_JUMP;
      } else if e.k == VFALSE {
        pc := AlwaysJump(false);
      } else if e.k == VJMP {
        InvertJump(e);
        pc := e.info;
      } else {
        pc := JumpOnCond(e, false, g0);
      }
    }

    /** The switch of luaK_goiffalse. */
    method BranchFalse(e: ExpDesc, ghost g0: Gen) returns (pc: int)
      requires Holds(e, g0) && RegsOf(g0, Abs(), e.Abs()) && e.k != VLOCAL && e.k != VUPVAL
      modifies this, e`k, e`info
      ensures var r := BranchJump(old(Abs()), old(e.Abs()), false); Abs() == r.0 && e.Abs() == r.1 && pc == Head(r.2)
      ensures Valid() && e.Heads()
    {
      hide RegsOf, Wf, CodeGenSpec.JumpOnCond, CodeGenSpec.EmitJump, WfLists, Extends, TestsPaired, ValueJumps;
      BranchFacts(g0, Abs(), e.Abs(), false);
      ReadyWf(g0, BranchJump(Abs(), e.Abs(), false));
      if e.k == VFALSE {
        pc := NO_JUMP;
      } else if e.k == VTRUE {
        pc := AlwaysJump(true);
      } else if e.k == VJMP {
        pc := e.info;
      } else {
        pc := JumpOnCond(e, true, g0);
      }
    }

    /** luaK_jump for a literal operand; the value jumps that it is put in front of are remembered in `mixed`. */
    method AlwaysJump(ghost literal: bool) returns (pc: int)
      requires Valid()
      modifies this`code, this`err, this`jpc, this`held, this`mixed
      ensures var g := old(Abs());
              var r := CodeGenSpec.EmitJump(g.(mixed := g.mixed + ValueJumps(g.code, g.held, literal)));
              Abs() == r.0 && pc == Head(r.1) && jpc == NO_JUMP && held == []
    {
      mixed := mixed + ValueJumps(code, held, literal);
      pc := Jump();
    }

    lemma ReadyWf(g0: Gen, r: (Gen, Exp, seq<int>))
      requires ReadyToClose(g0, r.0, r.1, r.2)
      ensures Wf(r.0)
    {
    }

    lemma GoIfFacts(g0: Gen, g: Gen, e: Exp, cond: bool)
      requires State(g0, g, e) && RegsOf(g0, g, e)
      ensures var (g1, e1) := CodeGenSpec.DischargeVars(g, e);
              && State(g0, g1, e1) && RegsOf(g0, g1, e1) && !e1.k.VLOCAL? && !e1.k.VUPVAL?
              && var (g2, e2, pc) := BranchJump(g1, e1, cond);
                 && Threaded(g2.code, e2.ts) && Threaded(g2.code, e2.fs) && Threaded(g2.code, pc)
                 && (cond ==> var g3 := CodeGenSpec.Concat(g2, e2.fs, pc);
                              Threaded(g3.code, e2.ts) && Threaded(g3.code, g3.held))
                 && (!cond ==> var g3 := CodeGenSpec.Concat(g2, e2.ts, pc);
                               Threaded(g3.code, e2.fs) && Threaded(g3.code, g3.held))
      ensures Wf(g) && Wf(GoIf(g, e, cond).0)
    {
      hide Direct, TestsFor;
      DischargeVarsBecomes(True, g0, g, e);
      var d := CodeGenSpec.DischargeVars(g, e);
      BranchFacts(g0, d.0, d.1, cond);
      var b := BranchJump(d.0, d.1, cond);
      CloseLemma(g0, b.0, b.1, b.2, cond);
      if cond {
        ConcatLemma(b.0, b.1.fs, b.2, b.1.ts);
        ConcatLemma(b.0, b.1.fs, b.2, b.0.held);
      } else {
        ConcatLemma(b.0, b.1.ts, b.2, b.1.fs);
        ConcatLemma(b.0, b.1.ts, b.2, b.0.held);
      }
    }

    /** The end of luaK_goiftrue: the jump joins the false list, and the true list leads to here. */
    method CloseTrue(e: ExpDesc, pc: int, ghost list: seq<int>)
      requires Threaded(code, e.ts) && Threaded(code, e.fs) && Threaded(code, list) && pc == Head(list)
      requires jpc == Head(held) && e.Heads()
      requires var g := CodeGenSpec.Concat(Abs(), e.fs, list); Threaded(g.code, e.ts) && Threaded(g.code, g.held)
      modifies this`code, this`err, this`jpc, this`held, e`t, e`ts, e`f, e`fs
      ensures (Abs(), e.Abs()) == Close(old(Abs()), old(e.Abs()), list, true)
      ensures jpc == Head(held) && e.Heads()
    {
      hide Threaded, CodeGenSpec.Concat;
      ConcatF(e, pc, list);
      PatchToHere(e.t, e.ts);
      e.t, e.ts := NO_JUMP, [];
    }

    /** The end of luaK_goiffalse. */
    method CloseFalse(e: ExpDesc, pc: int, ghost list: seq<int>)
      requires Threaded(code, e.ts) && Threaded(code, e.fs) && Threaded(code, list) && pc == Head(list)
      requires jpc == Head(held) && e.Heads()
      requires var g := CodeGenSpec.Concat(Abs(), e.ts, list); Threaded(g.code, e.fs) && Threaded(g.code, g.held)
      modifies this`code, this`err, this`jpc, this`held, e`t, e`ts, e`f, e`fs
      ensures (Abs(), e.Abs()) == Close(old(Abs()), old(e.Abs()), list, false)
      ensures jpc == Head(held) && e.Heads()
    {
      hide Threaded, CodeGenSpec.Concat;
      ConcatT(e, pc, list);
      PatchToHere(e.f, e.fs);
      e.f, e.fs := NO_JUMP, [];
    }

    method GoIfTrue(e: ExpDesc, ghost g0: Gen)
      requires Holds(e, g0) && RegsOf(g0, Abs(), e.Abs())
      modifies this, e
      ensures (Abs(), e.Abs()) == GoIf(old(Abs()), old(e.Abs()), true)
      ensures Valid() && e.Heads()
    {
      hide State, Wf, RegsOf, Threaded, CodeGenSpec.Concat, CodeGenSpec.DischargeVars, BranchJump, Close;
      GoIfFacts(g0, Abs(), e.Abs(), true);
      DischargeVars(e);
      ghost var list := BranchJump(Abs(), e.Abs(), true).2;
      var pc := BranchTrue(e, g0);
      CloseTrue(e, pc, list);
    }

    method GoIfFalse(e: ExpDesc, ghost g0: Gen)
      requires Holds(e, g0) && RegsOf(g0, Abs(), e.Abs())
      modifies this, e
      ensures (Abs(), e.Abs()) == GoIf(old(Abs()), old(e.Abs()), false)
      ensures Valid() && e.Heads()
    {
      hide State, Wf, RegsOf, Threaded, CodeGenSpec.Concat, CodeGenSpec.DischargeVars, BranchJump, Close;
      GoIfFacts(g0, Abs(), e.Abs(), false);
      DischargeVars(e);
      ghost var list := BranchJump(Abs(), e.Abs(), false).2;
      var pc := BranchFalse(e, g0);
      CloseFalse(e, pc, list);
    }

    // ----- operators -----

    /** luaK_infix for `and` and `or`. */
    method Infix(cond: bool, e: ExpDesc, ghost g0: Gen)
      requires Holds(e, g0) && RegsOf(g0, Abs(), e.Abs())
      modifies this, e
      ensures (Abs(), e.Abs()) == GoIf(old(Abs()), old(e.Abs()), cond)
      ensures Valid() && e.Heads()
    {
      hide State, Wf, RegsOf, GoIf;
      if cond { GoIfTrue(e, g0); } else { GoIfFalse(e, g0); }
    }

    lemma NotFacts(g0: Gen, g: Gen, e: Exp)
      requires State(g0, g, e) && RegsOf(g0, g, e)
      ensures Wf(g) && Wf(CodeGenSpec.CodeNot(g, e).0)
      ensures var (g1, e1) := CodeGenSpec.DischargeVars(g, e);
              && State(g0, g1, e1) && RegsOf(g0, g1, e1) && !e1.k.VLOCAL? && !e1.k.VUPVAL?
              && var (g2, e2) := NotValue(g1, e1);
                 && e2 == e1.(k := e2.k, info := e2.info) && Threaded(g2.code, e2.ts) && Threaded(g2.code, e2.fs)
                 && Threaded(ValuesRemoved(g2.code, e2.ts), e2.fs)
    {
      hide Direct, Meaning;
      DischargeVarsBecomes(True, g0, g, e);
      var d := CodeGenSpec.DischargeVars(g, e);
      NotValueLemma(True, g0, d.0, d.1);
      var n := NotValue(d.0, d.1);
      ValuesRemovedKeeps(n.0.code, n.1.ts, n.1.fs);
      SwapListsState(g0, n.0, n.1);
    }

    lemma ComparedBefore(g0: Gen, g: Gen, e: Exp)
      requires State(g0, g, e) && e.k.VJMP?
      ensures 0 <= e.info - 1 < |g.code| && g.code[e.info-1].Compare?
    {
    }

    method NotOf(e: ExpDesc, ghost g0: Gen)
      requires Holds(e, g0) && RegsOf(g0, Abs(), e.Abs()) && e.k != VLOCAL && e.k != VUPVAL
      modifies this, e`k, e`info
      ensures (Abs(), e.Abs()) == NotValue(old(Abs()), old(e.Abs())) && jpc == Head(held)
    {
      hide State, Wf, RegsOf, Threaded, CodeGenSpec.Discharge2Reg, CodeGenSpec.Discharge2AnyReg;
      if e.k == VFALSE {
        e.k := VTRUE;
      } else if e.k == VK || e.k == VKNUM || e.k == VTRUE {
        e.k := VFALSE;
      } else if e.k == VJMP {
        ComparedBefore(g0, Abs(), e.Abs());
        InvertJump(e);
      } else {
        NotOfRegister(e, g0);
      }
    }

    method NotOfRegister(e: ExpDesc, ghost g0: Gen)
      requires Holds(e, g0) && RegsOf(g0, Abs(), e.Abs()) && (e.k == VRELOCABLE || e.k == VNONRELOC)
      modifies this, e`k, e`info
      ensures (Abs(), e.Abs()) == NotValue(old(Abs()), old(e.Abs())) && jpc == Head(held)
    {
      hide State, Wf, RegsOf, Threaded, CodeGenSpec.Discharge2Reg, CodeGenSpec.Discharge2AnyReg;
      Discharge2AnyReg(e, g0);
      FreeExpLemma(g0, Abs(), e.Abs());
      FreeExp(e);
      var pc := Code(Not(0, e.info));
      e.info, e.k := pc, VRELOCABLE;
    }

    method CodeNot(e: ExpDesc, ghost g0: Gen)
      requires Holds(e, g0) && RegsOf(g0, Abs(), e.Abs())
      modifies this, e
      ensures (Abs(), e.Abs()) == CodeGenSpec.CodeNot(old(Abs()), old(e.Abs()))
      ensures Valid() && e.Heads()
    {
      hide State, Wf, RegsOf, Threaded, CodeGenSpec.DischargeVars, NotValue;
      NotFacts(g0, Abs(), e.Abs());
      DischargeVars(e);
      NotOf(e, g0);
      e.t, e.f, e.ts, e.fs := e.f, e.t, e.fs, e.ts;
      RemoveValues(e.f, e.fs);
      RemoveValues(e.t, e.ts);
    }

    lemma CompFacts(op: RelOp, g0: Gen, g1: Gen, e1: Exp, x1: int, g2: Gen, e2: Exp)
      requires OperandState(g0, g1, e1, x1) && State(g1, g2, e2) && RegsOf(g1, g2, e2)
      ensures IsOperandNow(e1)
      ensures CodeGenSpec.Exp2RK(g2, e1) == (g2, e1, x1)
      ensures var (g3, e3, x2) := CodeGenSpec.Exp2RK(g2, e2); Wf(CodeGenSpec.FreeExp(CodeGenSpec.FreeExp(g3, e3), e1))
    {
      hide Operand;
      OperandAgain(g0, g1, e1, x1, g2);
      Exp2RKLemma(True, g1, g2, e2);
      var r := CodeGenSpec.Exp2RK(g2, e2);
      FreeBoth(g0, g1, e1, x1, r.0, r.1, r.2);
    }

    /** codecomp; g1 is the state in which the second operand starts. */
    method CodeComp(rel: RelOp, op: CmpOp, cond0: bool, e1: ExpDesc, e2: ExpDesc, ghost g0: Gen, ghost g1: Gen,
                    ghost x1: int)
      requires (op, cond0) == CompOf(rel) && e1 != e2 && e1.Heads()
      requires OperandState(g0, g1, e1.Abs(), x1) && Holds(e2, g1) && RegsOf(g1, Abs(), e2.Abs())
      modifies this, e1, e2
      ensures (Abs(), e1.Abs()) == CodeGenSpec.CodeComp(old(Abs()), op, cond0, old(e1.Abs()), old(e2.Abs()))
      ensures jpc == Head(held) && e1.Heads()
    {
      hide State, Wf, RegsOf, OperandState, CodeGenSpec.Exp2RK, CodeGenSpec.CondJump, CompOf;
      assert Valid() by { HoldsValid(e2, g1); }
      CompFacts(rel, g0, g1, e1.Abs(), x1, Abs(), e2.Abs());
      var o1 := Exp2RK(e1, g0);
      var o2 := Exp2RK(e2, g1);
      FreeExp(e2);
      FreeExp(e1);
      var cond := cond0;
      if !cond && op != OpEq {
        o1, o2 := o2, o1;  // a > b is b < a
        cond := true;
      }
      var j := CondJump(Compare(op, cond, o1, o2));
      e1.info, e1.k := j, VJMP;
    }

    lemma HoldsValid(e: ExpDesc, g0: Gen)
      requires Holds(e, g0)
      ensures Valid() && e.Heads()
    {
    }

    lemma PosfixFacts(cond: bool, g0: Gen, g1: Gen, x1: Exp, g2: Gen, x2: Exp)
      requires BranchState(g0, g1, x1, cond) && State(g1, g2, x2) && RegsOf(g1, g2, x2)
      ensures Wf(g2)
      ensures var (g3, x3) := CodeGenSpec.DischargeVars(g2, x2);
              if cond then Threaded(g3.code, x3.fs) && Threaded(g3.code, x1.fs)
              else Threaded(g3.code, x3.ts) && Threaded(g3.code, x1.ts)
    {
      hide Meaning;
      DischargeVarsBecomes(True, g1, g2, x2);
      var d := CodeGenSpec.DischargeVars(g2, x2);
      ExitsKept(g0, g1, x1, cond, d.0, d.1);
    }

    /** luaK_posfix for `and` and `or`: the lists of both operands are joined in e2, which becomes the result. */
    method Posfix(cond: bool, e1: ExpDesc, e2: ExpDesc, ghost g0: Gen, ghost g1: Gen)
      requires e1 != e2 && e1.Heads() && BranchState(g0, g1, e1.Abs(), cond)
      requires Holds(e2, g1) && RegsOf(g1, Abs(), e2.Abs())
      modifies this`code, this`err, this`jpc, this`held, e2
      ensures (Abs(), e2.Abs()) == CodeGenSpec.Posfix(old(Abs()), cond, old(e1.Abs()), old(e2.Abs()))
      ensures jpc == Head(held) && e2.Heads()
    {
      hide Wf, Threaded, BranchState, State, RegsOf, CodeGenSpec.DischargeVars, CodeGenSpec.Concat;
      PosfixFacts(cond, g0, g1, e1.Abs(), Abs(), e2.Abs());
      DischargeVars(e2);
      if cond { ConcatF(e2, e1.f, e1.fs); } else { ConcatT(e2, e1.t, e1.ts); }
    }

    // ----- the parser's calls -----

    /** subexpr: generate code for E. */
    method Expression(E: Expr) returns (e: ExpDesc)
      requires Valid() && Scoped(E, nactvar)
      modifies this
      ensures fresh(e) && (Abs(), e.Abs()) == Compile(old(Abs()), E)
      ensures Holds(e, old(Abs())) && RegsOf(old(Abs()), Abs(), e.Abs()) && Wf(Abs())
      decreases E, 1
    {
      hide Wf, Meaning, CodeGenSpec.DischargeVars, CodeGenSpec.CodeNot, GoIf, CodeGenSpec.Posfix, CodeGenSpec.Exp2RK,
           CodeGenSpec.CodeComp, CodeGenSpec.AddK, WfExp, Extends, BranchState;
      ghost var g0 := Abs();
      CompileCorrect(E, g0);
      CompiledFacts(E, g0, Compile(g0, E).0, Compile(g0, E).1);
      match E {
        case Local(r) => e := new ExpDesc(VLOCAL, r, Nil);
        case Upval(i) => e := new ExpDesc(VUPVAL, i, Nil);
        case True => e := new ExpDesc(VTRUE, 0, Nil);
        case False => e := new ExpDesc(VFALSE, 0, Nil);
        case Numeral(n) => e := new ExpDesc(VKNUM, 0, Number(n));
        case Str(s) =>
          var i := AddK(Text(s));
          e := new ExpDesc(VK, i, Nil);
        case Paren(E1) =>
          e := Expression(E1);
          DischargeVars(e);
        case Negate(E1) =>
          e := Expression(E1);
          CodeNot(e, g0);
        case And(l, r) =>
          var e1 := FirstOperand(true, l);
          e := SecondOperand(true, e1, r, g0);
        case Or(l, r) =>
          var e1 := FirstOperand(false, l);
          e := SecondOperand(false, e1, r, g0);
        case Rel(op, l, r) => e := Relation(op, l, r);
      }
    }

    lemma CompiledFacts(E: Expr, g0: Gen, g: Gen, e: Exp)
      requires Compiled(E, g0, g, e)
      ensures Wf(g) && g.nactvar == g0.nactvar
    {
    }

    lemma JunctionFacts(cond: bool, l: Expr, g0: Gen)
      requires Wf(g0) && Scoped(l, g0.nactvar)
      ensures var (g1, x1) := Compile(g0, l); var (g2, x2) := GoIf(g1, x1, cond);
              && Wf(g2) && BranchState(g0, g2, x2, cond) && g2.nactvar == g0.nactvar
              && State(g0, g1, x1) && RegsOf(g0, g1, x1)
    {
      hide Meaning, Branch, GoIf, Compile;
      CompileCorrect(l, g0);
      var c := Compile(g0, l);
      GoIfLemma(l, cond, g0, c.0, c.1);
    }

    /** The first operand of `and` and `or`, and luaK_infix behind it. */
    method FirstOperand(cond: bool, l: Expr) returns (e: ExpDesc)
      requires Valid() && Scoped(l, nactvar)
      modifies this
      ensures fresh(e) && Valid() && e.Heads()
      ensures var c := Compile(old(Abs()), l); (Abs(), e.Abs()) == GoIf(c.0, c.1, cond)
      ensures BranchState(old(Abs()), Abs(), e.Abs(), cond) && nactvar == old(nactvar)
      decreases l, 2
    {
      hide Wf, State, Compiled, GoIf, RegsOf, BranchState, Scoped, Compile;
      ghost var g0 := Abs();
      JunctionFacts(cond, l, g0);
      e := Expression(l);
      Infix(cond, e, g0);
    }

    /** The second operand of `and` and `or`, and luaK_posfix behind it. */
    method SecondOperand(cond: bool, e1: ExpDesc, r: Expr, ghost g0: Gen) returns (e: ExpDesc)
      requires Valid() && e1.Heads() && BranchState(g0, Abs(), e1.Abs(), cond) && Scoped(r, nactvar)
      modifies this
      ensures fresh(e) && jpc == Head(held) && e.Heads()
      ensures var c := Compile(old(Abs()), r); (Abs(), e.Abs()) == CodeGenSpec.Posfix(c.0, cond, old(e1.Abs()), c.1)
      decreases r, 2
    {
      hide Wf, State, GoIf, RegsOf, CodeGenSpec.Posfix, BranchState, Scoped, Compile;
      ghost var g2 := Abs();
      e := Expression(r);
      Posfix(cond, e1, e, g0, g2);
    }

    ghost function RelCode(op: RelOp, l: Expr, r: Expr, g0: Gen): (Gen, Exp) {
      var (g1, e1) := Compile(g0, l);
      var (g2, e2, _) := CodeGenSpec.Exp2RK(g1, e1);
      var (g3, e3) := Compile(g2, r);
      CodeGenSpec.CodeComp(g3, CompOf(op).0, CompOf(op).1, e2, e3)
    }

    lemma RelCompiles(op: RelOp, l: Expr, r: Expr, g0: Gen)
      ensures Compile(g0, Rel(op, l, r)) == RelCode(op, l, r, g0)
    {
      hide CodeGenSpec.Exp2RK, CodeGenSpec.CodeComp;
    }

    lemma RelationFacts(op: RelOp, l: Expr, r: Expr, g0: Gen)
      requires Wf(g0) && Scoped(l, g0.nactvar)
      ensures var (g1, e1) := Compile(g0, l); var (g2, e2, x) := CodeGenSpec.Exp2RK(g1, e1);
              && OperandState(g0, g2, e2, x) && Wf(g2) && g2.nactvar == g0.nactvar
              && State(g0, g1, e1) && RegsOf(g0, g1, e1)
      ensures Compile(g0, Rel(op, l, r)) == RelCode(op, l, r, g0)
    {
      hide Meaning, Operand, CodeGenSpec.Exp2RK, Compile, RelCode;
      RelCompiles(op, l, r, g0);
      CompileCorrect(l, g0);
      var c := Compile(g0, l);
      Exp2RKLemma(l, g0, c.0, c.1);
    }

    method Relation(op: RelOp, l: Expr, r: Expr) returns (e: ExpDesc)
      requires Valid() && Scoped(l, nactvar) && Scoped(r, nactvar)
      modifies this
      ensures fresh(e) && (Abs(), e.Abs()) == Compile(old(Abs()), Rel(op, l, r))
      ensures jpc == Head(held) && e.Heads()
      decreases Rel(op, l, r), 0
    {
      hide Wf, State, RegsOf, Head, Compiled, CodeGenSpec.Exp2RK, CodeGenSpec.CodeComp, OperandState, Scoped, Compile;
      ghost var g0 := Abs();
      RelationFacts(op, l, r, g0);
      e := Expression(l);
      var x := Exp2RK(e, g0);
      ghost var g1 := Abs();
      var e2 := Expression(r);
      var (c, cond) := CompOf(op);
      CodeComp(op, c, cond, e, e2, g0, g1, x);
    }

    /** `return E`: the emitted code returns the value of E, unless a limit was exceeded, or the run takes a jump with
        another value where a literal was expected. */
    method CompileReturn(E: Expr)
      requires Valid() && Scoped(E, nactvar)
      modifies this
      ensures Abs() == CodeGenSpec.CompileReturn(old(Abs()), E)
      ensures HasRoom(E, old(Abs())) ==> !err
      ensures !err ==> forall env: Env, R: Regs :: k <= env.k && Unspoilt(env, code, mixed, |old(code)|, R) ==>
                Run(env.(watch := {}), code, {}, |old(code)|, R) == Ret(Eval(E, env, R))
    {
      hide Wf, Meaning, WfExp, Extends, Compile, CodeGenSpec.Exp2AnyReg, Run, Unspoilt, HasRoom;
      ghost var g0 := Abs();
      var e := Expression(E);
      var reg := Exp2AnyReg(e, g0);
      ReturnHeld(Abs());
      var pc := Code(Return(reg, 2));
      if HasRoom(E, g0) { ReturnSucceeds(E, g0); }
      if !err {
        forall env: Env, R: Regs | k <= env.k && Unspoilt(env, code, mixed, |g0.code|, R)
          ensures Run(env.(watch := {}), code, {}, |g0.code|, R) == Ret(Eval(E, env, R))
        {
          ReturnCorrect(E, g0, env, R);
        }
      }
    }

    /** luaK_storevar, for a local variable */
    method AssignLocal(reg: int, E: Expr)
      requires Valid() && Scoped(E, nactvar) && 0 <= reg < nactvar
      modifies this
      ensures Abs() == CodeGenSpec.CompileAssign(old(Abs()), reg, E)
      ensures HasRoom(E, old(Abs())) ==> !err
      ensures !err ==> forall env: Env, R: Regs ::
                k <= env.k && Unspoilt(env, Settled(Abs()), mixed, |old(code)|, R) ==>
                var o := Run(env.(watch := {}), Settled(Abs()), {}, |old(code)|, R);
                && o.End? && Get(o.regs, reg) == Eval(E, env, R)
                && forall r :: r < old(freereg) && r != reg ==> Get(o.regs, r) == Get(R, r)
    {
      hide Wf, Meaning, WfExp, Extends, Compile, CodeGenSpec.Exp2Reg, Run, State, RegsOf, Unspoilt, HasRoom;
      ghost var g0 := Abs();
      var e := Expression(E);
      FreedState(g0, Abs(), e.Abs());
      FreeExp(e);
      Exp2Reg(e, reg, g0);
      if HasRoom(E, g0) { AssignSucceeds(E, g0, reg); }
      if !err {
        forall env: Env, R: Regs | k <= env.k && Unspoilt(env, Settled(Abs()), mixed, |g0.code|, R)
          ensures var o := Run(env.(watch := {}), Settled(Abs()), {}, |g0.code|, R);
                  && o.End? && Get(o.regs, reg) == Eval(E, env, R)
                  && forall r :: r < g0.freereg && r != reg ==> Get(o.regs, r) == Get(R, r)
        {
          AssignRuns(E, g0, reg, env, R);
        }
      }
    }

    lemma ReturnHeld(g: Gen)
      requires Wf(g)
      ensures Threaded(g.code, g.held)
    {
    }
  }
}
