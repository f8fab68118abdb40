/** What the compiler of boolean expressions guarantees, and where it fails. */
module CodeGenTheorems {
  import opened Limits
  import opened Machine
  import opened JumpLists
  import opened CodeGenSpec
  import opened CodeGenProof

  /** The run takes no value jump that was put in front of a literal, but with the value of the literal. */
  predicate Unspoilt(env: Env, code: seq<Instr>, mixed: set<(int, bool)>, pc: nat, R: Regs) {
    Run(env.(watch := mixed), code, {}, pc, R) != Mixed
  }

  /** So it is if there is no such jump. */
  lemma NothingSpoilt(env: Env, code: seq<Instr>, pc: nat, R: Regs)
    ensures Unspoilt(env, code, {}, pc, R)
  {
    NeverMixed(env.(watch := {}), code, {}, pc, R);
  }

  lemma {:induction E} EvalUnwatched(E: Expr, env: Env, w: set<(int, bool)>, R: Regs)
    ensures Eval(E, env.(watch := w), R) == Eval(E, env, R)
  {
  }

  /** The code of `return E`, run from where it starts, returns the value of E by the short-circuit rules, for every
      expression and every run, unless a limit was exceeded (then the C code raises an error), or the run takes a
      jump with another value where a literal was expected. */
  lemma ReturnCorrect(E: Expr, g0: Gen, env: Env, R: Regs)
    requires Wf(g0) && Scoped(E, g0.nactvar)
    requires var g := CompileReturn(g0, E); !g.err && g.k <= env.k && Unspoilt(env, g.code, g.mixed, |g0.code|, R)
    ensures Run(env.(watch := {}), CompileReturn(g0, E).code, {}, |g0.code|, R) == Ret(Eval(E, env, R))
  {
    hide Run, Jump, Eval, Meaning, Compile, Exp2AnyReg, State, Wf;
    var c := Compile(g0, E);
    CompileCorrect(E, g0);
    Exp2AnyRegLemma(E, g0, c.0, c.1);
    var x := Exp2AnyReg(c.0, c.1);
    BecomesCompiled(E, g0, c.0, c.1, E, x.0, x.1);
    var g := CompileReturn(g0, E);
    var env' := env.(watch := g.mixed);
    ReturnRun(E, g0, x.0, x.1, env', R);
    Unwatched(env', g.code, {}, |g0.code|, R);
    EvalUnwatched(E, env, g.mixed, R);
    assert env'.(watch := {}) == env.(watch := {});
  }

  lemma ReturnRun(E: Expr, g0: Gen, g: Gen, e: Exp, env: Env, R: Regs)
    requires Compiled(E, g0, g, e) && InRegister(e)
    requires var g' := Emit(g, Return(e.info, 2)); !g'.err && Covers(env, g')
    ensures var o := Run(env, Emit(g, Return(e.info, 2)).code, {}, |g0.code|, R); o.Mixed? || o == Ret(Eval(E, env, R))
  {
    hide Eval;
    EmitLemma(g, Return(e.info, 2));
    var F, n := Emit(g, Return(e.info, 2)).code, |g.code|;
    assert MeaningAt(E, g0, g, e, env, R, -1);
    assert Body(g, e) == g.code && Lists(e) == {};
    var o := Resume(g0, g, e, F, {}, env, R, -1);
    if !o.Mixed? { assert Run(env, F, {}, n, o.regs) == Ret(Get(o.regs, e.info)); }
  }

  /** A whole function `return E`. */
  lemma ReturnFunctionCorrect(E: Expr, n: nat, env: Env, R: Regs)
    requires n < MAXSTACK && Scoped(E, n)
    requires var g := CompileReturn(NewFunction(n), E); !g.err && g.k <= env.k && Unspoilt(env, g.code, g.mixed, 0, R)
    ensures Execute(env, CompileReturn(NewFunction(n), E).code, R) == Ret(Eval(E, env, R))
  {
    hide Wf, Run, Eval, CompileReturn;
    NewFunctionWf(n);
    ReturnCorrect(E, NewFunction(n), env, R);
  }

  lemma NewFunctionWf(n: nat)
    requires n < MAXSTACK
    ensures Wf(NewFunction(n)) && NewFunction(n).nactvar == n && NewFunction(n).code == []
  {
  }

  /** `reg = E`: the local variable gets the value of E; no other variable, and no register below the first
      free one, changes.  The jumps that are left on hold lead to the next instruction. */
  lemma AssignCorrect(E: Expr, g0: Gen, reg: int)
    requires Wf(g0) && Scoped(E, g0.nactvar) && 0 <= reg < g0.nactvar
    requires var g := CompileAssign(g0, reg, E); !g.err
    ensures Stored(E, g0, CompileAssign(g0, reg, E), reg)
    ensures CompileAssign(g0, reg, E).freereg == g0.freereg
  {
    hide Run, Jump, Eval, Meaning, Compile, Exp2Reg, Stored;
    CompileCorrect(E, g0);
    var c := Compile(g0, E);
    AssignStored(E, g0, c.0, c.1, reg);
  }

  /** The same for the finished code: what follows `reg = E` is reached with the value of E in reg, and with every other
      variable, and every other register that was in use, as it was. */
  lemma AssignRuns(E: Expr, g0: Gen, reg: int, env: Env, R: Regs)
    requires Wf(g0) && Scoped(E, g0.nactvar) && 0 <= reg < g0.nactvar
    requires var g := CompileAssign(g0, reg, E);
             !g.err && g.k <= env.k && Unspoilt(env, Settled(g), g.mixed, |g0.code|, R)
    ensures var o := Run(env.(watch := {}), Settled(CompileAssign(g0, reg, E)), {}, |g0.code|, R);
            && o.End? && Get(o.regs, reg) == Eval(E, env, R)
            && forall r :: r < g0.freereg && r != reg ==> Get(o.regs, r) == Get(R, r)
  {
    hide Run, Eval, Compile, Wf, Extends, Aimed, CompileAssign, Behind;
    var g, x := CompileAssign(g0, reg, E), NoExp();
    AssignCorrect(E, g0, reg);
    AssignState(E, g0, reg);
    var env' := env.(watch := g.mixed);
    Unwatched(env', Settled(g), {}, |g0.code|, R);
    EvalUnwatched(E, env, g.mixed, R);
    assert env'.(watch := {}) == env.(watch := {});
    assert StoredAt(E, g0, g, reg, env', R, -1);
    assert Body(g, x) == g.code && Lists(x) == {} && Pending(g, x) == Elems(g.held);
    SettledBehind(g, x);
    var o := Resume(g0, g, x, Settled(g), {}, env', R, -1);
    RunEnds(env', Settled(g), o.regs);
  }

  lemma SettledBehind(g: Gen, x: Exp)
    requires Body(g, x) == g.code && Lists(x) == {}
    ensures Behind(g, x, Settled(g))
  {
  }

  lemma RunEnds(env: Env, code: seq<Instr>, R: Regs)
    ensures Run(env, code, {}, |code|, R) == End(R)
  {
  }

  lemma AssignState(E: Expr, g0: Gen, reg: int)
    requires Wf(g0) && Scoped(E, g0.nactvar) && 0 <= reg < g0.nactvar
    ensures State(g0, CompileAssign(g0, reg, E), NoExp())
  {
    hide Run, Jump, Eval, Meaning, Compile, Exp2Reg, Stored;
    CompileCorrect(E, g0);
    var c := Compile(g0, E);
    AssignedState(E, g0, c.0, c.1, reg);
  }

  lemma FreedState(g0: Gen, g: Gen, e: Exp)
    requires State(g0, g, e) && RegsOf(g0, g, e)
    ensures State(g0, FreeExp(g, e), e)
  {
    var gf := FreeExp(g, e);
    FreeExpLemma(g0, g, e);
    forall k | 0 <= k < |g0.code| ensures BelowAt(g0, gf, k) { assert BelowAt(g0, g, k); }
    assert Pending(gf, e) == Pending(g, e);
  }

  lemma AssignedState(E: Expr, g0: Gen, g: Gen, e: Exp, reg: int)
    requires Compiled(E, g0, g, e) && 0 <= reg < g0.nactvar
    ensures State(g0, Exp2Reg(FreeExp(g, e), e, reg).0, NoExp())
  {
    hide Run, Jump, Eval, Stored, PatchValues, Discharge2Reg, Meaning;
    var gf := FreeExp(g, e);
    FreedState(g0, g, e);
    var d := DischargeVars(gf, e);
    DischargeVarsLemma(g0, gf, e);
    Exp2RegAgain(gf, e, reg);
    Exp2RegLemma(E, g0, d.0, d.1, reg);
    var g' := Exp2Reg(gf, e, reg).0;
    assert Lists(NoExp()) == {} && Pending(g', NoExp()) == Elems(g'.held);
  }

  lemma AssignStored(E: Expr, g0: Gen, g: Gen, e: Exp, reg: int)
    requires Compiled(E, g0, g, e) && 0 <= reg < g0.nactvar
    requires var g' := Exp2Reg(FreeExp(g, e), e, reg).0; !g'.err
    ensures Stored(E, g0, Exp2Reg(FreeExp(g, e), e, reg).0, reg)
    ensures Exp2Reg(FreeExp(g, e), e, reg).0.freereg == g0.freereg
  {
    hide Run, Jump, Eval, Stored, PatchValues, Discharge2Reg;
    var gf := FreeExp(g, e);
    FreedState(g0, g, e);
    var d := DischargeVars(gf, e);
    DischargeVarsLemma(g0, gf, e);
    Exp2RegAgain(gf, e, reg);
    Exp2RegLemma(E, g0, d.0, d.1, reg);
    if Meaning(E, g0, g, e) {
      SameMeaning(E, g0, g, e, gf, e);
      DischargeVarsMeaning(E, g0, gf, e);
    }
  }

  lemma Exp2RegAgain(g: Gen, e: Exp, reg: int)
    ensures Exp2Reg(DischargeVars(g, e).0, DischargeVars(g, e).1, reg) == Exp2Reg(g, e, reg)
  {
  }

  // ----- where it fails -----

  /** ((1 or false) and true) or false */
  const MIXED_LITERALS := Or(And(Or(Numeral(1), False), True), False)

  /** The constant 1 is loaded. */
  lemma MixedConstant()
    ensures Discharge2AnyReg(NewFunction(0), Exp(VKNUM, 0, Number(1), [], []))
         == (Gen([LoadK(0, 0)], [], 1, 0, 2, [Number(1)], map[Number(1) := 0], false, {}),
             Exp(VNONRELOC, 0, Number(1), [], []))
  {
    var g0, x := NewFunction(0), Exp(VKNUM, 0, Number(1), [], []);
    PatchedNone([], 0, NO_REG, 0);
    var r := Discharge2AnyReg(g0, x);
    assert r.0.code == [LoadK(0, 0)] && r.0.k == [Number(1)] && r.0.h == map[Number(1) := 0];
    assert r.0 == Gen([LoadK(0, 0)], [], 1, 0, 2, [Number(1)], map[Number(1) := 0], false, {});
    assert r.1 == Exp(VNONRELOC, 0, Number(1), [], []);
  }

  /** The state after the operand 1 of the innermost `or`. */
  lemma MixedStart() returns (g: Gen, e: Exp)
    ensures (g, e) == GoIf(NewFunction(0), Exp(VKNUM, 0, Number(1), [], []), false)
    ensures g == Gen([LoadK(0, 0), TestSet(NO_REG, 0, true), Jmp(NO_JUMP)], [], 0, 0, 2,
                     [Number(1)], map[Number(1) := 0], false, {})
    ensures e == Exp(VNONRELOC, 0, Number(1), [2], [])
  {
    hide Discharge2AnyReg;
    var g0, x := NewFunction(0), Exp(VKNUM, 0, Number(1), [], []);
    MixedConstant();
    PatchedNone([LoadK(0, 0)], 1, NO_REG, 1);
    PatchedNone([LoadK(0, 0), TestSet(NO_REG, 0, true)], 2, NO_REG, 2);
    var r := Discharge2AnyReg(g0, x);
    assert r.0 == Gen([LoadK(0, 0)], [], 1, 0, 2, [Number(1)], map[Number(1) := 0], false, {});
    assert r.1 == Exp(VNONRELOC, 0, Number(1), [], []);
    var f := FreeExp(r.0, r.1);
    var h := Emit(f, TestSet(NO_REG, 0, true));
    assert h.code == [LoadK(0, 0), TestSet(NO_REG, 0, true)];
    assert JumpOnCond(g0, x, true).2 == [2];
    assert JumpOnCond(g0, x, true).0.code == [LoadK(0, 0), TestSet(NO_REG, 0, true), Jmp(NO_JUMP)];
    var q := GoIf(g0, x, false);
    g, e := q.0, q.1;
  }

  /** The state after the operand `false` of the `and`, and after the operand `true` of the outer `or`. */
  lemma MixedMiddle(g: Gen, e: Exp) returns (g1: Gen, e1: Exp, g2: Gen, e2: Exp)
    requires g == Gen([LoadK(0, 0), TestSet(NO_REG, 0, true), Jmp(NO_JUMP)], [], 0, 0, 2,
                      [Number(1)], map[Number(1) := 0], false, {})
    requires e == Exp(VFALSE, 0, Nil, [2], [])
    ensures (g1, e1) == GoIf(g, e, true)
    ensures e1 == Exp(VFALSE, 0, Nil, [], [3])
    ensures (g2, e2) == GoIf(g1, Exp(VTRUE, 0, Nil, [], [3]), false)
    ensures g2 == Gen([LoadK(0, 0), TestSet(NO_REG, 0, true), Jmp(NO_JUMP), Jmp(NO_JUMP), Jmp(-3)], [3], 0, 0, 2,
                      [Number(1)], map[Number(1) := 0], false, {(2, true)})
    ensures e2 == Exp(VTRUE, 0, Nil, [4, 2], [])
  {
    PatchedNone(g.code, 3, NO_REG, 3);
    var q := GoIf(g, e, true);
    g1, e1 := q.0, q.1;
    assert g1.code == [LoadK(0, 0), TestSet(NO_REG, 0, true), Jmp(NO_JUMP), Jmp(NO_JUMP)] && g1.held == [2];
    PatchedNone(g1.code, 4, NO_REG, 4);
    assert ValueJumps(g1.code, [2], true) == {(2, true)} by {
      assert 2 in [2] && (2, true) in ValueJumps(g1.code, [2], true);
    }
    var l := LiteralJump(g1, Exp(VTRUE, 0, Nil, [], [3]));
    assert l.0.code == [LoadK(0, 0), TestSet(NO_REG, 0, true), Jmp(NO_JUMP), Jmp(NO_JUMP), Jmp(-3)];
    assert l.2 == [4, 2];
    var r := GoIf(g1, Exp(VTRUE, 0, Nil, [], [3]), false);
    g2, e2 := r.0, r.1;
  }

  /** The literal `false` is loaded, and the two loads for the jumps without a value are added. */
  lemma MixedLoads(g: Gen, e: Exp) returns (d: Gen, t: Gen)
    requires g == Gen([LoadK(0, 0), TestSet(NO_REG, 0, true), Jmp(NO_JUMP), Jmp(NO_JUMP), Jmp(-3)], [3], 1, 0, 2,
                      [Number(1)], map[Number(1) := 0], false, {(2, true)})
    requires e == Exp(VFALSE, 0, Nil, [4, 2], [])
    ensures d == Discharge2Reg(g, e, 0).0 && NeedValue(d.code, [4, 2])
    ensures LoadTails(d, true, 0) == (t, 7, 8)
    ensures t == g.(code := [LoadK(0, 0), TestSet(NO_REG, 0, true), Jmp(NO_JUMP), Jmp(1), Jmp(-3),
                             LoadBool(0, false, false), Jmp(NO_JUMP), LoadBool(0, false, true),
                             LoadBool(0, true, false)],
                    held := [6])
  {
    d := Discharge2Reg(g, e, 0).0;
    assert d.code == [LoadK(0, 0), TestSet(NO_REG, 0, true), Jmp(NO_JUMP), Jmp(1), Jmp(-3), LoadBool(0, false, false)];
    assert NeedValue(d.code, [4, 2]) by { assert 4 in [4, 2]; }
    PatchedNone(d.code, 6, NO_REG, 6);
    var c7 := d.code + [Jmp(NO_JUMP)];
    PatchedNone(c7, 7, NO_REG, 7);
    PatchedNone(c7 + [LoadBool(0, false, true)], 8, NO_REG, 8);
    t := LoadTails(d, true, 0).0;
  }

  lemma MixedPatch(t: Gen)
    requires t.code == [LoadK(0, 0), TestSet(NO_REG, 0, true), Jmp(NO_JUMP), Jmp(1), Jmp(-3), LoadBool(0, false, false),
                        Jmp(NO_JUMP), LoadBool(0, false, true), LoadBool(0, true, false)]
    ensures PatchList(PatchList(t, [], 9, 0, 7), [4, 2], 9, 0, 8)
         == t.(code := [LoadK(0, 0), Test(0, true), Jmp(6), Jmp(1), Jmp(3), LoadBool(0, false, false),
                        Jmp(NO_JUMP), LoadBool(0, false, true), LoadBool(0, true, false)])
  {
    PatchedNone(t.code, 9, 0, 7);
  }

  lemma MixedReturn(p: Gen)
    requires p.code == [LoadK(0, 0), Test(0, true), Jmp(6), Jmp(1), Jmp(3), LoadBool(0, false, false),
                        Jmp(NO_JUMP), LoadBool(0, false, true), LoadBool(0, true, false)]
    requires p.held == [6] && !p.err
    ensures Emit(p, Return(0, 2)).code
         == [LoadK(0, 0), Test(0, true), Jmp(6), Jmp(1), Jmp(3), LoadBool(0, false, false), Jmp(2),
             LoadBool(0, false, true), LoadBool(0, true, false), Return(0, 2)]
    ensures !Emit(p, Return(0, 2)).err && Emit(p, Return(0, 2)).k == p.k
  {
  }

  /** The value is put into a register. */
  lemma MixedEnd(g: Gen, e: Exp)
    requires g == Gen([LoadK(0, 0), TestSet(NO_REG, 0, true), Jmp(NO_JUMP), Jmp(NO_JUMP), Jmp(-3)], [3], 0, 0, 2,
                      [Number(1)], map[Number(1) := 0], false, {(2, true)})
    requires e == Exp(VFALSE, 0, Nil, [4, 2], [])
    ensures Exp2AnyReg(g, e).1.info == 0
    ensures Exp2AnyReg(g, e).0
         == g.(code := [LoadK(0, 0), Test(0, true), Jmp(6), Jmp(1), Jmp(3), LoadBool(0, false, false),
                        Jmp(NO_JUMP), LoadBool(0, false, true), LoadBool(0, true, false)], held := [6], freereg := 1)
  {
    hide Discharge2Reg, LoadTails, PatchList, NeedValue;
    var d, t := MixedLoads(ReserveRegs(g, 1), e);
    MixedPatch(t);
    MixedPlace(ReserveRegs(g, 1), e);
    assert PatchValues(d, [4, 2], [], true, 0) == PatchList(PatchList(t, [], 9, 0, 7), [4, 2], 9, 0, 8);
  }

  lemma MixedPlace(g: Gen, e: Exp)
    requires e.k.VFALSE?
    ensures Discharge2Reg(g, e, 0).1 == e.(k := VNONRELOC, info := 0)
  {
  }

  /** What Compile does with MIXED_LITERALS. */
  lemma MixedCompile()
    ensures CompileReturn(NewFunction(0), MIXED_LITERALS).code
         == [LoadK(0, 0), Test(0, true), Jmp(6), Jmp(1), Jmp(3), LoadBool(0, false, false), Jmp(2),
             LoadBool(0, false, true), LoadBool(0, true, false), Return(0, 2)]
    ensures !CompileReturn(NewFunction(0), MIXED_LITERALS).err
    ensures CompileReturn(NewFunction(0), MIXED_LITERALS).k == [Number(1)]
  {
    hide GoIf, Exp2AnyReg, Emit;
    var g0, inner, mid := NewFunction(0), Or(Numeral(1), False), And(Or(Numeral(1), False), True);
    var g, e := MixedStart();
    assert Compile(g0, Numeral(1)) == (g0, Exp(VKNUM, 0, Number(1), [], []));
    assert Compile(g, False) == (g, Exp(VFALSE, 0, Nil, [], []));
    assert [] + e.ts == [2] && [] + [4, 2] == [4, 2] && [] + [3] == [3];
    assert Posfix(g, false, e, Exp(VFALSE, 0, Nil, [], [])) == (g, Exp(VFALSE, 0, Nil, [2], []));
    assert Compile(g0, inner) == (g, Exp(VFALSE, 0, Nil, [2], []));
    var g1, e1, g2, e2 := MixedMiddle(g, Exp(VFALSE, 0, Nil, [2], []));
    assert Compile(g1, True) == (g1, Exp(VTRUE, 0, Nil, [], []));
    assert Posfix(g1, true, e1, Exp(VTRUE, 0, Nil, [], [])) == (g1, Exp(VTRUE, 0, Nil, [], [3]));
    assert Compile(g0, mid) == (g1, Exp(VTRUE, 0, Nil, [], [3]));
    assert Compile(g2, False) == (g2, Exp(VFALSE, 0, Nil, [], []));
    assert Posfix(g2, false, e2, Exp(VFALSE, 0, Nil, [], [])) == (g2, Exp(VFALSE, 0, Nil, [4, 2], []));
    assert Compile(g0, MIXED_LITERALS) == (g2, Exp(VFALSE, 0, Nil, [4, 2], []));
    MixedEnd(g2, Exp(VFALSE, 0, Nil, [4, 2], []));
    MixedReturn(Exp2AnyReg(g2, Exp(VFALSE, 0, Nil, [4, 2], [])).0);
  }

  /** The generator is wrong about ((1 or false) and true) or false: the value is true, but the code returns 1,
      because the jump that leaves the first `or` with 1 joins the jumps of the literal `true`. */
  lemma MixedLiteralsFail(env: Env, R: Regs)
    requires [Number(1)] <= env.k
    ensures Eval(MIXED_LITERALS, env, R) == Boolean(true)
    ensures Execute(env, CompileReturn(NewFunction(0), MIXED_LITERALS).code, R) == Ret(Number(1))
  {
    hide CompileReturn;
    MixedCompile();
    var c := [LoadK(0, 0), Test(0, true), Jmp(6), Jmp(1), Jmp(3), LoadBool(0, false, false), Jmp(2),
              LoadBool(0, false, true), LoadBool(0, true, false), Return(0, 2)];
    var S := R[0 := Number(1)];
    assert At(env.k, 0) == Number(1);
    var env' := env.(watch := {});
    assert Run(env', c, {}, 9, S) == Ret(Number(1));
    assert Jump(env', c, {}, 2, S) == Run(env', c, {}, 9, S);
    assert Run(env', c, {}, 1, S) == Jump(env', c, {}, 2, S);
    assert Run(env', c, {}, 0, R) == Run(env', c, {}, 1, S);
    assert Eval(Or(Numeral(1), False), env, R) == Number(1);
    assert Eval(And(Or(Numeral(1), False), True), env, R) == Boolean(true);
  }

  // ----- when it does not fail -----

  /** What is known at compile time about the last operand of an expression. */
  datatype Known = Nothing | Truth | Falsity | Constant

  function Tail(E: Expr): Known {
    match E
    case True => Truth
    case False => Falsity
    case Numeral(_) => Constant
    case Str(_) => Constant
    case Paren(e) => Tail(e)
    case Negate(e) => (match Tail(e) case Nothing => Nothing case Falsity => Truth case _ => Falsity)
    case And(_, r) => Tail(r)
    case Or(_, r) => Tail(r)
    case _ => Nothing
  }

  /** No left operand of `and` ends with a literal that is false, and no left operand of `or` with the literal
      true: goiftrue and goiffalse never emit an unconditional jump. */
  predicate NoLiteralJumps(E: Expr) {
    match E
    case Paren(e) => NoLiteralJumps(e)
    case Negate(e) => NoLiteralJumps(e)
    case And(l, r) => !Tail(l).Falsity? && NoLiteralJumps(l) && NoLiteralJumps(r)
    case Or(l, r) => !Tail(l).Truth? && NoLiteralJumps(l) && NoLiteralJumps(r)
    case Rel(_, l, r) => NoLiteralJumps(l) && NoLiteralJumps(r)
    case _ => true
  }

  ghost predicate KindFits(k: Kind, t: Known) {
    (k.VTRUE? ==> t.Truth?) && (k.VFALSE? ==> t.Falsity?) && (k.VK? || k.VKNUM? ==> t.Constant?)
  }

  lemma SameMixed(g: Gen, e: Exp, reg: int)
    ensures DischargeVars(g, e).0.mixed == g.mixed
    ensures Discharge2Reg(g, e, reg).0.mixed == g.mixed
    ensures Discharge2AnyReg(g, e).0.mixed == g.mixed
  {
    AnyMixed(g, e, reg);
    AnyMixed(ReserveRegs(g, 1), e, ReserveRegs(g, 1).freereg - 1);
  }

  lemma AnyMixed(g: Gen, e: Exp, reg: int)
    ensures DischargeVars(g, e).0.mixed == g.mixed
    ensures Discharge2Reg(g, e, reg).0.mixed == g.mixed
  {
  }

  lemma StoreMixed(g: Gen, e: Exp, reg: int)
    ensures Exp2Reg(g, e, reg).0.mixed == g.mixed
  {
    hide Discharge2Reg;
    AnyMixed(g, e, reg);
  }

  lemma OperandMixed(g: Gen, e: Exp)
    ensures Exp2AnyReg(g, e).0.mixed == g.mixed
    ensures Exp2Val(g, e).0.mixed == g.mixed
    ensures ToOperand(g, e).0.mixed == g.mixed
  {
    hide Exp2Reg, DischargeVars;
    var r := DischargeVars(g, e);
    AnyMixed(g, e, 0);
    AnyMixed(r.0, r.1, 0);
    StoreMixed(r.0, r.1, r.1.info);
    var n := DischargeVars(r.0, r.1);
    var q := ReserveRegs(FreeExp(n.0, n.1), 1);
    StoreMixed(q, n.1, q.freereg - 1);
  }

  lemma RKMixed(g: Gen, e: Exp)
    ensures Exp2RK(g, e).0.mixed == g.mixed
  {
    hide Exp2Val, ToOperand;
    OperandMixed(g, e);
    OperandMixed(Exp2Val(g, e).0, Exp2Val(g, e).1);
  }

  lemma JumpMixed(g: Gen, e: Exp, cond: bool)
    ensures JumpOnCond(g, e, cond).0.mixed == g.mixed
  {
    hide Discharge2AnyReg;
    SameMixed(g, e, 0);
  }

  lemma CloseMixed(g: Gen, e: Exp, pc: seq<int>, cond: bool)
    ensures Close(g, e, pc, cond).0.mixed == g.mixed
  {
  }

  lemma BranchMixed(g: Gen, e: Exp, cond: bool)
    requires !(if cond then e.k.VFALSE? else e.k.VTRUE?)
    ensures GoIf(g, e, cond).0.mixed == g.mixed
  {
    hide JumpOnCond, Close, Emit;
    var r := DischargeVars(g, e);
    AnyMixed(g, e, 0);
    JumpMixed(r.0, r.1, !cond);
    var b := BranchJump(r.0, r.1, cond);
    CloseMixed(b.0, b.1, b.2, cond);
  }

  lemma NotMixed(g: Gen, e: Exp, t: Known)
    requires KindFits(e.k, t)
    ensures CodeNot(g, e).0.mixed == g.mixed
    ensures KindFits(CodeNot(g, e).1.k, match t case Nothing => Nothing case Falsity => Truth case _ => Falsity)
  {
    hide Discharge2AnyReg;
    var r := DischargeVars(g, e);
    AnyMixed(g, e, 0);
    SameMixed(r.0, r.1, 0);
  }

  lemma CompareMixed(g: Gen, op: CmpOp, cond: bool, e1: Exp, e2: Exp)
    ensures CodeComp(g, op, cond, e1, e2).0.mixed == g.mixed
    ensures CodeComp(g, op, cond, e1, e2).1.k.VJMP?
  {
    hide Exp2RK;
    RKMixed(g, e1);
    RKMixed(Exp2RK(g, e1).0, e2);
  }

  /** Without such literals the jumps are never mixed. */
  lemma {:induction false} NotMixedCompile(E: Expr, g: Gen)
    requires NoLiteralJumps(E)
    ensures Compile(g, E).0.mixed == g.mixed && KindFits(Compile(g, E).1.k, Tail(E))
    decreases E
  {
    hide GoIf, Exp2RK, CodeComp, CodeNot;
    match E {
      case Paren(e) => NotMixedCompile(e, g);
      case Negate(e) =>
        NotMixedCompile(e, g);
        NotMixed(Compile(g, e).0, Compile(g, e).1, Tail(e));
      case And(l, r) =>
        NotMixedCompile(l, g);
        BranchMixed(Compile(g, l).0, Compile(g, l).1, true);
        NotMixedCompile(r, GoIf(Compile(g, l).0, Compile(g, l).1, true).0);
      case Or(l, r) =>
        NotMixedCompile(l, g);
        BranchMixed(Compile(g, l).0, Compile(g, l).1, false);
        NotMixedCompile(r, GoIf(Compile(g, l).0, Compile(g, l).1, false).0);
      case Rel(op, l, r) =>
        NotMixedCompile(l, g);
        var c := Compile(g, l);
        RKMixed(c.0, c.1);
        var o := Exp2RK(c.0, c.1);
        NotMixedCompile(r, o.0);
        CompareMixed(Compile(o.0, r).0, CompOf(op).0, CompOf(op).1, o.1, Compile(o.0, r).1);
      case _ =>
    }
  }

  /** Such expressions are compiled correctly, up to the limits on registers and jumps. */
  lemma PlainReturnCorrect(E: Expr, n: nat, env: Env, R: Regs)
    requires n < MAXSTACK && Scoped(E, n) && NoLiteralJumps(E)
    requires var g := CompileReturn(NewFunction(n), E); !g.err && g.k <= env.k
    ensures Execute(env, CompileReturn(NewFunction(n), E).code, R) == Ret(Eval(E, env, R))
  {
    hide Compile, Exp2AnyReg;
    NotMixedCompile(E, NewFunction(n));
    var c := Compile(NewFunction(n), E);
    OperandMixed(c.0, c.1);
    NothingSpoilt(env, CompileReturn(NewFunction(n), E).code, 0, R);
    ReturnFunctionCorrect(E, n, env, R);
  }

  lemma PlainAssignMixed(E: Expr, g0: Gen, reg: int)
    requires NoLiteralJumps(E)
    ensures CompileAssign(g0, reg, E).mixed == g0.mixed
  {
    hide Compile, Exp2Reg;
    NotMixedCompile(E, g0);
    var c := Compile(g0, E);
    StoreMixed(FreeExp(c.0, c.1), c.1, reg);
  }

  /** The same for an assignment to a local variable. */
  lemma PlainAssignRuns(E: Expr, g0: Gen, reg: int, env: Env, R: Regs)
    requires Wf(g0) && Scoped(E, g0.nactvar) && 0 <= reg < g0.nactvar && NoLiteralJumps(E) && g0.mixed == {}
    requires var g := CompileAssign(g0, reg, E); !g.err && g.k <= env.k
    ensures var o := Run(env.(watch := {}), Settled(CompileAssign(g0, reg, E)), {}, |g0.code|, R);
            && o.End? && Get(o.regs, reg) == Eval(E, env, R)
            && forall r :: r < g0.freereg && r != reg ==> Get(o.regs, r) == Get(R, r)
  {
    hide Run, Eval, CompileAssign, Wf;
    PlainAssignMixed(E, g0, reg);
    NothingSpoilt(env, Settled(CompileAssign(g0, reg, E)), |g0.code|, R);
    AssignRuns(E, g0, reg, env, R);
  }

  lemma HeldJumpLeaves(cond: bool, g: Gen, e: Exp, g3: Gen, e3: Exp, j: int, S: Regs)
    requires LiteralOn(g, e, cond, g3, e3) && j in g.held && 0 <= j < |g.code|
    ensures j in Exits(e3, cond)
    ensures Leaves(g3.code, e3, j, S, Boolean(!cond)) <==> JumpValue(g.code, j, S, !cond) == Boolean(!cond)
    ensures j > 0 && IsValueJump(g.code, j) ==> JumpValue(g.code, j, S, !cond) == Get(S, g.code[j-1].b)
  {
    var c, P := g.code + [Jmp(NO_JUMP)], Pending(g, e) + {|g.code|};
    RelinkedJumpValue(c, g3.code, P, j, S, !cond);
    assert j > 0 ==> c[j-1] == g.code[j-1];
    if j > 0 { assert if j - 1 in P then c[j-1].Jmp? else g3.code[j-1] == c[j-1]; }
    assert j in [|g.code|] + g.held;
  }

  /** Exactly when the unconditional jump of a literal treats a jump on hold right: the jump has no value, or its
      value is the literal. */
  lemma LiteralJumpExact(cond: bool, g0: Gen, g: Gen, e: Exp, j: int, S: Regs)
    requires State(g0, g, e) && AlwaysJumps(e, cond) && j in g.held
    ensures var (g3, e3) := GoIf(g, e, cond);
            && j in Exits(e3, cond)
            && (Leaves(g3.code, e3, j, S, Boolean(!cond))
                <==> (IsValueJump(g.code, j) ==> Get(S, g.code[j-1].b) == Boolean(!cond)))
  {
    hide LiteralJump, Close, LiteralOn, Leaves, State, Exits;
    LiteralClosed(g0, g, e, cond);
    StateHeld(g0, g, e, j);
    var r := GoIf(g, e, cond);
    HeldJumpLeaves(cond, g, e, r.0, r.1, j, S);
  }

  /** All these jumps leave the expression with value v, whatever the registers hold. */
  ghost predicate AllLeave(code: seq<Instr>, e: Exp, held: seq<int>, v: Value) {
    forall j, S: Regs :: j in held ==> Leaves(code, e, j, S, v)
  }

  /** The jumps on hold at a literal are treated right, whatever values they carry, if and only if none carries any. */
  lemma LiteralJumpsExact(cond: bool, g0: Gen, g: Gen, e: Exp)
    requires State(g0, g, e) && AlwaysJumps(e, cond)
    ensures var (g3, e3) := GoIf(g, e, cond);
            AllLeave(g3.code, e3, g.held, Boolean(!cond)) <==> !HasValueJump(g.code, g.held)
  {
    hide GoIf, Leaves, State;
    var (g3, e3) := GoIf(g, e, cond);
    if HasValueJump(g.code, g.held) {
      var j :| j in g.held && IsValueJump(g.code, j);
      var S: Regs := map[g.code[j-1].b := Nil];
      LiteralJumpExact(cond, g0, g, e, j, S);
      assert !Leaves(g3.code, e3, j, S, Boolean(!cond));
    } else {
      var v := Boolean(!cond);
      forall j, S: Regs | j in g.held
        ensures Leaves(g3.code, e3, j, S, v)
      {
        LiteralJumpExact(cond, g0, g, e, j, S);
      }
    }
  }

  lemma StateHeld(g0: Gen, g: Gen, e: Exp, j: int)
    requires State(g0, g, e) && j in g.held
    ensures 0 <= j < |g.code|
  {
    InRange(g.code, g.held, j);
  }
}
