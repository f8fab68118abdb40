/** What the code generator for boolean expressions computes (lcode.c), as functions on values.
    The methods of `CodeGen.FuncState` are proved equal to these functions; `CodeGenProof` proves
    what the functions mean. */
module CodeGenSpec {
  import opened Limits
  import opened Machine
  import opened JumpLists

  datatype Kind = VTRUE | VFALSE | VK | VKNUM | VLOCAL | VUPVAL | VJMP | VRELOCABLE | VNONRELOC

  /** expdesc, with its two patch lists as sequences. */
  datatype Exp = Exp(k: Kind, info: int, nval: Value, ts: seq<int>, fs: seq<int>)

  /** The state of the generator: FuncState and the vectors of its Proto.  `held` is the list
      `jpc` of pending jumps to the next instruction.  `err` records that a limit was exceeded (the C
      code raises a syntax error and stops).  `mixed` is not in the C code: it records
      the pending value jumps that the unconditional jump of a literal operand was put in front of, with the literal. */
  datatype Gen = Gen(code: seq<Instr>, held: seq<int>, freereg: int, nactvar: int, maxstack: int,
                     k: seq<Value>, h: map<Value, int>, err: bool,
                     mixed: set<(int, bool)>)

  datatype RelOp = NE | EQ | LT | LE | GT | GE

  datatype Expr =
    | Local(r: int)
    | Upval(i: int)
    | True
    | False
    | Numeral(n: int)
    | Str(s: string)
    | Paren(e: Expr)
    | Negate(e: Expr)
    | And(left: Expr, right: Expr)
    | Or(left: Expr, right: Expr)
    | Rel(op: RelOp, left: Expr, right: Expr)

  /** The value of an expression, by sections 2.5.2 and 2.5.3 of the reference manual. */
  function Eval(e: Expr, env: Env, R: Regs): Value {
    match e
    case Local(r) => Get(R, r)
    case Upval(i) => At(env.up, i)
    case True => Boolean(true)
    case False => Boolean(false)
    case Numeral(n) => Number(n)
    case Str(s) => Text(s)
    case Paren(e1) => Eval(e1, env, R)
    case Negate(e1) => Boolean(IsFalse(Eval(e1, env, R)))
    case And(l, r) => if IsFalse(Eval(l, env, R)) then Eval(l, env, R) else Eval(r, env, R)
    case Or(l, r) => if IsFalse(Eval(l, env, R)) then Eval(r, env, R) else Eval(l, env, R)
    case Rel(op, l, r) =>
      var a, b := Eval(l, env, R), Eval(r, env, R);
      Boolean(match op
              case EQ => env.cmp(OpEq, a, b)
              case NE => !env.cmp(OpEq, a, b)
              case LT => env.cmp(OpLt, a, b)
              case LE => env.cmp(OpLe, a, b)
              case GT => env.cmp(OpLt, b, a)
              case GE => env.cmp(OpLe, b, a))
  }

  // ----- emitting instructions -----

  function PatchList(g: Gen, s: seq<int>, vtarget: int, reg: int, dtarget: int): Gen {
    g.(code := Patched(g.code, s, vtarget, reg, dtarget),
       err := g.err || PatchedFar(g.code, s, vtarget, dtarget))
  }

  function Concat(g: Gen, s: seq<int>, t: seq<int>): Gen {
    g.(code := Linked(g.code, s, t), err := g.err || LinkedFar(s, t))
  }

  /** dischargejpc */
  function Discharge(g: Gen): Gen {
    PatchList(g, g.held, |g.code|, NO_REG, |g.code|).(held := [])
  }

  /** luaK_code */
  function Emit(g: Gen, i: Instr): Gen {
    var g1 := Discharge(g);
    g1.(code := g1.code + [i], err := g1.err || |g1.code| >= MAX_INT)
  }

  /** luaK_jump: the jumps to here are kept on hold, behind the new jump. */
  function EmitJump(g: Gen): (Gen, seq<int>) {
    var g1 := Emit(g.(held := []), Jmp(NO_JUMP));
    (Concat(g1, [|g.code|], g.held), [|g.code|] + g.held)
  }

  /** condjump */
  function CondJump(g: Gen, i: Instr): (Gen, seq<int>) {
    EmitJump(Emit(g, i))
  }

  /** luaK_patchtohere */
  function PatchToHere(g: Gen, s: seq<int>): Gen {
    Concat(g, g.held, s).(held := g.held + s)
  }

  // ----- registers and constants -----

  /** luaK_checkstack */
  function CheckStack(g: Gen, n: int): Gen {
    var newstack := g.freereg + n;
    if newstack > g.maxstack then g.(maxstack := newstack, err := g.err || newstack >= MAXSTACK) else g
  }

  function ReserveRegs(g: Gen, n: int): Gen {
    var g1 := CheckStack(g, n);
    g1.(freereg := g1.freereg + n)
  }

  /** freeexp: a register that is not a local variable becomes free again.  (freereg also tests that its
      argument is not a constant; the place of a VNONRELOC expression never is.) */
  function FreeExp(g: Gen, e: Exp): Gen {
    if e.k.VNONRELOC? && e.info >= g.nactvar then g.(freereg := g.freereg - 1) else g
  }

  /** addk */
  function AddK(g: Gen, v: Value): (Gen, int) {
    if v in g.h then (g, g.h[v])
    else (g.(k := g.k + [v], h := g.h[v := |g.k|], err := g.err || |g.k| >= MAXARG_Bx), |g.k|)
  }

  // ----- putting an expression somewhere -----

  /** luaK_dischargevars */
  function DischargeVars(g: Gen, e: Exp): (Gen, Exp) {
    match e.k
    case VLOCAL => (g, e.(k := VNONRELOC))
    case VUPVAL => (Emit(g, GetUpval(0, e.info)), e.(k := VRELOCABLE, info := |g.code|))
    case _ => (g, e)
  }

  /** SETARG_A */
  function SetA(i: Instr, reg: int): Instr {
    match i
    case Not(_, b) => Not(reg, b)
    case GetUpval(_, b) => GetUpval(reg, b)
    case _ => i
  }

  function Discharge2Reg(g0: Gen, e0: Exp, reg: int): (Gen, Exp) {
    var (g, e) := DischargeVars(g0, e0);
    if e.k.VJMP? then (g, e)
    else
      var g' := match e.k
        case VTRUE => Emit(g, LoadBool(reg, true, false))
        case VFALSE => Emit(g, LoadBool(reg, false, false))
        case VK => Emit(g, LoadK(reg, e.info))
        case VKNUM => var (g1, i) := AddK(g, e.nval); Emit(g1, LoadK(reg, i))
        case VRELOCABLE => g.(code := Put(g.code, e.info, SetA(InstrAt(g.code, e.info), reg)))
        case _ => if reg != e.info then Emit(g, Move(reg, e.info)) else g;
      (g', e.(k := VNONRELOC, info := reg))
  }

  function Discharge2AnyReg(g: Gen, e: Exp): (Gen, Exp) {
    if e.k.VNONRELOC? then (g, e)
    else
      var g1 := ReserveRegs(g, 1);
      Discharge2Reg(g1, e, g1.freereg - 1)
  }

  /** The part of exp2reg that emits the two loads, when some jump needs its value produced; returns
      their positions. */
  function LoadTails(g: Gen, jump: bool, reg: int): (Gen, int, int) {
    var (g1, fj) := if jump then EmitJump(g) else (g, []);
    var g2 := Emit(g1, LoadBool(reg, false, true));
    var g3 := Emit(g2, LoadBool(reg, true, false));
    (PatchToHere(g3, fj), |g1.code|, |g2.code|)
  }

  /** The part of exp2reg behind discharge2reg. */
  function CloseLists(g: Gen, e: Exp, reg: int): Gen {
    if e.k.VJMP? then PatchValues(Concat(g, e.ts, [e.info]), e.ts + [e.info], e.fs, false, reg)
    else PatchValues(g, e.ts, e.fs, true, reg)
  }

  /** exp2reg */
  function Exp2Reg(g0: Gen, e0: Exp, reg: int): (Gen, Exp) {
    var (g, e) := Discharge2Reg(g0, e0, reg);
    (CloseLists(g, e, reg), e.(k := VNONRELOC, info := reg, ts := [], fs := []))
  }

  /** The part of exp2reg for an expression with jumps: both lists are patched, to the end if the jump
      produces a value, else to one of two loads. */
  function PatchValues(g: Gen, ts: seq<int>, fs: seq<int>, jump: bool, reg: int): Gen {
    if ts == [] && fs == [] then g
    else
      var (g2, pf, pt) := if NeedValue(g.code, ts) || NeedValue(g.code, fs) then LoadTails(g, jump, reg)
                          else (g, NO_JUMP, NO_JUMP);
      var final := |g2.code|;
      PatchList(PatchList(g2, fs, final, reg, pf), ts, final, reg, pt)
  }

  function Exp2NextReg(g0: Gen, e0: Exp): (Gen, Exp) {
    var (g, e) := DischargeVars(g0, e0);
    var g1 := ReserveRegs(FreeExp(g, e), 1);
    Exp2Reg(g1, e, g1.freereg - 1)
  }

  function Exp2AnyReg(g0: Gen, e0: Exp): (Gen, Exp) {
    var (g, e) := DischargeVars(g0, e0);
    if e.k.VNONRELOC? && e.ts == [] && e.fs == [] then (g, e)
    else if e.k.VNONRELOC? && e.info >= g.nactvar then Exp2Reg(g, e, e.info)
    else Exp2NextReg(g, e)
  }

  function Exp2Val(g: Gen, e: Exp): (Gen, Exp) {
    if e.ts == [] && e.fs == [] then DischargeVars(g, e) else Exp2AnyReg(g, e)
  }

  /** luaK_exp2RK: the operand is e.info, with BITRK added for a constant. */
  function Exp2RK(g0: Gen, e0: Exp): (Gen, Exp, int) {
    var (g, e) := Exp2Val(g0, e0);
    ToOperand(g, e)
  }

  function ToOperand(g: Gen, e: Exp): (Gen, Exp, int) {
    if (e.k.VTRUE? || e.k.VFALSE? || e.k.VKNUM?) && |g.k| <= MAXINDEXRK then
      var (g1, i) := AddK(g, if e.k.VKNUM? then e.nval else Boolean(e.k.VTRUE?));
      (g1, e.(k := VK, info := i), i + BITRK)
    else if e.k.VK? && e.info <= MAXINDEXRK then (g, e, e.info + BITRK)
    else
      var (g1, e1) := Exp2AnyReg(g, e);
      (g1, e1, e1.info)
  }

  // ----- jumping on an expression -----

  /** invertjump */
  function InvertJump(g: Gen, e: Exp): Gen {
    match InstrAt(g.code, e.info - 1)
    case Compare(op, cond, b, c) => g.(code := Put(g.code, e.info - 1, Compare(op, !cond, b, c)))
    case _ => g
  }

  /** jumponcond: jump when the value of e is `cond`. */
  function JumpOnCond(g0: Gen, e0: Exp, cond: bool): (Gen, Exp, seq<int>) {
    if e0.k.VRELOCABLE? && InstrAt(g0.code, e0.info).Not? && |g0.code| > 0 then
      var (g1, list) := CondJump(g0.(code := g0.code[..|g0.code|-1]), Test(InstrAt(g0.code, e0.info).b, !cond));
      (g1, e0, list)
    else
      var (g, e) := Discharge2AnyReg(g0, e0);
      var (g1, list) := CondJump(FreeExp(g, e), TestSet(NO_REG, e.info, cond));
      (g1, e, list)
  }

  /** luaK_goiftrue (cond is true) and luaK_goiffalse (cond is false): fall through when the value of e
      is `cond`, else leave through a jump of the other list. */
  function GoIf(g0: Gen, e0: Exp, cond: bool): (Gen, Exp) {
    var (g, e) := DischargeVars(g0, e0);
    var (g1, e1, pc) := BranchJump(g, e, cond);
    Close(g1, e1, pc, cond)
  }

  /** The jump that leaves when the value of e is not `cond`. */
  function BranchJump(g: Gen, e: Exp, cond: bool): (Gen, Exp, seq<int>) {
    match e.k
    case VTRUE => if cond then (g, e, []) else LiteralJump(g, e)
    case VFALSE => if cond then LiteralJump(g, e) else (g, e, [])
    case VJMP => (if cond then InvertJump(g, e) else g, e, [e.info])
    case _ => if cond && (e.k.VK? || e.k.VKNUM?) then (g, e, []) else JumpOnCond(g, e, !cond)
  }

  /** Add the last jump to the list of exits, and direct the other list to here. */
  function Close(g: Gen, e: Exp, pc: seq<int>, cond: bool): (Gen, Exp) {
    if cond then (PatchToHere(Concat(g, e.fs, pc), e.ts), e.(ts := [], fs := e.fs + pc))
    else (PatchToHere(Concat(g, e.ts, pc), e.fs), e.(fs := [], ts := e.ts + pc))
  }

  /** The jumps of s that carry a value, where the value of a literal is expected. */
  function ValueJumps(code: seq<Instr>, s: seq<int>, literal: bool): set<(int, bool)> {
    set j | j in s && IsValueJump(code, j) :: (j, literal)
  }

  function LiteralJump(g: Gen, e: Exp): (Gen, Exp, seq<int>) {
    var (g1, list) := EmitJump(g.(mixed := g.mixed + ValueJumps(g.code, g.held, e.k.VTRUE?)));
    (g1, e, list)
  }

  /** codenot */
  function CodeNot(g0: Gen, e0: Exp): (Gen, Exp) {
    var (g, e) := DischargeVars(g0, e0);
    var (g1, e1) := NotValue(g, e);
    SwapLists(g1, e1)
  }

  /** The part of codenot that negates the value at the end of the code of e. */
  function NotValue(g: Gen, e: Exp): (Gen, Exp) {
    match e.k
    case VFALSE => (g, e.(k := VTRUE))
    case VTRUE => (g, e.(k := VFALSE))
    case VK => (g, e.(k := VFALSE))
    case VKNUM => (g, e.(k := VFALSE))
    case VJMP => (InvertJump(g, e), e)
    case _ =>
      var (g2, e2) := Discharge2AnyReg(g, e);
      var g3 := FreeExp(g2, e2);
      (Emit(g3, Not(0, e2.info)), e2.(k := VRELOCABLE, info := |g3.code|))
  }

  /** The part of codenot that interchanges the lists; their jumps no longer produce values. */
  function SwapLists(g: Gen, e: Exp): (Gen, Exp) {
    (g.(code := ValuesRemoved(ValuesRemoved(g.code, e.ts), e.fs)), e.(ts := e.fs, fs := e.ts))
  }

  /** codecomp */
  function CodeComp(g0: Gen, op: CmpOp, cond: bool, e1: Exp, e2: Exp): (Gen, Exp) {
    var (g1, e1', o1) := Exp2RK(g0, e1);
    var (g2, e2', o2) := Exp2RK(g1, e2);
    var g3 := FreeExp(FreeExp(g2, e2'), e1');
    var swap := !cond && op != OpEq;
    var (g4, list) := CondJump(g3, Compare(op, cond || swap, if swap then o2 else o1, if swap then o1 else o2));
    (g4, e1'.(k := VJMP, info := Head(list)))
  }

  /** The opcode and the condition luaK_posfix passes to codecomp. */
  function CompOf(op: RelOp): (CmpOp, bool) {
    match op
    case EQ => (OpEq, true)
    case NE => (OpEq, false)
    case LT => (OpLt, true)
    case LE => (OpLe, true)
    case GT => (OpLt, false)
    case GE => (OpLe, false)
  }

  /** luaK_posfix for `and` (cond is true) and `or` (cond is false). */
  function Posfix(g0: Gen, cond: bool, e1: Exp, e0: Exp): (Gen, Exp) {
    var (g, e2) := DischargeVars(g0, e0);
    JoinLists(g, cond, e1, e2)
  }

  function JoinLists(g: Gen, cond: bool, e1: Exp, e2: Exp): (Gen, Exp) {
    if cond then (Concat(g, e2.fs, e1.fs), e2.(fs := e2.fs + e1.fs))
    else (Concat(g, e2.ts, e1.ts), e2.(ts := e2.ts + e1.ts))
  }

  /** The calls subexpr makes for an expression, in its order. */
  function Compile(g: Gen, e: Expr): (Gen, Exp)
    decreases e
  {
    match e
    case Local(r) => (g, Exp(VLOCAL, r, Nil, [], []))
    case Upval(i) => (g, Exp(VUPVAL, i, Nil, [], []))
    case True => (g, Exp(VTRUE, 0, Nil, [], []))
    case False => (g, Exp(VFALSE, 0, Nil, [], []))
    case Numeral(n) => (g, Exp(VKNUM, 0, Number(n), [], []))
    case Str(s) => var (g1, i) := AddK(g, Text(s)); (g1, Exp(VK, i, Nil, [], []))
    case Paren(e1) => var (g1, x1) := Compile(g, e1); DischargeVars(g1, x1)
    case Negate(e1) => var (g1, x1) := Compile(g, e1); CodeNot(g1, x1)
    case And(l, r) =>
      var (g1, x1) := Compile(g, l);
      var (g2, x2) := GoIf(g1, x1, true);
      var (g3, x3) := Compile(g2, r);
      Posfix(g3, true, x2, x3)
    case Or(l, r) =>
      var (g1, x1) := Compile(g, l);
      var (g2, x2) := GoIf(g1, x1, false);
      var (g3, x3) := Compile(g2, r);
      Posfix(g3, false, x2, x3)
    case Rel(op, l, r) =>
      var (g1, x1) := Compile(g, l);
      var (g2, x2, _) := Exp2RK(g1, x1);
      var (g3, x3) := Compile(g2, r);
      CodeComp(g3, CompOf(op).0, CompOf(op).1, x2, x3)
  }

  /** `return e`: luaK_exp2anyreg, then luaK_ret with one value. */
  function CompileReturn(g: Gen, e: Expr): Gen {
    var (g1, x1) := Compile(g, e);
    var (g2, x2) := Exp2AnyReg(g1, x1);
    Emit(g2, Return(x2.info, 2))
  }

  /** `reg = e` for a local variable: luaK_storevar. */
  function CompileAssign(g: Gen, reg: int, e: Expr): Gen {
    var (g1, x1) := Compile(g, e);
    Exp2Reg(FreeExp(g1, x1), x1, reg).0
  }

  /** A function whose n parameters occupy the first registers, before its first statement. */
  function NewFunction(n: nat): Gen {
    Gen([], [], n, n, if n < 2 then 2 else n, [], map[], false, {})
  }
}
