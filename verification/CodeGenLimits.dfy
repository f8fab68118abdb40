/** When the code generator succeeds: what an expression needs at most of the registers, the instructions and the
    constants of a function.  Nothing else makes the generator fail. */
module CodeGenLimits {
  import opened Limits
  import opened Machine
  import opened JumpLists
  import opened CodeGenSpec
  import opened CodeGenProof
  import opened CodeGenTheorems

  function Max(a: int, b: int): int {
    if a < b then b else a
  }

  // ----- what an expression needs -----

  /** The registers above the variables: one for the value; the left operand of a comparison may stay in its register
      while the right one is evaluated. */
  function Registers(E: Expr): (n: nat)
    ensures n >= 1
  {
    match E
    case Paren(e) => Registers(e)
    case Negate(e) => Registers(e)
    case And(l, r) => Max(Registers(l), Registers(r))
    case Or(l, r) => Max(Registers(l), Registers(r))
    case Rel(_, l, r) => Max(Registers(l), 1 + Registers(r))
    case _ => 1
  }

  /** One instruction for each operand and each `not`, a test and a jump for each other operator; at each end of jumps
      that do not carry their values, two loads and a jump around them. */
  function Instructions(E: Expr): (n: nat)
    ensures n >= 1
  {
    match E
    case Paren(e) => Instructions(e)
    case Negate(e) => Instructions(e) + 1
    case And(l, r) => Instructions(l) + Instructions(r) + 2
    case Or(l, r) => Instructions(l) + Instructions(r) + 2
    case Rel(_, l, r) => Instructions(l) + 3 + Instructions(r) + 3 + 2
    case _ => 1
  }

  /** One for each literal, and for each `not`: its value may become a literal. */
  function Constants(E: Expr): nat {
    match E
    case Local(_) => 0
    case Upval(_) => 0
    case Paren(e) => Constants(e)
    case Negate(e) => Constants(e) + 1
    case And(l, r) => Constants(l) + Constants(r)
    case Or(l, r) => Constants(l) + Constants(r)
    case Rel(_, l, r) => Constants(l) + Constants(r)
    case _ => 1
  }

  /** The operands and operators of an expression. */
  function Size(E: Expr): (n: nat)
    ensures n >= 1
  {
    match E
    case Paren(e) => Size(e)
    case Negate(e) => 1 + Size(e)
    case And(l, r) => Size(l) + 1 + Size(r)
    case Or(l, r) => Size(l) + 1 + Size(r)
    case Rel(_, l, r) => Size(l) + 1 + Size(r)
    case _ => 1
  }

  /** How many comparisons are open, each with its left operand, while the innermost operand is evaluated. */
  function OpenComparisons(E: Expr): nat {
    match E
    case Paren(e) => OpenComparisons(e)
    case Negate(e) => OpenComparisons(e)
    case And(l, r) => Max(OpenComparisons(l), OpenComparisons(r))
    case Or(l, r) => Max(OpenComparisons(l), OpenComparisons(r))
    case Rel(_, l, r) => Max(OpenComparisons(l), OpenComparisons(r) + 1)
    case _ => 0
  }

  /** What is needed grows with the size only, and the registers only with the nesting of comparisons to the right. */
  lemma {:induction false} NeedsAreSmall(E: Expr)
    ensures Registers(E) == 1 + OpenComparisons(E) && Instructions(E) < 8 * Size(E) && Constants(E) <= Size(E)
  {
    match E {
      case Paren(e) => NeedsAreSmall(e);
      case Negate(e) => NeedsAreSmall(e);
      case And(l, r) => NeedsAreSmall(l); NeedsAreSmall(r);
      case Or(l, r) => NeedsAreSmall(l); NeedsAreSmall(r);
      case Rel(_, l, r) => NeedsAreSmall(l); NeedsAreSmall(r);
      case _ =>
    }
  }

  // ----- steps within limits -----

  /** There is room for so many more instructions and constants, and for so many registers in all. */
  predicate Room(g: Gen, instructions: int, constants: int, registers: int) {
    |g.code| + instructions < MAXARG_sBx && |g.k| + constants <= MAXARG_Bx && registers < MAXSTACK
  }

  /** From g to g' no more is used, and there is no error if there is room for it. */
  ghost predicate Within(g: Gen, g': Gen, instructions: int, constants: int, registers: int) {
    && |g.code| <= |g'.code| <= |g.code| + instructions && |g.k| <= |g'.k| <= |g.k| + constants
    && g.maxstack <= g'.maxstack <= Max(g.maxstack, registers) && g'.nactvar == g.nactvar
    && (ConstantsOk(g.k, g.h) ==> ConstantsOk(g'.k, g'.h))
    && (Room(g, instructions, constants, registers) && !g.err ==> !g'.err)
  }

  lemma Both(g: Gen, g1: Gen, g2: Gen, i: nat, c: nat, r: int, i': nat, c': nat, r': int)
    requires Within(g, g1, i, c, r) && Within(g1, g2, i', c', r')
    ensures Within(g, g2, i + i', c + c', Max(r, r'))
  {
  }

  lemma More(g: Gen, g': Gen, i: nat, c: nat, r: int, i': nat, c': nat, r': int)
    requires Within(g, g', i, c, r) && i <= i' && c <= c' && r <= r'
    ensures Within(g, g', i', c', r')
  {
  }

  /** Positions in the code. */
  predicate Inside(n: int, s: seq<int>) {
    forall j :: j in s ==> 0 <= j < n
  }

  lemma EmitWithin(g: Gen, i: Instr)
    requires Inside(|g.code| + 1, g.held)
    ensures Within(g, Emit(g, i), 1, 0, 0) && |Emit(g, i).code| == |g.code| + 1
    ensures Emit(g, i).held == [] && Emit(g, i).freereg == g.freereg && Emit(g, i).k == g.k
  {
  }

  lemma EmitJumpWithin(g: Gen)
    requires Inside(|g.code|, g.held)
    ensures var (g', s) := EmitJump(g);
            && Within(g, g', 1, 0, 0) && |g'.code| == |g.code| + 1
            && g'.held == [] && g'.freereg == g.freereg && g'.k == g.k && Inside(|g'.code|, s)
  {
    EmitWithin(g.(held := []), Jmp(NO_JUMP));
    if g.held != [] { assert g.held[0] in g.held; }
  }

  lemma CondJumpWithin(g: Gen, i: Instr)
    requires Inside(|g.code| + 1, g.held)
    ensures var (g', s) := CondJump(g, i);
            && Within(g, g', 2, 0, 0) && |g'.code| == |g.code| + 2
            && g'.held == [] && g'.freereg == g.freereg && g'.k == g.k && Inside(|g'.code|, s)
  {
    hide Emit, EmitJump;
    EmitWithin(g, i);
    EmitJumpWithin(Emit(g, i));
    Both(g, Emit(g, i), CondJump(g, i).0, 1, 0, 0, 1, 0, 0);
  }

  lemma ConcatWithin(g: Gen, s: seq<int>, t: seq<int>)
    requires Inside(|g.code|, s) && Inside(|g.code|, t)
    ensures Within(g, Concat(g, s, t), 0, 0, 0) && |Concat(g, s, t).code| == |g.code|
    ensures Concat(g, s, t) == g.(code := Concat(g, s, t).code, err := Concat(g, s, t).err)
  {
    if s != [] { assert s[|s|-1] in s; }
    if t != [] { assert t[0] in t; }
  }

  lemma PatchWithin(g: Gen, s: seq<int>, vtarget: int, reg: int, dtarget: int)
    requires Inside(|g.code|, s) && -1 <= vtarget <= |g.code| && -1 <= dtarget <= |g.code|
    ensures Within(g, PatchList(g, s, vtarget, reg, dtarget), 0, 0, 0)
  {
  }

  // ----- the generator, function by function -----

  /** The register that e occupies above the variables, if it does. */
  function Temp(g: Gen, e: Exp): int {
    if e.k.VNONRELOC? && e.info >= g.nactvar then 1 else 0
  }

  /** Is an instruction still needed that puts the value into a register? */
  function Place(e: Exp): int {
    if e.k.VRELOCABLE? || e.k.VJMP? then 0 else 1
  }

  /** Is its value a literal that is not among the constants yet? */
  function Literal(e: Exp): int {
    if e.k.VTRUE? || e.k.VFALSE? || e.k.VKNUM? then 1 else 0
  }

  predicate ListsInside(g: Gen, e: Exp) {
    Inside(|g.code|, g.held) && Inside(|g.code|, e.ts) && Inside(|g.code|, e.fs)
  }

  ghost predicate Shape(g: Gen, e: Exp) {
    && ListsInside(g, e) && ConstantsOk(g.k, g.h)
    && (e.k.VLOCAL? ==> e.info < g.nactvar)
    && (e.k.VJMP? || e.k.VRELOCABLE? ==> 0 <= e.info < |g.code|)
  }

  /** b is the first register that was free before e. */
  ghost predicate Fits(b: int, g: Gen, e: Exp) {
    Shape(g, e) && 0 <= g.nactvar <= b && g.freereg == b + Temp(g, e)
  }

  lemma DischargeVarsWithin(g: Gen, e: Exp)
    requires Shape(g, e)
    ensures var (g', e') := DischargeVars(g, e);
            && Shape(g', e') && g'.freereg == g.freereg && Temp(g', e') == Temp(g, e)
            && !e'.k.VLOCAL? && !e'.k.VUPVAL? && Place(e') <= Place(e) && Literal(e') == Literal(e)
            && Within(g, g', Place(e) - Place(e'), 0, 0) && e'.ts == e.ts && e'.fs == e.fs
  {
    hide Emit;
    if e.k.VUPVAL? { EmitWithin(g, GetUpval(0, e.info)); }
  }

  lemma Discharge2RegWithin(g: Gen, e: Exp, reg: int)
    requires Shape(g, e)
    ensures var (g', e') := Discharge2Reg(g, e, reg);
            && Within(g, g', Place(e), Literal(e), 0) && g'.freereg == g.freereg
            && e' == (if e.k.VJMP? then e else e.(k := VNONRELOC, info := reg)) && ListsInside(g', e')
            && |g.code| <= |g'.code|
  {
    hide Emit, AddK, ConstantsOk;
    var (g1, e1) := DischargeVars(g, e);
    DischargeVarsWithin(g, e);
    match e1.k {
      case VTRUE => EmitWithin(g1, LoadBool(reg, true, false));
      case VFALSE => EmitWithin(g1, LoadBool(reg, false, false));
      case VK => EmitWithin(g1, LoadK(reg, e1.info));
      case VKNUM =>
        AddKWithin(g1, e1.nval);
        EmitWithin(AddK(g1, e1.nval).0, LoadK(reg, AddK(g1, e1.nval).1));
      case VNONRELOC => EmitWithin(g1, Move(reg, e1.info));
      case _ =>
    }
  }

  lemma AddKWithin(g: Gen, v: Value)
    requires ConstantsOk(g.k, g.h)
    ensures var (g', i) := AddK(g, v);
            Within(g, g', 0, 1, 0) && 0 <= i <= |g.k| && g' == g.(k := g'.k, h := g'.h, err := g'.err)
  {
  }

  lemma ReserveWithin(g: Gen, n: nat)
    ensures Within(g, ReserveRegs(g, n), 0, 0, g.freereg + n)
  {
  }

  lemma Discharge2AnyRegWithin(b: int, g: Gen, e: Exp)
    requires Fits(b, g, e) && !e.k.VJMP?
    ensures var (g', e') := Discharge2AnyReg(g, e);
            && Within(g, g', Place(e), Literal(e), b + 1) && Fits(b, g', e')
            && e'.k.VNONRELOC? && e'.ts == e.ts && e'.fs == e.fs
  {
    hide Discharge2Reg;
    if !e.k.VNONRELOC? {
      var g1 := ReserveRegs(g, 1);
      ReserveWithin(g, 1);
      Discharge2RegWithin(g1, e, b);
      Both(g, g1, Discharge2Reg(g1, e, b).0, 0, 0, b + 1, Place(e), Literal(e), 0);
    }
  }

  lemma LoadTailsWithin(g: Gen, jump: bool, reg: int)
    requires Inside(|g.code|, g.held)
    ensures var (g', pf, pt) := LoadTails(g, jump, reg);
            && Within(g, g', 3, 0, 0) && g'.freereg == g.freereg && |g.code| <= pf < pt < |g'.code|
            && Inside(|g'.code|, g'.held)
  {
    hide EmitJump, Emit;
    var (g1, fj) := if jump then EmitJump(g) else (g, []);
    if jump { EmitJumpWithin(g); }
    EmitWithin(g1, LoadBool(reg, false, true));
    var g2 := Emit(g1, LoadBool(reg, false, true));
    EmitWithin(g2, LoadBool(reg, true, false));
    var g3 := Emit(g2, LoadBool(reg, true, false));
    ConcatWithin(g3, g3.held, fj);
  }

  lemma PatchValuesWithin(g: Gen, ts: seq<int>, fs: seq<int>, jump: bool, reg: int)
    requires Inside(|g.code|, g.held) && Inside(|g.code|, ts) && Inside(|g.code|, fs)
    ensures var g' := PatchValues(g, ts, fs, jump, reg);
            Within(g, g', 3, 0, 0) && g'.freereg == g.freereg && Inside(|g'.code|, g'.held)
  {
    hide LoadTails, NeedValue;
    if ts != [] || fs != [] {
      LoadTailsWithin(g, jump, reg);
      var (g2, pf, pt) := if NeedValue(g.code, ts) || NeedValue(g.code, fs) then LoadTails(g, jump, reg)
                          else (g, NO_JUMP, NO_JUMP);
      var final := |g2.code|;
      PatchWithin(g2, fs, final, reg, pf);
      var g3 := PatchList(g2, fs, final, reg, pf);
      PatchWithin(g3, ts, final, reg, pt);
      Both(g2, g3, PatchList(g3, ts, final, reg, pt), 0, 0, 0, 0, 0, 0);
      Both(g, g2, PatchList(g3, ts, final, reg, pt), 3, 0, 0, 0, 0, 0);
    }
  }

  lemma CloseListsWithin(g: Gen, e: Exp, reg: int)
    requires ListsInside(g, e) && (e.k.VJMP? ==> 0 <= e.info < |g.code|)
    ensures var g' := CodeGenSpec.CloseLists(g, e, reg);
            Within(g, g', 3, 0, 0) && g'.freereg == g.freereg && Inside(|g'.code|, g'.held)
  {
    hide PatchValues, Concat;
    if e.k.VJMP? {
      ConcatWithin(g, e.ts, [e.info]);
      var g1 := Concat(g, e.ts, [e.info]);
      PatchValuesWithin(g1, e.ts + [e.info], e.fs, false, reg);
      Both(g, g1, CodeGenSpec.CloseLists(g, e, reg), 0, 0, 0, 3, 0, 0);
    } else {
      PatchValuesWithin(g, e.ts, e.fs, true, reg);
    }
  }

  lemma Exp2RegWithin(g: Gen, e: Exp, reg: int)
    requires Shape(g, e)
    ensures var (g', e') := Exp2Reg(g, e, reg);
            && Within(g, g', Place(e) + 3, Literal(e), 0) && g'.freereg == g.freereg && Inside(|g'.code|, g'.held)
            && e' == e.(k := VNONRELOC, info := reg, ts := [], fs := [])
  {
    hide Discharge2Reg, CodeGenSpec.CloseLists;
    Discharge2RegWithin(g, e, reg);
    var (g1, e1) := Discharge2Reg(g, e, reg);
    CloseListsWithin(g1, e1, reg);
    Both(g, g1, CodeGenSpec.CloseLists(g1, e1, reg), Place(e), Literal(e), 0, 3, 0, 0);
  }

  lemma Exp2NextRegWithin(b: int, g: Gen, e: Exp)
    requires Fits(b, g, e)
    ensures var (g', e') := Exp2NextReg(g, e);
            Within(g, g', Place(e) + 3, Literal(e), b + 1) && Fits(b, g', e') && InRegister(e')
  {
    hide DischargeVars, Exp2Reg;
    DischargeVarsWithin(g, e);
    var (g1, e1) := DischargeVars(g, e);
    var g2 := FreeExp(g1, e1);
    ReserveWithin(g2, 1);
    var g3 := ReserveRegs(g2, 1);
    Exp2RegWithin(g3, e1, b);
    Both(g, g1, g3, Place(e) - Place(e1), 0, 0, 0, 0, b + 1);
    Both(g, g3, Exp2Reg(g3, e1, b).0, Place(e) - Place(e1), 0, b + 1, Place(e1) + 3, Literal(e), 0);
  }

  lemma Exp2AnyRegWithin(b: int, g: Gen, e: Exp)
    requires Fits(b, g, e)
    ensures var (g', e') := Exp2AnyReg(g, e);
            Within(g, g', Place(e) + 3, Literal(e), b + 1) && Fits(b, g', e') && InRegister(e')
  {
    hide DischargeVars, Exp2Reg, Exp2NextReg;
    DischargeVarsWithin(g, e);
    var (g1, e1) := DischargeVars(g, e);
    var d := Place(e) - Place(e1);
    if InRegister(e1) {
    } else if e1.k.VNONRELOC? && e1.info >= g1.nactvar {
      Exp2RegWithin(g1, e1, e1.info);
      Both(g, g1, Exp2Reg(g1, e1, e1.info).0, d, 0, 0, Place(e1) + 3, Literal(e), 0);
    } else {
      Exp2NextRegWithin(b, g1, e1);
      Both(g, g1, Exp2NextReg(g1, e1).0, d, 0, 0, Place(e1) + 3, Literal(e), b + 1);
    }
  }

  /** What Exp2RK leaves alone. */
  predicate Ready(e: Exp) {
    e.ts == [] && e.fs == [] && (e.k.VNONRELOC? || (e.k.VK? && e.info <= MAXINDEXRK))
  }

  lemma ReadyStays(g: Gen, e: Exp)
    requires Ready(e)
    ensures Exp2RK(g, e).0 == g && Exp2RK(g, e).1 == e
  {
  }

  lemma ToOperandWithin(b: int, g: Gen, e: Exp)
    requires Fits(b, g, e) && e.ts == [] && e.fs == []
    ensures var (g', e', x) := ToOperand(g, e);
            Within(g, g', Place(e) + 3, Literal(e), b + 1) && Fits(b, g', e') && Ready(e')
  {
    hide Exp2AnyReg, AddK, ConstantsOk;
    if (e.k.VTRUE? || e.k.VFALSE? || e.k.VKNUM?) && |g.k| <= MAXINDEXRK {
      AddKWithin(g, if e.k.VKNUM? then e.nval else Boolean(e.k.VTRUE?));
    } else if e.k.VK? && e.info <= MAXINDEXRK {
    } else {
      Exp2AnyRegWithin(b, g, e);
    }
  }

  lemma Exp2RKWithin(b: int, g: Gen, e: Exp)
    requires Fits(b, g, e)
    ensures var (g', e', x) := Exp2RK(g, e);
            Within(g, g', Place(e) + 3, Literal(e), b + 1) && Fits(b, g', e') && Ready(e')
  {
    hide DischargeVars, ToOperand, Exp2AnyReg;
    if e.ts == [] && e.fs == [] {
      DischargeVarsWithin(g, e);
      var (g1, e1) := DischargeVars(g, e);
      ToOperandWithin(b, g1, e1);
      Both(g, g1, ToOperand(g1, e1).0, Place(e) - Place(e1), 0, 0, Place(e1) + 3, Literal(e), b + 1);
    } else {
      Exp2AnyRegWithin(b, g, e);
      RegisterStays(Exp2AnyReg(g, e).0, Exp2AnyReg(g, e).1);
    }
  }

  lemma RegisterStays(g: Gen, e: Exp)
    requires InRegister(e)
    ensures ToOperand(g, e).0 == g && ToOperand(g, e).1 == e
  {
  }

  /** The branch leaves no register occupied; e' still has its lists. */
  predicate Branched(b: int, g': Gen, e': Exp, pc: seq<int>) {
    ListsInside(g', e') && Inside(|g'.code|, pc) && g'.freereg == b
  }

  lemma JumpOnCondWithin(b: int, g: Gen, e: Exp, cond: bool)
    requires Fits(b, g, e) && !e.k.VJMP?
    ensures var (g', e', pc) := JumpOnCond(g, e, cond);
            && Within(g, g', Place(e) + 2, Literal(e), b + 1) && Branched(b, g', e', pc)
            && e'.ts == e.ts && e'.fs == e.fs
  {
    hide Discharge2AnyReg, CondJump;
    if e.k.VRELOCABLE? && InstrAt(g.code, e.info).Not? && |g.code| > 0 {
      var g1 := g.(code := g.code[..|g.code|-1]);
      CondJumpWithin(g1, Test(InstrAt(g.code, e.info).b, !cond));
    } else {
      Discharge2AnyRegWithin(b, g, e);
      var (g1, e1) := Discharge2AnyReg(g, e);
      var g2 := FreeExp(g1, e1);
      CondJumpWithin(g2, TestSet(NO_REG, e1.info, cond));
      Both(g, g2, CondJump(g2, TestSet(NO_REG, e1.info, cond)).0, Place(e), Literal(e), b + 1, 2, 0, 0);
    }
  }

  lemma BranchJumpWithin(b: int, g: Gen, e: Exp, cond: bool)
    requires Fits(b, g, e) && !e.k.VLOCAL? && !e.k.VUPVAL?
    ensures var (g', e', pc) := BranchJump(g, e, cond);
            && Within(g, g', Place(e) + 2, Literal(e), b + 1) && Branched(b, g', e', pc)
            && e'.ts == e.ts && e'.fs == e.fs
  {
    hide JumpOnCond, EmitJump, ValueJumps;
    if e.k.VTRUE? || e.k.VFALSE? {
      EmitJumpWithin(g.(mixed := g.mixed + ValueJumps(g.code, g.held, e.k.VTRUE?)));
    } else if !e.k.VJMP? && !(cond && (e.k.VK? || e.k.VKNUM?)) {
      JumpOnCondWithin(b, g, e, !cond);
    }
  }

  lemma CloseWithin(g: Gen, e: Exp, pc: seq<int>, cond: bool)
    requires ListsInside(g, e) && Inside(|g.code|, pc)
    ensures var (g', e') := Close(g, e, pc, cond);
            Within(g, g', 0, 0, 0) && g'.freereg == g.freereg && ListsInside(g', e')
  {
    hide Concat;
    var s, t := if cond then e.fs else e.ts, if cond then e.ts else e.fs;
    ConcatWithin(g, s, pc);
    var g1 := Concat(g, s, pc);
    ConcatWithin(g1, g1.held, t);
    Both(g, g1, Close(g, e, pc, cond).0, 0, 0, 0, 0, 0, 0);
  }

  lemma GoIfWithin(b: int, g: Gen, e: Exp, cond: bool)
    requires Fits(b, g, e)
    ensures var (g', e') := GoIf(g, e, cond);
            Within(g, g', Place(e) + 2, Literal(e), b + 1) && ListsInside(g', e') && g'.freereg == b
  {
    hide DischargeVars, BranchJump, Close;
    DischargeVarsWithin(g, e);
    var (g1, e1) := DischargeVars(g, e);
    BranchJumpWithin(b, g1, e1, cond);
    var (g2, e2, pc) := BranchJump(g1, e1, cond);
    CloseWithin(g2, e2, pc, cond);
    Both(g, g1, g2, Place(e) - Place(e1), 0, 0, Place(e1) + 2, Literal(e), b + 1);
    Both(g, g2, Close(g2, e2, pc, cond).0, Place(e) + 2, Literal(e), b + 1, 0, 0, 0);
  }

  lemma NotValueWithin(b: int, g: Gen, e: Exp)
    requires Fits(b, g, e) && !e.k.VLOCAL? && !e.k.VUPVAL?
    ensures var (g', e') := NotValue(g, e);
            && Fits(b, g', e') && Place(e') <= Place(e) + 1 && Literal(e') <= Literal(e) + 1
            && Within(g, g', Place(e) + 1 - Place(e'), Literal(e) + 1 - Literal(e'), b + 1)
  {
    hide Discharge2AnyReg, Emit;
    if e.k.VRELOCABLE? || e.k.VNONRELOC? {
      Discharge2AnyRegWithin(b, g, e);
      var (g1, e1) := Discharge2AnyReg(g, e);
      var g2 := FreeExp(g1, e1);
      EmitWithin(g2, Not(0, e1.info));
      Both(g, g2, Emit(g2, Not(0, e1.info)), Place(e), Literal(e), b + 1, 1, 0, 0);
    }
  }

  lemma CodeNotWithin(b: int, g: Gen, e: Exp)
    requires Fits(b, g, e)
    ensures var (g', e') := CodeNot(g, e);
            && Fits(b, g', e') && Place(e') <= Place(e) + 1 && Literal(e') <= Literal(e) + 1
            && Within(g, g', Place(e) + 1 - Place(e'), Literal(e) + 1 - Literal(e'), b + 1)
  {
    hide DischargeVars, NotValue;
    DischargeVarsWithin(g, e);
    var (g1, e1) := DischargeVars(g, e);
    NotValueWithin(b, g1, e1);
    var (g2, e2) := NotValue(g1, e1);
    Both(g, g1, CodeNot(g, e).0, Place(e) - Place(e1), 0, 0, Place(e1) + 1 - Place(e2), Literal(e) + 1 - Literal(e2),
         b + 1);
  }

  lemma PosfixWithin(b: int, g: Gen, cond: bool, e1: Exp, e: Exp)
    requires Fits(b, g, e) && Inside(|g.code|, e1.ts) && Inside(|g.code|, e1.fs)
    ensures var (g', e') := Posfix(g, cond, e1, e);
            && Fits(b, g', e') && Place(e') <= Place(e) && Literal(e') == Literal(e)
            && Within(g, g', Place(e) - Place(e'), 0, 0)
  {
    hide DischargeVars, Concat;
    DischargeVarsWithin(g, e);
    var (g1, e2) := DischargeVars(g, e);
    var s, t := if cond then e2.fs else e2.ts, if cond then e1.fs else e1.ts;
    ConcatWithin(g1, s, t);
    Both(g, g1, Concat(g1, s, t), Place(e) - Place(e2), 0, 0, 0, 0, 0);
  }

  lemma CodeCompWithin(b: int, g: Gen, op: CmpOp, cond: bool, e1: Exp, e2: Exp)
    requires Ready(e1) && 0 <= g.nactvar <= b && Fits(b + Temp(g, e1), g, e2)
    ensures var (g', e') := CodeComp(g, op, cond, e1, e2);
            && Fits(b, g', e') && Place(e') == 0 && Literal(e') == 0
            && Within(g, g', Place(e2) + 3 + 2, Literal(e2), b + Temp(g, e1) + 1)
  {
    hide Exp2RK, CondJump;
    ReadyStays(g, e1);
    Exp2RKWithin(b + Temp(g, e1), g, e2);
    var (g2, e2', o2) := Exp2RK(g, e2);
    var o1 := Exp2RK(g, e1).2;
    var g3 := FreeExp(FreeExp(g2, e2'), e1);
    var swap := !cond && op != OpEq;
    var i := Compare(op, cond || swap, if swap then o2 else o1, if swap then o1 else o2);
    CondJumpWithin(g3, i);
    CondJumpHead(g3, i);
    Both(g, g3, CondJump(g3, i).0, Place(e2) + 3, Literal(e2), b + Temp(g, e1) + 1, 2, 0, 0);
  }

  lemma CondJumpHead(g: Gen, i: Instr)
    ensures CondJump(g, i).1 == [|g.code| + 1]
  {
  }

  // ----- whole expressions -----

  /** What is used for E, apart from what its result still needs. */
  ghost predicate Used(E: Expr, g0: Gen, g: Gen, e: Exp) {
    && Fits(g0.freereg, g, e) && Place(e) <= Instructions(E) && Literal(e) <= Constants(E)
    && Within(g0, g, Instructions(E) - Place(e), Constants(E) - Literal(e), g0.freereg + Registers(E))
  }

  predicate Start(g: Gen) {
    Inside(|g.code|, g.held) && 0 <= g.nactvar <= g.freereg
  }

  lemma Grows(g: Gen, g': Gen, i: int, c: int, r: int)
    requires Within(g, g', i, c, r)
    ensures |g.code| <= |g'.code| && |g.k| <= |g'.k| && g.maxstack <= g'.maxstack && g'.nactvar == g.nactvar
  {
  }

  lemma JoinUsed(cond: bool, l: Expr, r: Expr, g0: Gen, g1: Gen, e1: Exp, g3: Gen, e3: Exp)
    requires Used(l, g0, g1, e1)
    requires Used(r, GoIf(g1, e1, cond).0, g3, e3)
    ensures var (g2, e2) := GoIf(g1, e1, cond); var (g4, e4) := Posfix(g3, cond, e2, e3);
            Used(if cond then And(l, r) else Or(l, r), g0, g4, e4)
  {
    hide GoIf, Posfix, Within, ConstantsOk;
    var b := g0.freereg;
    GoIfWithin(b, g1, e1, cond);
    var (g2, e2) := GoIf(g1, e1, cond);
    Grows(g2, g3, Instructions(r) - Place(e3), Constants(r) - Literal(e3), b + Registers(r));
    PosfixWithin(b, g3, cond, e2, e3);
    var (g4, e4) := Posfix(g3, cond, e2, e3);
    Both(g0, g1, g2, Instructions(l) - Place(e1), Constants(l) - Literal(e1), b + Registers(l),
         Place(e1) + 2, Literal(e1), b + 1);
    Both(g0, g2, g3, Instructions(l) + 2, Constants(l), b + Registers(l),
         Instructions(r) - Place(e3), Constants(r) - Literal(e3), b + Registers(r));
    Both(g0, g3, g4, Instructions(l) + 2 + Instructions(r) - Place(e3), Constants(l) + Constants(r) - Literal(e3),
         b + Max(Registers(l), Registers(r)), Place(e3) - Place(e4), 0, 0);
  }

  lemma RelUsed(op: RelOp, l: Expr, r: Expr, g0: Gen, g1: Gen, e1: Exp, g3: Gen, e3: Exp)
    requires Used(l, g0, g1, e1) && Used(r, Exp2RK(g1, e1).0, g3, e3)
    ensures var (g2, e2, _) := Exp2RK(g1, e1); var (g4, e4) := CodeComp(g3, CompOf(op).0, CompOf(op).1, e2, e3);
            Used(Rel(op, l, r), g0, g4, e4)
  {
    hide Exp2RK, CodeComp, CompOf, Within, ConstantsOk;
    var b := g0.freereg;
    Exp2RKWithin(b, g1, e1);
    var (g2, e2, _) := Exp2RK(g1, e1);
    Grows(g2, g3, Instructions(r) - Place(e3), Constants(r) - Literal(e3), g2.freereg + Registers(r));
    CodeCompWithin(b, g3, CompOf(op).0, CompOf(op).1, e2, e3);
    var g4 := CodeComp(g3, CompOf(op).0, CompOf(op).1, e2, e3).0;
    var b' := g2.freereg;
    Both(g0, g1, g2, Instructions(l) - Place(e1), Constants(l) - Literal(e1), b + Registers(l),
         Place(e1) + 3, Literal(e1), b + 1);
    Both(g0, g2, g3, Instructions(l) + 3, Constants(l), b + Registers(l),
         Instructions(r) - Place(e3), Constants(r) - Literal(e3), b' + Registers(r));
    Both(g0, g3, g4, Instructions(l) + 3 + Instructions(r) - Place(e3), Constants(l) + Constants(r) - Literal(e3),
         Max(b + Registers(l), b' + Registers(r)), Place(e3) + 3 + 2, Literal(e3), b' + 1);
    More(g0, g4, Instructions(l) + 3 + Instructions(r) + 3 + 2, Constants(l) + Constants(r),
         Max(b + Registers(l), b' + Registers(r)),
         Instructions(Rel(op, l, r)), Constants(Rel(op, l, r)), b + Registers(Rel(op, l, r)));
  }

  lemma BranchStarts(l: Expr, g0: Gen, g1: Gen, e1: Exp, cond: bool)
    requires Used(l, g0, g1, e1)
    ensures var g2 := GoIf(g1, e1, cond).0; Start(g2) && ConstantsOk(g2.k, g2.h) && g2.nactvar == g0.nactvar
  {
    hide GoIf;
    GoIfWithin(g0.freereg, g1, e1, cond);
  }

  lemma OperandStarts(l: Expr, g0: Gen, g1: Gen, e1: Exp)
    requires Used(l, g0, g1, e1)
    ensures var g2 := Exp2RK(g1, e1).0; Start(g2) && ConstantsOk(g2.k, g2.h) && g2.nactvar == g0.nactvar
  {
    hide Exp2RK;
    Exp2RKWithin(g0.freereg, g1, e1);
  }

  lemma LeafUsed(E: Expr, g: Gen)
    requires Start(g) && ConstantsOk(g.k, g.h) && Scoped(E, g.nactvar)
    requires E.Local? || E.Upval? || E.True? || E.False? || E.Numeral? || E.Str?
    ensures Used(E, g, Compile(g, E).0, Compile(g, E).1)
  {
    hide AddK, ConstantsOk;
    if E.Str? { AddKWithin(g, Text(E.s)); }
  }

  lemma ParenUsed(E: Expr, g0: Gen, g: Gen, e: Exp)
    requires Used(E, g0, g, e)
    ensures Used(Paren(E), g0, DischargeVars(g, e).0, DischargeVars(g, e).1)
  {
    hide DischargeVars, Within, ConstantsOk;
    var b := g0.freereg;
    DischargeVarsWithin(g, e);
    var (g2, e2) := DischargeVars(g, e);
    Grows(g, g2, Place(e) - Place(e2), 0, 0);
    Both(g0, g, g2, Instructions(E) - Place(e), Constants(E) - Literal(e), b + Registers(E),
         Place(e) - Place(e2), 0, 0);
  }

  lemma NegateUsed(E: Expr, g0: Gen, g: Gen, e: Exp)
    requires Used(E, g0, g, e)
    ensures Used(Negate(E), g0, CodeNot(g, e).0, CodeNot(g, e).1)
  {
    hide CodeNot, Within, ConstantsOk;
    var b := g0.freereg;
    CodeNotWithin(b, g, e);
    var (g2, e2) := CodeNot(g, e);
    Both(g0, g, g2, Instructions(E) - Place(e), Constants(E) - Literal(e), b + Registers(E),
         Place(e) + 1 - Place(e2), Literal(e) + 1 - Literal(e2), b + 1);
  }

  /** Compiling E uses no more than E needs. */
  lemma {:induction false} CompileWithin(E: Expr, g: Gen)
    requires Start(g) && ConstantsOk(g.k, g.h) && Scoped(E, g.nactvar)
    ensures Used(E, g, Compile(g, E).0, Compile(g, E).1)
    decreases E
  {
    hide GoIf, Exp2RK, CodeComp, CodeNot, Posfix, DischargeVars, ConstantsOk, Used, Start;
    match E {
      case Paren(e) =>
        CompileWithin(e, g);
        ParenUsed(e, g, Compile(g, e).0, Compile(g, e).1);
      case Negate(e) =>
        CompileWithin(e, g);
        NegateUsed(e, g, Compile(g, e).0, Compile(g, e).1);
      case And(l, r) =>
        CompileWithin(l, g);
        var (g1, e1) := Compile(g, l);
        BranchStarts(l, g, g1, e1, true);
        var g2 := GoIf(g1, e1, true).0;
        CompileWithin(r, g2);
        JoinUsed(true, l, r, g, g1, e1, Compile(g2, r).0, Compile(g2, r).1);
      case Or(l, r) =>
        CompileWithin(l, g);
        var (g1, e1) := Compile(g, l);
        BranchStarts(l, g, g1, e1, false);
        var g2 := GoIf(g1, e1, false).0;
        CompileWithin(r, g2);
        JoinUsed(false, l, r, g, g1, e1, Compile(g2, r).0, Compile(g2, r).1);
      case Rel(op, l, r) =>
        CompileWithin(l, g);
        var (g1, e1) := Compile(g, l);
        OperandStarts(l, g, g1, e1);
        var g2 := Exp2RK(g1, e1).0;
        CompileWithin(r, g2);
        RelUsed(op, l, r, g, g1, e1, Compile(g2, r).0, Compile(g2, r).1);
      case _ => LeafUsed(E, g);
    }
  }

  lemma WfStarts(g: Gen)
    requires Wf(g)
    ensures Start(g) && ConstantsOk(g.k, g.h)
  {
    forall j | j in g.held ensures 0 <= j < |g.code| { InRange(g.code, g.held, j); }
  }

  /** The code of `return E` fits if there is room for what E needs. */
  lemma ReturnFits(E: Expr, g: Gen)
    requires Start(g) && ConstantsOk(g.k, g.h) && Scoped(E, g.nactvar)
    ensures Within(g, CompileReturn(g, E), Instructions(E) + 4, Constants(E), g.freereg + Registers(E))
  {
    hide Compile, Exp2AnyReg, Emit, ConstantsOk, Within;
    CompileWithin(E, g);
    var b := g.freereg;
    var (g1, e1) := Compile(g, E);
    Exp2AnyRegWithin(b, g1, e1);
    var (g2, e2) := Exp2AnyReg(g1, e1);
    EmitWithin(g2, Return(e2.info, 2));
    var g3 := CompileReturn(g, E);
    Both(g, g1, g2, Instructions(E) - Place(e1), Constants(E) - Literal(e1), b + Registers(E),
         Place(e1) + 3, Literal(e1), b + 1);
    Both(g, g2, g3, Instructions(E) + 3, Constants(E), b + Registers(E), 1, 0, 0);
    More(g, g3, Instructions(E) + 4, Constants(E), Max(b + Registers(E), 0), Instructions(E) + 4, Constants(E),
         b + Registers(E));
  }

  /** Behind what is there already, the registers, instructions and constants for a statement with E are within the
      limits: up to three instructions close its jumps, and one may return the value. */
  predicate HasRoom(E: Expr, g: Gen) {
    && !g.err && g.freereg + Registers(E) < MAXSTACK
    && |g.code| + Instructions(E) + 4 < MAXARG_sBx && |g.k| + Constants(E) <= MAXARG_Bx
  }

  lemma ReturnSucceeds(E: Expr, g: Gen)
    requires Wf(g) && Scoped(E, g.nactvar) && HasRoom(E, g)
    ensures !CompileReturn(g, E).err
  {
    hide CompileReturn, Wf;
    WfStarts(g);
    ReturnFits(E, g);
  }

  /** A function `return E` of n parameters is compiled without an error if its registers, its instructions and its
      constants are within the limits. */
  lemma ReturnCompiles(E: Expr, n: nat)
    requires Scoped(E, n) && n + Registers(E) < MAXSTACK
    requires Instructions(E) + 4 < MAXARG_sBx && Constants(E) <= MAXARG_Bx
    ensures !CompileReturn(NewFunction(n), E).err
  {
    hide CompileReturn;
    ReturnFits(E, NewFunction(n));
  }

  /** An assignment, in any function with room for it. */
  lemma AssignFits(E: Expr, g: Gen, reg: int)
    requires Start(g) && ConstantsOk(g.k, g.h) && Scoped(E, g.nactvar)
    ensures Within(g, CompileAssign(g, reg, E), Instructions(E) + 3, Constants(E), g.freereg + Registers(E))
  {
    hide Compile, Exp2Reg, ConstantsOk, Within;
    CompileWithin(E, g);
    var b := g.freereg;
    var (g1, e1) := Compile(g, E);
    var g2 := FreeExp(g1, e1);
    FreeWithin(g1, e1);
    Exp2RegWithin(g2, e1, reg);
    var g3 := CompileAssign(g, reg, E);
    Both(g, g1, g2, Instructions(E) - Place(e1), Constants(E) - Literal(e1), b + Registers(E), 0, 0, 0);
    Both(g, g2, g3, Instructions(E) - Place(e1), Constants(E) - Literal(e1), b + Registers(E),
         Place(e1) + 3, Literal(e1), 0);
  }

  lemma FreeWithin(g: Gen, e: Exp)
    requires Shape(g, e)
    ensures Within(g, FreeExp(g, e), 0, 0, 0) && Shape(FreeExp(g, e), e)
  {
  }

  lemma AssignSucceeds(E: Expr, g: Gen, reg: int)
    requires Wf(g) && Scoped(E, g.nactvar) && HasRoom(E, g)
    ensures !CompileAssign(g, reg, E).err
  {
    hide CompileAssign, Wf;
    WfStarts(g);
    AssignFits(E, g, reg);
  }

  /** The headline: an expression within the limits, with no literal that may be mixed with pending values, compiles,
      and its code returns its value. */
  lemma ReturnWorks(E: Expr, n: nat, env: Env, R: Regs)
    requires Scoped(E, n) && NoLiteralJumps(E) && n + Registers(E) < MAXSTACK
    requires Instructions(E) + 4 < MAXARG_sBx && Constants(E) <= MAXARG_Bx
    requires CompileReturn(NewFunction(n), E).k <= env.k
    ensures Execute(env, CompileReturn(NewFunction(n), E).code, R) == Ret(Eval(E, env, R))
  {
    hide CompileReturn, Execute, Eval;
    ReturnCompiles(E, n);
    PlainReturnCorrect(E, n, env, R);
  }

  /** The same for an assignment to a local variable. */
  lemma AssignWorks(E: Expr, g: Gen, reg: int, env: Env, R: Regs)
    requires Wf(g) && Scoped(E, g.nactvar) && 0 <= reg < g.nactvar && NoLiteralJumps(E) && g.mixed == {}
    requires HasRoom(E, g)
    requires CompileAssign(g, reg, E).k <= env.k
    ensures var o := Run(env.(watch := {}), Settled(CompileAssign(g, reg, E)), {}, |g.code|, R);
            && o.End? && Get(o.regs, reg) == Eval(E, env, R)
            && forall r :: r < g.freereg && r != reg ==> Get(o.regs, r) == Get(R, r)
  {
    hide CompileAssign, Wf, Run, Eval, Settled;
    AssignSucceeds(E, g, reg);
    PlainAssignRuns(E, g, reg, env, R);
  }
}
