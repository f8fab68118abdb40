/** The bytecode checker (precheck, checkArgMode, symbexec in full-check mode, luaG_checkcode: ldebug.c): whatever it
    accepts, the interpreter (lvm.c) never leaves the code of, and never enters in the middle of an instruction. */
module Checker {
  import opened Limits

  const EXTRA_STACK: nat := 5

  datatype OpCode =
    | OP_MOVE | OP_LOADK | OP_LOADBOOL | OP_LOADNIL | OP_GETUPVAL | OP_GETGLOBAL | OP_GETTABLE | OP_SETGLOBAL
    | OP_SETUPVAL | OP_SETTABLE | OP_NEWTABLE | OP_SELF | OP_ADD | OP_SUB | OP_MUL | OP_DIV | OP_MOD | OP_POW
    | OP_UNM | OP_NOT | OP_LEN | OP_CONCAT | OP_JMP | OP_EQ | OP_LT | OP_LE | OP_TEST | OP_TESTSET | OP_CALL
    | OP_TAILCALL | OP_RETURN | OP_FORLOOP | OP_FORPREP | OP_TFORLOOP | OP_SETLIST | OP_CLOSE | OP_CLOSURE | OP_VARARG
    | Undefined  // any other value of the field

  /** A word of the code array; B and C have 9 bits, and are one operand of 18 bits for some instructions. */
  datatype Word = Word(op: OpCode, A: int, B: int, C: int) {
    predicate InRange() {
      0 <= A < 256 && 0 <= B < 512 && 0 <= C < 512
    }

    function Bx(): int {
      512 * B + C
    }

    function sBx(): int {
      Bx() - MAXARG_sBx
    }
  }

  type Instruction = w: Word | w.InRange() witness Word(OP_MOVE, 0, 0, 0)

  datatype ArgMask = OpArgN | OpArgU | OpArgR | OpArgK
  datatype OpMode = iABC | iABx | iAsBx

  /** Only the sizes of the parts of a prototype matter here, and which constants are strings. */
  datatype Proto = Proto(code: seq<Instruction>, kIsString: seq<bool>, nested: seq<nat>, nups: nat, sizeupvalues: nat,
                         sizelineinfo: nat, numparams: nat, hasArg: bool, isVararg: bool, needsArg: bool,
                         maxstacksize: nat)

  // ----- the table luaP_opmodes -----

  function GetOpMode(op: OpCode): OpMode {
    match op
    case OP_LOADK => iABx
    case OP_GETGLOBAL => iABx
    case OP_SETGLOBAL => iABx
    case OP_CLOSURE => iABx
    case OP_JMP => iAsBx
    case OP_FORLOOP => iAsBx
    case OP_FORPREP => iAsBx
    case _ => iABC
  }

  predicate IsArith(op: OpCode) {
    op == OP_ADD || op == OP_SUB || op == OP_MUL || op == OP_DIV || op == OP_MOD || op == OP_POW
  }

  predicate IsComparison(op: OpCode) {
    op == OP_EQ || op == OP_LT || op == OP_LE
  }

  function GetBMode(op: OpCode): ArgMask {
    if IsArith(op) || IsComparison(op) then OpArgK
    else
      match op
      case OP_LOADK => OpArgK
      case OP_GETGLOBAL => OpArgK
      case OP_SETGLOBAL => OpArgK
      case OP_SETTABLE => OpArgK
      case OP_LOADBOOL => OpArgU
      case OP_GETUPVAL => OpArgU
      case OP_SETUPVAL => OpArgU
      case OP_NEWTABLE => OpArgU
      case OP_CALL => OpArgU
      case OP_TAILCALL => OpArgU
      case OP_RETURN => OpArgU
      case OP_SETLIST => OpArgU
      case OP_CLOSURE => OpArgU
      case OP_VARARG => OpArgU
      case OP_TFORLOOP => OpArgN
      case OP_CLOSE => OpArgN
      case _ => OpArgR
  }

  function GetCMode(op: OpCode): ArgMask {
    if IsArith(op) || IsComparison(op) then OpArgK
    else
      match op
      case OP_GETTABLE => OpArgK
      case OP_SETTABLE => OpArgK
      case OP_SELF => OpArgK
      case OP_LOADBOOL => OpArgU
      case OP_NEWTABLE => OpArgU
      case OP_TEST => OpArgU
      case OP_TESTSET => OpArgU
      case OP_CALL => OpArgU
      case OP_TAILCALL => OpArgU
      case OP_TFORLOOP => OpArgU
      case OP_SETLIST => OpArgU
      case OP_CONCAT => OpArgR
      case _ => OpArgN
  }

  /** testTMode: the instruction is a test, and the next one must be a jump. */
  predicate TestTMode(op: OpCode) {
    IsComparison(op) || op == OP_TEST || op == OP_TESTSET || op == OP_TFORLOOP
  }

  // ----- what the interpreter does -----

  /** A SETLIST whose count is in the next word. */
  predicate Extended(i: Instruction) {
    i.op == OP_SETLIST && i.C == 0
  }

  /** Is there an instruction at p, and not the count of a SETLIST? */
  predicate IsStart(code: seq<Instruction>, p: nat)
    requires p <= |code|
  {
    p == 0 || !(IsStart(code, p - 1) && Extended(code[p-1]))
  }

  /** Where the interpreter can go on after the instruction at pc, in the same function. */
  function Successors(pt: Proto, pc: nat): set<int>
    requires pc < |pt.code|
  {
    var i := pt.code[pc];
    if TestTMode(i.op) then
      if pc + 1 < |pt.code| then {pc + 2, pc + 2 + pt.code[pc+1].sBx()} else {pc + 2}
    else if i.op == OP_LOADBOOL then {if i.C != 0 then pc + 2 else pc + 1}
    else if i.op == OP_JMP || i.op == OP_FORPREP then {pc + 1 + i.sBx()}
    else if i.op == OP_FORLOOP then {pc + 1, pc + 1 + i.sBx()}
    else if i.op == OP_RETURN then {}
    else if i.op == OP_SETLIST then {if i.C == 0 then pc + 2 else pc + 1}
    else if i.op == OP_CLOSURE then {pc + 1 + if i.Bx() < |pt.nested| then pt.nested[i.Bx()] else 0}
    else {pc + 1}
  }

  /** Control stays within the code, at starts of instructions. */
  ghost predicate ClosedAt(pt: Proto, pc: nat)
    requires pc < |pt.code|
  {
    forall q :: q in Successors(pt, pc) ==> 0 <= q < |pt.code| && IsStart(pt.code, q)
  }

  ghost predicate ControlIsClosed(pt: Proto) {
    && 0 < |pt.code|
    && forall pc {:trigger ClosedAt(pt, pc)} :: 0 <= pc < |pt.code| && IsStart(pt.code, pc) ==> ClosedAt(pt, pc)
  }

  /** A run of the interpreter in one activation of the function. */
  ghost predicate IsRun(pt: Proto, run: seq<int>) {
    && run != [] && run[0] == 0
    && forall n {:trigger run[n]} :: 0 < n < |run| ==>
         0 <= run[n-1] < |pt.code| && run[n] in Successors(pt, run[n-1])
  }

  /** With closed control every run stays at instructions of the function. */
  lemma {:induction false} RunsStayInside(pt: Proto, run: seq<int>, n: nat)
    requires ControlIsClosed(pt) && IsRun(pt, run) && n < |run|
    ensures 0 <= run[n] < |pt.code| && IsStart(pt.code, run[n])
  {
    if n > 0 {
      RunsStayInside(pt, run, n - 1);
      assert ClosedAt(pt, run[n-1]);
      assert run[n] in Successors(pt, run[n-1]);
    }
  }

  // ----- what the checker asks of an instruction -----

  predicate CheckReg(pt: Proto, reg: int) {
    reg < pt.maxstacksize
  }

  predicate CheckArgMode(pt: Proto, r: int, mode: ArgMask) {
    match mode
    case OpArgN => r == 0
    case OpArgU => true
    case OpArgR => CheckReg(pt, r)
    case OpArgK => if r >= 256 then r - 256 < |pt.kIsString| else CheckReg(pt, r)
  }

  predicate Precheck(pt: Proto) {
    && pt.maxstacksize <= MAXSTACK
    && pt.numparams + (if pt.hasArg then 1 else 0) <= pt.maxstacksize
    && (pt.needsArg ==> pt.hasArg)
    && pt.sizeupvalues <= pt.nups
    && (pt.sizelineinfo == |pt.code| || pt.sizelineinfo == 0)
    && |pt.code| > 0 && pt.code[|pt.code|-1].op == OP_RETURN
  }

  /** How many words before dest look like an extended SETLIST. */
  function SetlistRun(code: seq<Instruction>, dest: nat): (n: nat)
    requires dest <= |code|
    ensures n <= dest
  {
    if dest > 0 && Extended(code[dest-1]) then 1 + SetlistRun(code, dest - 1) else 0
  }

  predicate CheckDest(pt: Proto, dest: int) {
    0 <= dest < |pt.code| && SetlistRun(pt.code, dest) % 2 == 0
  }

  /** The operands, by the mode of the instruction. */
  predicate OperandsOk(pt: Proto, pc: nat)
    requires pc < |pt.code|
  {
    var i := pt.code[pc];
    && i.op != Undefined && CheckReg(pt, i.A)
    && match GetOpMode(i.op)
       case iABC => CheckArgMode(pt, i.B, GetBMode(i.op)) && CheckArgMode(pt, i.C, GetCMode(i.op))
       case iABx => GetBMode(i.op) == OpArgK ==> i.Bx() < |pt.kIsString|
       case iAsBx => CheckDest(pt, pc + 1 + i.sBx())
  }

  predicate TestOk(pt: Proto, pc: nat)
    requires pc < |pt.code|
  {
    TestTMode(pt.code[pc].op) ==> pc + 2 < |pt.code| && pt.code[pc+1].op == OP_JMP
  }

  /** luaG_checkopenop */
  predicate CheckOpenOp(i: Instruction) {
    i.op in {OP_CALL, OP_TAILCALL, OP_RETURN, OP_SETLIST} && i.B == 0
  }

  predicate PseudosOk(pt: Proto, pc: nat, nup: nat)
    requires pc + nup < |pt.code|
  {
    forall k :: pc < k <= pc + nup ==> pt.code[k].op == OP_GETUPVAL || pt.code[k].op == OP_MOVE
  }

  /** The checks for single instructions, but for calls. */
  predicate OwnChecks(pt: Proto, pc: nat)
    requires pc < |pt.code|
  {
    var i := pt.code[pc];
    match i.op
    case OP_LOADBOOL => i.C == 1 ==> pc + 2 < |pt.code| && !Extended(pt.code[pc+1])
    case OP_GETUPVAL => i.B < pt.nups
    case OP_SETUPVAL => i.B < pt.nups
    case OP_GETGLOBAL => i.Bx() < |pt.kIsString| && pt.kIsString[i.Bx()]
    case OP_SETGLOBAL => i.Bx() < |pt.kIsString| && pt.kIsString[i.Bx()]
    case OP_SELF => CheckReg(pt, i.A + 1)
    case OP_CONCAT => i.B < i.C
    case OP_TFORLOOP => i.C >= 1 && CheckReg(pt, i.A + 2 + i.C)
    case OP_FORLOOP => CheckReg(pt, i.A + 3)
    case OP_FORPREP => CheckReg(pt, i.A + 3)
    case OP_RETURN => i.B - 1 > 0 ==> CheckReg(pt, i.A + i.B - 2)
    case OP_SETLIST => (i.B > 0 ==> CheckReg(pt, i.A + i.B)) && (i.C == 0 ==> pc + 1 < |pt.code| - 1)
    case OP_CLOSURE =>
      && i.Bx() < |pt.nested|
      && pc + pt.nested[i.Bx()] < |pt.code| && PseudosOk(pt, pc, pt.nested[i.Bx()])
    case OP_VARARG =>
      && pt.isVararg && !pt.needsArg
      && (i.B == 0 ==> pc + 1 < |pt.code| && CheckOpenOp(pt.code[pc+1])) && CheckReg(pt, i.A + i.B - 2)
    case _ => CallOk(pt, pc)
  }

  predicate CallOk(pt: Proto, pc: nat)
    requires pc < |pt.code|
  {
    var i := pt.code[pc];
    i.op == OP_CALL || i.op == OP_TAILCALL ==>
      && (i.B != 0 ==> CheckReg(pt, i.A + i.B - 1))
      && (i.C == 0 ==> pc + 1 < |pt.code| && CheckOpenOp(pt.code[pc+1]))
      && (i.C > 1 ==> CheckReg(pt, i.A + i.C - 2))
  }

  predicate InstructionOk(pt: Proto, pc: nat)
    requires pc < |pt.code|
  {
    OperandsOk(pt, pc) && TestOk(pt, pc) && OwnChecks(pt, pc)
  }

  ghost predicate Accepts(pt: Proto) {
    && Precheck(pt)
    && forall pc {:trigger InstructionOk(pt, pc)} ::
         0 <= pc < |pt.code| && IsStart(pt.code, pc) ==> InstructionOk(pt, pc)
  }

  // ----- accepted code -----

  /** The parity of the run of words before a position tells whether an instruction starts there. */
  lemma {:induction false} EvenRun(code: seq<Instruction>, dest: nat)
    requires dest <= |code|
    ensures IsStart(code, dest) <==> SetlistRun(code, dest) % 2 == 0
  {
    if dest > 0 { EvenRun(code, dest - 1); }
  }

  lemma OneWord(pt: Proto, pc: nat)
    requires Accepts(pt) && pc < |pt.code| && IsStart(pt.code, pc) && !Extended(pt.code[pc])
    requires pt.code[pc].op != OP_RETURN
    ensures pc + 1 < |pt.code| && IsStart(pt.code, pc + 1)
  {
  }

  lemma Checked(pt: Proto, pc: nat)
    requires Accepts(pt) && pc < |pt.code| && IsStart(pt.code, pc)
    ensures OperandsOk(pt, pc) && TestOk(pt, pc) && OwnChecks(pt, pc)
  {
    assert InstructionOk(pt, pc);
  }

  /** The instructions that say what a closure captures are instructions of one word. */
  lemma {:induction false} Captures(pt: Proto, pc: nat, j: nat)
    requires Accepts(pt) && pc < |pt.code| && IsStart(pt.code, pc) && pt.code[pc].op == OP_CLOSURE
    requires pt.code[pc].Bx() < |pt.nested| && j <= pt.nested[pt.code[pc].Bx()]
    ensures pc + 1 + j < |pt.code| && IsStart(pt.code, pc + 1 + j)
  {
    hide Accepts, IsStart, OperandsOk, TestOk;
    if j == 0 {
      OneWord(pt, pc);
    } else {
      Captures(pt, pc, j - 1);
      Checked(pt, pc);
      OneWord(pt, pc + j);
    }
  }

  /** A LOADBOOL that skips must not skip into, or past, something else; the checker looks only at those with C == 1. */
  predicate SkipOk(pt: Proto, pc: nat)
    requires pc < |pt.code|
  {
    pt.code[pc].op == OP_LOADBOOL && pt.code[pc].C > 1 ==> pc + 2 < |pt.code| && !Extended(pt.code[pc+1])
  }

  lemma AcceptedStep(pt: Proto, pc: nat)
    requires Accepts(pt) && pc < |pt.code| && IsStart(pt.code, pc)
    ensures ClosedAt(pt, pc) <==> SkipOk(pt, pc)
  {
    hide Accepts, IsStart, OperandsOk, TestOk, OwnChecks, Successors, TestTMode, GetOpMode;
    var i := pt.code[pc];
    KindsOfSuccessors(pt, pc);
    KindsOfInstructions(i);
    if TestTMode(i.op) {
      TestStep(pt, pc);
    } else if i.op == OP_LOADBOOL {
      LoadBoolStep(pt, pc);
    } else if GetOpMode(i.op) == iAsBx {
      OneWord(pt, pc);
      JumpTarget(pt, pc);
    } else if i.op == OP_SETLIST {
      SetlistNext(pt, pc);
    } else if i.op == OP_CLOSURE {
      ClosureOk(pt, pc);
      Captures(pt, pc, pt.nested[i.Bx()]);
    } else if i.op != OP_RETURN {
      OneWord(pt, pc);
    }
  }

  /** The successors, case by case. */
  lemma KindsOfSuccessors(pt: Proto, pc: nat)
    requires pc < |pt.code|
    ensures var i, s := pt.code[pc], Successors(pt, pc);
            if TestTMode(i.op) then pc + 1 < |pt.code| ==> s == {pc + 2, pc + 2 + pt.code[pc+1].sBx()}
            else if i.op == OP_LOADBOOL then true
            else if GetOpMode(i.op) == iAsBx then s <= {pc + 1, pc + 1 + i.sBx()}
            else if i.op == OP_SETLIST then s == {if i.C == 0 then pc + 2 else pc + 1}
            else if i.op == OP_CLOSURE then i.Bx() < |pt.nested| ==> s == {pc + 1 + pt.nested[i.Bx()]}
            else if i.op == OP_RETURN then s == {}
            else s == {pc + 1}
  {
    KindsOfInstructions(pt.code[pc]);
    hide TestTMode, GetOpMode;
  }

  lemma KindsOfInstructions(i: Instruction)
    ensures TestTMode(i.op) ==> GetOpMode(i.op) == iABC && i.op !in {OP_RETURN, OP_LOADBOOL, OP_SETLIST}
    ensures GetOpMode(i.op) == iAsBx <==> i.op == OP_JMP || i.op == OP_FORLOOP || i.op == OP_FORPREP
  {
  }

  lemma JumpTarget(pt: Proto, pc: nat)
    requires Accepts(pt) && pc < |pt.code| && IsStart(pt.code, pc) && GetOpMode(pt.code[pc].op) == iAsBx
    ensures var q := pc + 1 + pt.code[pc].sBx(); 0 <= q < |pt.code| && IsStart(pt.code, q)
  {
    hide Accepts, IsStart, TestOk, OwnChecks, SetlistRun;
    Checked(pt, pc);
    EvenRun(pt.code, pc + 1 + pt.code[pc].sBx());
  }

  lemma TestFacts(pt: Proto, pc: nat)
    requires pc < |pt.code| && TestTMode(pt.code[pc].op) && TestOk(pt, pc)
    ensures pc + 2 < |pt.code| && !Extended(pt.code[pc]) && pt.code[pc].op != OP_RETURN
    ensures !Extended(pt.code[pc+1]) && pt.code[pc+1].op != OP_RETURN && GetOpMode(pt.code[pc+1].op) == iAsBx
  {
  }

  lemma TestSuccessors(pt: Proto, pc: nat)
    requires pc + 1 < |pt.code| && TestTMode(pt.code[pc].op)
    ensures Successors(pt, pc) == {pc + 2, pc + 2 + pt.code[pc+1].sBx()}
  {
    hide TestTMode;
  }

  lemma TestStep(pt: Proto, pc: nat)
    requires Accepts(pt) && pc < |pt.code| && IsStart(pt.code, pc) && TestTMode(pt.code[pc].op)
    ensures ClosedAt(pt, pc)
  {
    hide Accepts, IsStart, OperandsOk, TestOk, OwnChecks, Successors, TestTMode, GetOpMode, Extended, ClosedAt;
    Checked(pt, pc);
    TestFacts(pt, pc);
    TestSuccessors(pt, pc);
    OneWord(pt, pc);
    OneWord(pt, pc + 1);
    JumpTarget(pt, pc + 1);
    ClosedPair(pt, pc, pc + 2, pc + 2 + pt.code[pc+1].sBx());
  }

  lemma ClosedPair(pt: Proto, pc: nat, q: int, r: int)
    requires pc < |pt.code| && Successors(pt, pc) == {q, r}
    requires 0 <= q < |pt.code| && IsStart(pt.code, q) && 0 <= r < |pt.code| && IsStart(pt.code, r)
    ensures ClosedAt(pt, pc)
  {
    hide Successors, IsStart;
  }

  lemma LoadBoolStep(pt: Proto, pc: nat)
    requires Accepts(pt) && pc < |pt.code| && IsStart(pt.code, pc) && pt.code[pc].op == OP_LOADBOOL
    ensures ClosedAt(pt, pc) <==> SkipOk(pt, pc)
  {
    hide Accepts, IsStart, OperandsOk, TestOk;
    Checked(pt, pc);
    OneWord(pt, pc);
    SkipStart(pt, pc);
    assert pt.code[pc].C != 0 ==> pc + 2 in Successors(pt, pc);
  }

  lemma ClosureOk(pt: Proto, pc: nat)
    requires Accepts(pt) && pc < |pt.code| && IsStart(pt.code, pc) && pt.code[pc].op == OP_CLOSURE
    ensures pt.code[pc].Bx() < |pt.nested|
  {
    hide Accepts, IsStart, OperandsOk, TestOk;
    Checked(pt, pc);
  }

  lemma SkipStart(pt: Proto, pc: nat)
    requires pc + 1 < |pt.code| && IsStart(pt.code, pc + 1)
    ensures pc + 2 < |pt.code| ==> (IsStart(pt.code, pc + 2) <==> !Extended(pt.code[pc+1]))
  {
  }

  lemma SetlistNext(pt: Proto, pc: nat)
    requires Accepts(pt) && pc < |pt.code| && IsStart(pt.code, pc) && pt.code[pc].op == OP_SETLIST
    ensures var q := if pt.code[pc].C == 0 then pc + 2 else pc + 1; q < |pt.code| && IsStart(pt.code, q)
  {
    hide Accepts, IsStart, OperandsOk, TestOk;
    Checked(pt, pc);
    if pt.code[pc].C == 0 { AfterCount(pt.code, pc); } else { OneWord(pt, pc); }
  }

  lemma AfterCount(code: seq<Instruction>, pc: nat)
    requires pc + 2 <= |code| && IsStart(code, pc) && Extended(code[pc])
    ensures IsStart(code, pc + 2)
  {
    assert !IsStart(code, pc + 1);
  }

  /** Accepted code is closed exactly if its LOADBOOL instructions with other values of C than 0 and 1 would pass the
      check for C == 1 too. */
  lemma AcceptedIsClosed(pt: Proto)
    requires Accepts(pt)
    ensures ControlIsClosed(pt) <==> forall pc :: 0 <= pc < |pt.code| && IsStart(pt.code, pc) ==> SkipOk(pt, pc)
  {
    forall pc | 0 <= pc < |pt.code| && IsStart(pt.code, pc) ensures ClosedAt(pt, pc) <==> SkipOk(pt, pc) {
      AcceptedStep(pt, pc);
    }
  }

  /** The compiler writes only 0 and 1. */
  lemma CompiledIsClosed(pt: Proto)
    requires Accepts(pt) && forall pc :: 0 <= pc < |pt.code| && pt.code[pc].op == OP_LOADBOOL ==> pt.code[pc].C <= 1
    ensures ControlIsClosed(pt)
  {
    AcceptedIsClosed(pt);
  }

  /** The headline: in accepted code whose LOADBOOL instructions have C == 0 or C == 1, as those of the compiler have,
      no run leaves the code, and none lands on the count word of a SETLIST. */
  lemma RunsOfAcceptedCode(pt: Proto, run: seq<int>, n: nat)
    requires Accepts(pt) && IsRun(pt, run) && n < |run|
    requires forall pc :: 0 <= pc < |pt.code| && pt.code[pc].op == OP_LOADBOOL ==> pt.code[pc].C <= 1
    ensures 0 <= run[n] < |pt.code| && IsStart(pt.code, run[n])
    ensures run[n] > 0 ==> !(IsStart(pt.code, run[n] - 1) && Extended(pt.code[run[n]-1]))
  {
    CompiledIsClosed(pt);
    RunsStayInside(pt, run, n);
  }

  /** LOADBOOL 0 0 2; RETURN 0 1 */
  function SkippingProto(): Proto {
    Proto([Word(OP_LOADBOOL, 0, 0, 2), Word(OP_RETURN, 0, 1, 0)], [], [], 0, 0, 0, 0, false, false, false, 2)
  }

  lemma SkippingAccepted()
    ensures Accepts(SkippingProto())
  {
    assert InstructionOk(SkippingProto(), 0) && InstructionOk(SkippingProto(), 1);
  }

  /** LOADBOOL with C == 2 is accepted in front of the last instruction, and jumps out of the code. */
  lemma SkipLeavesCode()
    ensures Accepts(SkippingProto()) && !ControlIsClosed(SkippingProto())
  {
    hide Accepts;
    var pt := SkippingProto();
    SkippingAccepted();
    assert IsStart(pt.code, 0) && !SkipOk(pt, 0);
    AcceptedStep(pt, 0);
  }

  // ----- operands -----

  predicate IsRK(r: int, operand: int) {
    operand < 256 && r == operand
  }

  /** The registers that an instruction reads or writes, as far as it names them. */
  predicate UsesRegister(i: Instruction, r: int) {
    match i.op
    case OP_MOVE => r == i.A || r == i.B
    case OP_LOADK => r == i.A
    case OP_LOADBOOL => r == i.A
    case OP_LOADNIL => r == i.B || i.A <= r <= i.B
    case OP_GETUPVAL => r == i.A
    case OP_GETGLOBAL => r == i.A
    case OP_GETTABLE => r == i.A || r == i.B || IsRK(r, i.C)
    case OP_SETGLOBAL => r == i.A
    case OP_SETUPVAL => r == i.A
    case OP_SETTABLE => r == i.A || IsRK(r, i.B) || IsRK(r, i.C)
    case OP_NEWTABLE => r == i.A
    case OP_SELF => r == i.A || r == i.A + 1 || r == i.B || IsRK(r, i.C)
    case OP_UNM => r == i.A || r == i.B
    case OP_NOT => r == i.A || r == i.B
    case OP_LEN => r == i.A || r == i.B
    case OP_CONCAT => r == i.A || i.B <= r <= i.C
    case OP_EQ => IsRK(r, i.B) || IsRK(r, i.C)
    case OP_LT => IsRK(r, i.B) || IsRK(r, i.C)
    case OP_LE => IsRK(r, i.B) || IsRK(r, i.C)
    case OP_TEST => r == i.A
    case OP_TESTSET => r == i.A || r == i.B
    case OP_CALL => r == i.A || i.A <= r < i.A + i.B || i.A <= r < i.A + i.C - 1
    case OP_TAILCALL => r == i.A || i.A <= r < i.A + i.B
    case OP_RETURN => i.A <= r < i.A + i.B - 1
    case OP_FORLOOP => i.A <= r <= i.A + 3
    case OP_FORPREP => i.A <= r <= i.A + 2
    case OP_TFORLOOP => i.A <= r <= i.A + 5 || i.A <= r <= i.A + 2 + i.C
    case OP_SETLIST => i.A <= r <= i.A + i.B
    case OP_CLOSURE => r == i.A
    case OP_VARARG => i.A <= r < i.A + i.B - 1
    case OP_JMP => false
    case OP_CLOSE => false
    case Undefined => false
    case _ => r == i.A || IsRK(r, i.B) || IsRK(r, i.C)
  }

  predicate UsesConstant(i: Instruction, k: int) {
    match i.op
    case OP_LOADK => k == i.Bx()
    case OP_GETGLOBAL => k == i.Bx()
    case OP_SETGLOBAL => k == i.Bx()
    case OP_GETTABLE => k == i.C - 256 >= 0
    case OP_SELF => k == i.C - 256 >= 0
    case _ =>
      (IsArith(i.op) || IsComparison(i.op) || i.op == OP_SETTABLE) && (k == i.B - 256 >= 0 || k == i.C - 256 >= 0)
  }

  predicate UsesUpvalue(i: Instruction, u: int) {
    (i.op == OP_GETUPVAL || i.op == OP_SETUPVAL) && u == i.B
  }

  /** Every operand of accepted code is there; only OP_TFORLOOP uses slots above the frame of the function, for the
      arguments of its call, and they are within the extra slots of every stack. */
  lemma OperandsInBounds(pt: Proto, pc: nat)
    requires Accepts(pt) && pc < |pt.code| && IsStart(pt.code, pc)
    ensures forall r :: UsesRegister(pt.code[pc], r) ==>
              r < pt.maxstacksize || (pt.code[pc].op == OP_TFORLOOP && r < pt.maxstacksize + EXTRA_STACK)
    ensures forall k :: UsesConstant(pt.code[pc], k) ==> k < |pt.kIsString|
    ensures forall u :: UsesUpvalue(pt.code[pc], u) ==> u < pt.nups
  {
    hide Accepts, IsStart;
    Checked(pt, pc);
    RegistersInBounds(pt, pc);
  }

  /** Open results, as many as there are, go to an instruction that takes as many as there are. */
  lemma OpenResultsAreUsed(pt: Proto, pc: nat)
    requires Accepts(pt) && pc < |pt.code| && IsStart(pt.code, pc)
    requires var i := pt.code[pc];
             ((i.op == OP_CALL || i.op == OP_TAILCALL) && i.C == 0) || (i.op == OP_VARARG && i.B == 0)
    ensures pc + 1 < |pt.code| && IsStart(pt.code, pc + 1) && CheckOpenOp(pt.code[pc+1])
  {
    hide Accepts, OperandsOk;
    Checked(pt, pc);
  }

  lemma RegistersInBounds(pt: Proto, pc: nat)
    requires pc < |pt.code| && OperandsOk(pt, pc) && OwnChecks(pt, pc)
    ensures forall r :: UsesRegister(pt.code[pc], r) ==>
              r < pt.maxstacksize || (pt.code[pc].op == OP_TFORLOOP && r < pt.maxstacksize + EXTRA_STACK)
  {
  }

  // ----- the checker as it works -----

  /** The search for SETLIST words before the destination of a jump. */
  method CountSetlists(code: seq<Instruction>, dest: nat) returns (j: nat)
    requires dest <= |code|
    ensures j == SetlistRun(code, dest)
  {
    j := 0;
    while j < dest
      invariant 0 <= j <= dest && SetlistRun(code, dest) == j + SetlistRun(code, dest - j)
    {
      var d := code[dest-1-j];
      if !(d.op == OP_SETLIST && d.C == 0) { break; }
      j := j + 1;
    }
  }

  method CheckOperands(pt: Proto, pc: nat) returns (ok: bool)
    requires pc < |pt.code|
    ensures ok == OperandsOk(pt, pc)
  {
    var i := pt.code[pc];
    if i.op == Undefined || !CheckReg(pt, i.A) { return false; }
    match GetOpMode(i.op) {
      case iABC =>
        ok := CheckArgMode(pt, i.B, GetBMode(i.op)) && CheckArgMode(pt, i.C, GetCMode(i.op));
      case iABx =>
        ok := GetBMode(i.op) == OpArgK ==> i.Bx() < |pt.kIsString|;
      case iAsBx =>
        var dest := pc + 1 + i.sBx();
        ok := 0 <= dest < |pt.code|;
        if ok && dest > 0 {
          var j := CountSetlists(pt.code, dest);
          ok := j % 2 == 0;
        }
    }
  }

  /** The instructions after OP_CLOSURE */
  method CheckPseudos(pt: Proto, pc: nat, nup: nat) returns (ok: bool)
    requires pc + nup < |pt.code|
    ensures ok == PseudosOk(pt, pc, nup)
  {
    var j := 1;
    while j <= nup
      invariant 1 <= j <= nup + 1
      invariant forall k :: pc < k < pc + j ==> pt.code[k].op == OP_GETUPVAL || pt.code[k].op == OP_MOVE
    {
      var op1 := pt.code[pc+j].op;
      if !(op1 == OP_GETUPVAL || op1 == OP_MOVE) { return false; }
      j := j + 1;
    }
    ok := true;
  }

  method CheckInstruction(pt: Proto, pc: nat) returns (ok: bool)
    requires pc < |pt.code|
    ensures ok == InstructionOk(pt, pc)
  {
    hide CheckArgMode, GetBMode, GetCMode, GetOpMode, TestTMode, SetlistRun, OperandsOk, TestOk, PseudosOk, CallOk;
    var i := pt.code[pc];
    ok := CheckOperands(pt, pc);
    if !ok { return; }
    ok := TestOk(pt, pc);
    if !ok { return; }
    if i.op == OP_CLOSURE {
      ok := i.Bx() < |pt.nested| && pc + pt.nested[i.Bx()] < |pt.code|;
      if ok { ok := CheckPseudos(pt, pc, pt.nested[i.Bx()]); }
    } else {
      ok := OwnChecks(pt, pc);
    }
  }

  /** The instructions after which symbexec takes the registers above A for changed, and the neutral one. */
  predicate ChangesAbove(op: OpCode) {
    op == OP_RETURN || op == OP_CALL || op == OP_TAILCALL || op == OP_TFORLOOP
  }

  /** symbexec, in full-check mode: are all checks passed, and what is the last instruction that changed a register
      above all others? */
  method SymbExec(pt: Proto) returns (ok: bool, last: nat)
    ensures ok <==> Accepts(pt)
    ensures ok ==> last < |pt.code| && ChangesAbove(pt.code[last].op)
  {
    hide InstructionOk, Accepts, IsStart, Precheck;
    AcceptsIf(pt);
    last := if |pt.code| > 0 then |pt.code| - 1 else 0;
    if !Precheck(pt) { return false, last; }
    var pc := 0;
    while pc < |pt.code|
      invariant 0 <= pc <= |pt.code| && IsStart(pt.code, pc)
      invariant forall q {:trigger InstructionOk(pt, q)} :: 0 <= q < pc && IsStart(pt.code, q) ==> InstructionOk(pt, q)
      invariant last < |pt.code| && ChangesAbove(pt.code[last].op)
    {
      var i := pt.code[pc];
      ok := CheckInstruction(pt, pc);
      if !ok { return false, last; }
      if i.op == OP_CALL || i.op == OP_TAILCALL || i.op == OP_TFORLOOP {
        last := pc;
      }
      NextStart(pt, pc);
      if i.op == OP_SETLIST && i.C == 0 {
        pc := pc + 1;
      }
      pc := pc + 1;
    }
    ok := true;
  }

  lemma AcceptsIf(pt: Proto)
    ensures IsStart(pt.code, 0) && (Precheck(pt) ==> |pt.code| > 0 && pt.code[|pt.code|-1].op == OP_RETURN)
    ensures Accepts(pt) <==>
            && Precheck(pt)
            && forall pc {:trigger InstructionOk(pt, pc)} ::
                 0 <= pc < |pt.code| && IsStart(pt.code, pc) ==> InstructionOk(pt, pc)
  {
  }

  lemma NextStart(pt: Proto, pc: nat)
    requires pc < |pt.code| && InstructionOk(pt, pc) && IsStart(pt.code, pc)
    ensures if Extended(pt.code[pc]) then pc + 2 <= |pt.code| && IsStart(pt.code, pc + 2) && !IsStart(pt.code, pc + 1)
            else IsStart(pt.code, pc + 1)
  {
    hide OperandsOk, TestOk;
    if Extended(pt.code[pc]) { AfterCount(pt.code, pc); }
  }

  predicate IsZero(i: Instruction) {
    i == Word(OP_MOVE, 0, 0, 0)
  }

  /** luaG_checkcode */
  method CheckCode(pt: Proto) returns (ok: bool)
    ensures ok <==> Accepts(pt)
  {
    var accepted, last := SymbExec(pt);
    ok := accepted && !IsZero(pt.code[last]);
  }
}
