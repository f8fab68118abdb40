/** Which code the checker accepts, in terms of what the instructions do. */
module Bytecode {
  import opened Checker

  /** The sizes that go with the code; it ends with a return. */
  ghost predicate HeaderFits(pt: Proto) {
    && 0 < |pt.code| && pt.code[|pt.code|-1].op == OP_RETURN
    && pt.maxstacksize <= 250
    && pt.numparams <= pt.maxstacksize && (pt.hasArg ==> pt.numparams < pt.maxstacksize)
    && (!pt.hasArg ==> !pt.needsArg)
    && pt.sizeupvalues <= pt.nups
    && pt.sizelineinfo in {0, |pt.code|}
  }

  /** Every register that is used exists, but for the arguments of the call that a TFORLOOP makes; and so does the
      register A of an instruction that uses none, the last register of a loop, and some others that are not used. */
  ghost predicate RegistersExist(pt: Proto, i: Instruction) {
    && (forall r :: UsesRegister(i, r) && !(i.op == OP_TFORLOOP && r > i.A + 2 + i.C) ==> r < pt.maxstacksize)
    && i.A < pt.maxstacksize
    && (i.op == OP_FORPREP ==> i.A + 3 < pt.maxstacksize)
    && (i.op == OP_TEST ==> i.B < pt.maxstacksize)
    && (i.op == OP_TAILCALL && i.C > 1 ==> i.A + i.C - 2 < pt.maxstacksize)
  }

  ghost predicate ConstantsExist(pt: Proto, i: Instruction) {
    && (forall k :: UsesConstant(i, k) ==> k < |pt.kIsString|)
    && (i.op == OP_GETGLOBAL || i.op == OP_SETGLOBAL ==> i.Bx() < |pt.kIsString| && pt.kIsString[i.Bx()])
  }

  /** An operand that has no meaning is zero. */
  predicate UnusedIsZero(i: Instruction) {
    && (i.op in {OP_TFORLOOP, OP_CLOSE} ==> i.B == 0)
    && (i.op in {OP_MOVE, OP_LOADNIL, OP_GETUPVAL, OP_SETUPVAL, OP_UNM, OP_NOT, OP_LEN, OP_RETURN, OP_CLOSE, OP_VARARG}
        ==> i.C == 0)
  }

  ghost predicate OperandsExist(pt: Proto, i: Instruction) {
    && i.op != Undefined
    && RegistersExist(pt, i) && ConstantsExist(pt, i) && UnusedIsZero(i)
    && (forall u :: UsesUpvalue(i, u) ==> u < pt.nups)
    && (i.op == OP_CLOSURE ==> i.Bx() < |pt.nested|)
    && (i.op == OP_CONCAT ==> i.B < i.C)
    && (i.op == OP_TFORLOOP ==> i.C > 0)
    && (i.op == OP_VARARG ==> pt.isVararg && !pt.needsArg)
  }

  /** Leaves the instruction an open number of results? */
  predicate OpensResults(i: Instruction) {
    ((i.op == OP_CALL || i.op == OP_TAILCALL) && i.C == 0) || (i.op == OP_VARARG && i.B == 0)
  }

  predicate TakesOpenResults(i: Instruction) {
    (i.op == OP_CALL || i.op == OP_TAILCALL || i.op == OP_RETURN || i.op == OP_SETLIST) && i.B == 0
  }

  /** What has to follow an instruction. */
  predicate Followed(pt: Proto, pc: nat)
    requires pc < |pt.code|
  {
    var i := pt.code[pc];
    && (i.op in {OP_EQ, OP_LT, OP_LE, OP_TEST, OP_TESTSET, OP_TFORLOOP} ==>
          pc + 1 < |pt.code| && pt.code[pc+1].op == OP_JMP)
    && (OpensResults(i) ==> pc + 1 < |pt.code| && TakesOpenResults(pt.code[pc+1]))
    && (i.op == OP_CLOSURE && i.Bx() < |pt.nested| ==>
          forall k :: pc < k <= pc + pt.nested[i.Bx()] ==>
            k < |pt.code| && (pt.code[k].op == OP_GETUPVAL || pt.code[k].op == OP_MOVE))
  }

  /** An instruction as it has to be.  The skip of a LOADBOOL is looked at only if C is 1. */
  ghost predicate WellFormedAt(pt: Proto, pc: nat)
    requires pc < |pt.code|
  {
    var i := pt.code[pc];
    OperandsExist(pt, i) && Followed(pt, pc) && ((i.op == OP_LOADBOOL && i.C > 1) || ClosedAt(pt, pc))
  }

  ghost predicate WellFormed(pt: Proto) {
    && HeaderFits(pt)
    && forall pc {:trigger WellFormedAt(pt, pc)} ::
         0 <= pc < |pt.code| && IsStart(pt.code, pc) ==> WellFormedAt(pt, pc)
  }

  // ----- what is checked is there -----

  lemma RegistersChecked(pt: Proto, pc: nat)
    requires pc < |pt.code| && OperandsOk(pt, pc) && OwnChecks(pt, pc)
    ensures RegistersExist(pt, pt.code[pc])
  {
  }

  lemma ConstantsChecked(pt: Proto, pc: nat)
    requires pc < |pt.code| && OperandsOk(pt, pc) && OwnChecks(pt, pc)
    ensures ConstantsExist(pt, pt.code[pc])
  {
  }

  lemma UnusedChecked(pt: Proto, pc: nat)
    requires pc < |pt.code| && OperandsOk(pt, pc)
    ensures UnusedIsZero(pt.code[pc])
  {
  }

  lemma OperandsChecked(pt: Proto, pc: nat)
    requires pc < |pt.code| && OperandsOk(pt, pc) && OwnChecks(pt, pc)
    ensures OperandsExist(pt, pt.code[pc])
  {
    hide RegistersExist, ConstantsExist, UnusedIsZero;
    RegistersChecked(pt, pc);
    ConstantsChecked(pt, pc);
    UnusedChecked(pt, pc);
  }

  lemma FollowersChecked(pt: Proto, pc: nat)
    requires pc < |pt.code| && TestOk(pt, pc) && OwnChecks(pt, pc)
    ensures Followed(pt, pc)
  {
  }

  /** Every accepted instruction is as it has to be. */
  lemma AcceptedAt(pt: Proto, pc: nat)
    requires Accepts(pt) && pc < |pt.code| && IsStart(pt.code, pc)
    ensures WellFormedAt(pt, pc)
  {
    hide Accepts, IsStart, OperandsOk, TestOk, OwnChecks, ClosedAt, OperandsExist, Followed;
    Checked(pt, pc);
    OperandsChecked(pt, pc);
    FollowersChecked(pt, pc);
    AcceptedStep(pt, pc);
  }

  // ----- what is there passes the checks -----

  lemma OperandB(pt: Proto, i: Instruction)
    requires OperandsExist(pt, i) && GetOpMode(i.op) == iABC
    ensures CheckArgMode(pt, i.B, GetBMode(i.op))
  {
    assert GetBMode(i.op) == OpArgR ==> UsesRegister(i, i.B) || i.op == OP_TEST;
    assert GetBMode(i.op) == OpArgK ==> if i.B < 256 then UsesRegister(i, i.B) else UsesConstant(i, i.B - 256);
  }

  lemma OperandC(pt: Proto, i: Instruction)
    requires OperandsExist(pt, i) && GetOpMode(i.op) == iABC
    ensures CheckArgMode(pt, i.C, GetCMode(i.op))
  {
    assert GetCMode(i.op) == OpArgR ==> i.B < i.C && UsesRegister(i, i.C);
    assert GetCMode(i.op) == OpArgK ==> if i.C < 256 then UsesRegister(i, i.C) else UsesConstant(i, i.C - 256);
  }

  lemma OperandBx(pt: Proto, i: Instruction)
    requires OperandsExist(pt, i) && GetOpMode(i.op) == iABx && GetBMode(i.op) == OpArgK
    ensures i.Bx() < |pt.kIsString|
  {
    assert UsesConstant(i, i.Bx());
  }

  lemma JumpOk(pt: Proto, pc: nat)
    requires pc < |pt.code| && ClosedAt(pt, pc) && GetOpMode(pt.code[pc].op) == iAsBx
    ensures CheckDest(pt, pc + 1 + pt.code[pc].sBx())
  {
    hide IsStart, SetlistRun, Successors, GetOpMode;
    var q := pc + 1 + pt.code[pc].sBx();
    JumpSucceeds(pt, pc);
    EvenRun(pt.code, q);
  }

  lemma JumpSucceeds(pt: Proto, pc: nat)
    requires pc < |pt.code| && GetOpMode(pt.code[pc].op) == iAsBx
    ensures pc + 1 + pt.code[pc].sBx() in Successors(pt, pc)
  {
    hide IsStart;
  }

  lemma Defined(pt: Proto, i: Instruction)
    requires OperandsExist(pt, i)
    ensures i.op != Undefined && i.A < pt.maxstacksize
  {
  }

  lemma OperandsPass(pt: Proto, pc: nat)
    requires pc < |pt.code| && WellFormedAt(pt, pc)
    ensures OperandsOk(pt, pc)
  {
    hide OperandsExist, CheckArgMode, GetBMode, GetCMode, CheckDest, Followed, ClosedAt;
    var i := pt.code[pc];
    Defined(pt, i);
    if GetOpMode(i.op) == iABC {
      OperandB(pt, i);
      OperandC(pt, i);
    } else if GetOpMode(i.op) == iABx {
      if GetBMode(i.op) == OpArgK { OperandBx(pt, i); }
    } else {
      JumpOk(pt, pc);
    }
  }

  lemma TestPasses(pt: Proto, pc: nat)
    requires pc < |pt.code| && WellFormedAt(pt, pc)
    ensures TestOk(pt, pc)
  {
    hide OperandsExist, IsStart;
    if TestTMode(pt.code[pc].op) { assert pc + 2 in Successors(pt, pc); }
  }

  lemma CallPasses(pt: Proto, pc: nat)
    requires pc < |pt.code| && OperandsExist(pt, pt.code[pc]) && Followed(pt, pc)
    ensures CallOk(pt, pc)
  {
    var i := pt.code[pc];
    if i.op == OP_CALL || i.op == OP_TAILCALL {
      assert i.B > 0 ==> UsesRegister(i, i.A + i.B - 1);
      assert i.op == OP_CALL && i.C > 1 ==> UsesRegister(i, i.A + i.C - 2);
    }
  }

  lemma LoadBoolPasses(pt: Proto, pc: nat)
    requires pc < |pt.code| && WellFormedAt(pt, pc) && pt.code[pc].op == OP_LOADBOOL && IsStart(pt.code, pc)
    ensures OwnChecks(pt, pc)
  {
    hide OperandsExist, Followed;
    if pt.code[pc].C == 1 {
      assert pc + 2 in Successors(pt, pc);
      assert IsStart(pt.code, pc + 1);
    }
  }

  lemma SetlistPasses(pt: Proto, pc: nat)
    requires pc < |pt.code| && WellFormedAt(pt, pc) && pt.code[pc].op == OP_SETLIST
    ensures OwnChecks(pt, pc)
  {
    hide ConstantsExist, IsStart, OpensResults, TakesOpenResults;
    var i := pt.code[pc];
    assert UsesRegister(i, i.A + i.B);
    if i.C == 0 { assert pc + 2 in Successors(pt, pc); }
  }

  lemma ClosureSucceeds(pt: Proto, pc: nat)
    requires pc < |pt.code| && pt.code[pc].op == OP_CLOSURE && pt.code[pc].Bx() < |pt.nested|
    ensures pc + 1 + pt.nested[pt.code[pc].Bx()] in Successors(pt, pc)
  {
  }

  lemma ClosurePasses(pt: Proto, pc: nat)
    requires pc < |pt.code| && WellFormedAt(pt, pc) && pt.code[pc].op == OP_CLOSURE
    ensures OwnChecks(pt, pc)
  {
    hide RegistersExist, ConstantsExist, UnusedIsZero, IsStart, Successors, OpensResults, TakesOpenResults;
    ClosureSucceeds(pt, pc);
  }

  lemma VarargPasses(pt: Proto, pc: nat)
    requires pc < |pt.code| && OperandsExist(pt, pt.code[pc]) && Followed(pt, pc) && pt.code[pc].op == OP_VARARG
    ensures OwnChecks(pt, pc)
  {
    hide ConstantsExist;
    var i := pt.code[pc];
    assert i.B > 1 ==> UsesRegister(i, i.A + i.B - 2);
  }

  /** The instructions whose checks are about operands only. */
  lemma OthersPass(pt: Proto, pc: nat)
    requires pc < |pt.code| && OperandsExist(pt, pt.code[pc])
    requires pt.code[pc].op !in {OP_LOADBOOL, OP_SETLIST, OP_CLOSURE, OP_VARARG, OP_CALL, OP_TAILCALL}
    ensures OwnChecks(pt, pc)
  {
    var i := pt.code[pc];
    assert i.op == OP_GETUPVAL || i.op == OP_SETUPVAL ==> UsesUpvalue(i, i.B);
    assert i.op == OP_SELF ==> UsesRegister(i, i.A + 1);
    assert i.op == OP_TFORLOOP ==> UsesRegister(i, i.A + 2 + i.C);
    assert i.op == OP_FORLOOP ==> UsesRegister(i, i.A + 3);
    assert i.op == OP_RETURN && i.B > 1 ==> UsesRegister(i, i.A + i.B - 2);
  }

  lemma OwnPasses(pt: Proto, pc: nat)
    requires pc < |pt.code| && WellFormedAt(pt, pc) && IsStart(pt.code, pc)
    ensures OwnChecks(pt, pc)
  {
    hide OperandsExist, Followed, ClosedAt, OwnChecks;
    var op := pt.code[pc].op;
    if op == OP_LOADBOOL { LoadBoolPasses(pt, pc); }
    else if op == OP_SETLIST { SetlistPasses(pt, pc); }
    else if op == OP_CLOSURE { ClosurePasses(pt, pc); }
    else if op == OP_VARARG { VarargPasses(pt, pc); }
    else if op == OP_CALL || op == OP_TAILCALL { CallPasses(pt, pc); CallIsAll(pt, pc); }
    else { OthersPass(pt, pc); }
  }

  lemma CallIsAll(pt: Proto, pc: nat)
    requires pc < |pt.code| && (pt.code[pc].op == OP_CALL || pt.code[pc].op == OP_TAILCALL) && CallOk(pt, pc)
    ensures OwnChecks(pt, pc)
  {
    hide CallOk;
  }

  lemma HeaderIff(pt: Proto)
    ensures Precheck(pt) <==> HeaderFits(pt)
  {
  }

  /** The headline: the checker refuses nothing but code that is not well-formed, and accepts nothing else. */
  lemma AcceptedIff(pt: Proto)
    ensures Accepts(pt) <==> WellFormed(pt)
  {
    hide Precheck, HeaderFits, InstructionOk, WellFormedAt, IsStart;
    HeaderIff(pt);
    forall pc | 0 <= pc < |pt.code| && IsStart(pt.code, pc)
      ensures Accepts(pt) ==> WellFormedAt(pt, pc)
      ensures WellFormedAt(pt, pc) ==> InstructionOk(pt, pc)
    {
      if Accepts(pt) { AcceptedAt(pt, pc); }
      if WellFormedAt(pt, pc) { Passes(pt, pc); }
    }
  }

  lemma Passes(pt: Proto, pc: nat)
    requires pc < |pt.code| && WellFormedAt(pt, pc) && IsStart(pt.code, pc)
    ensures InstructionOk(pt, pc)
  {
    hide WellFormedAt, IsStart, OperandsOk, TestOk, OwnChecks;
    OperandsPass(pt, pc);
    TestPasses(pt, pc);
    OwnPasses(pt, pc);
  }
}
