/** The part of the Lua virtual machine that boolean expressions compile to (lvm.c, lopcodes.h).

    Code that is still being generated contains pending jumps: JMP instructions whose offset
    field does not hold an offset yet, because it threads a patch list.  `Run` therefore takes
    the set of pending jumps and stops with `Exit` when one of them is taken. */
module Machine {
  import opened Limits

  const NO_JUMP := -1
  const NO_REG := 255     // "no register": the largest value of the 8-bit field A
  const BITRK := 256      // marks a constant in an RK operand
  const MAXINDEXRK := 255

  datatype Value = Nil | Boolean(b: bool) | Number(n: int) | Text(s: string) | Object(id: int)

  /** l_isfalse: only nil and false are false. */
  predicate IsFalse(v: Value) {
    v == Nil || v == Boolean(false)
  }

  datatype CmpOp = OpEq | OpLt | OpLe

  /** One constructor an opcode, with the operands lvm.c reads.  Operands that hold a truth
      value (A of a comparison, C of TEST and TESTSET, B and C of LOADBOOL) are `bool`. */
  datatype Instr =
    | Move(a: int, b: int)
    | LoadK(a: int, bx: int)
    | LoadBool(a: int, val: bool, skip: bool)
    | GetUpval(a: int, b: int)
    | Not(a: int, b: int)
    | Jmp(sbx: int)
    | Compare(cmp: CmpOp, cond: bool, b: int, c: int)
    | Test(a: int, cond: bool)
    | TestSet(a: int, b: int, cond: bool)
    | Return(a: int, b: int)

  /** testTMode: the opcodes that are followed by a jump. */
  predicate IsTest(i: Instr) {
    i.Compare? || i.Test? || i.TestSet?
  }

  type Regs = map<int, Value>

  function Get(R: Regs, r: int): Value {
    if r in R then R[r] else Nil
  }

  /** What an instruction can see besides the registers: the constant table, the values of the
      upvalues, and the comparison of two values (`cmp` stands for equalobj, luaV_lessthan and
      lessequal).  The machine stops at the jumps of `watch` if they are taken with another value than the given
      boolean; in the interpreter nothing is watched. */
  datatype Env = Env(k: seq<Value>, up: seq<Value>, cmp: (CmpOp, Value, Value) -> bool, watch: set<(int, bool)>)

  function At(s: seq<Value>, i: int): Value {
    if 0 <= i < |s| then s[i] else Nil
  }

  /** RKB / RKC: a register, or a constant when the operand carries BITRK. */
  function RK(env: Env, R: Regs, x: int): Value {
    if x >= BITRK then At(env.k, x - BITRK) else Get(R, x)
  }

  /** Does this test make the jump that follows it? */
  predicate Taken(i: Instr, env: Env, R: Regs)
    requires IsTest(i)
  {
    match i
    case Compare(op, cond, b, c) => env.cmp(op, RK(env, R, b), RK(env, R, c)) == cond
    case Test(a, cond) => IsFalse(Get(R, a)) != cond
    case TestSet(_, b, cond) => IsFalse(Get(R, b)) != cond
  }

  predicate IsLoad(i: Instr) {
    i.Move? || i.LoadK? || i.LoadBool? || i.GetUpval? || i.Not?
  }

  /** The value an instruction that only sets register A puts there. */
  function Loaded(i: Instr, env: Env, R: Regs): Value
    requires IsLoad(i)
  {
    match i
    case Move(_, b) => Get(R, b)
    case LoadK(_, bx) => At(env.k, bx)
    case LoadBool(_, v, _) => Boolean(v)
    case GetUpval(_, b) => At(env.up, b)
    case Not(_, b) => Boolean(IsFalse(Get(R, b)))
  }

  datatype Outcome =
    | End(regs: Regs)           // fell through to the end of the code
    | Exit(j: int, regs: Regs)  // took the pending jump at j
    | Ret(v: Value)             // returned one value
    | Mixed                     // took a watched jump with another value
    | Stuck

  /** Is the jump at j watched, and does the register that is tested in front of it hold another value? */
  predicate Differs(env: Env, code: seq<Instr>, j: int, R: Regs) {
    0 < j <= |code| &&
    match code[j-1]
    case Test(a, _) => DiffersAt(env, j, Get(R, a))
    case TestSet(_, b, _) => DiffersAt(env, j, Get(R, b))
    case _ => false
  }

  predicate DiffersAt(env: Env, j: int, v: Value) {
    ((j, true) in env.watch && v != Boolean(true)) || ((j, false) in env.watch && v != Boolean(false))
  }

  /** Run from `pc`.  Every jump of an expression goes forward, so the machine stops. */
  function Run(env: Env, code: seq<Instr>, pending: set<int>, pc: nat, R: Regs): Outcome
    decreases |code| - pc, 1
  {
    if pc > |code| then Stuck
    else if pc == |code| then End(R)
    else
      var i := code[pc];
      if IsTest(i) then
        if pc + 1 < |code| && code[pc+1].Jmp? then
          if Taken(i, env, R) then Jump(env, code, pending, pc + 1, R)
          else Run(env, code, pending, pc + 2, R)
        else Stuck
      else if i.Jmp? then
        if pc > 0 && IsTest(code[pc-1]) then Stuck else Jump(env, code, pending, pc, R)
      else if i.Return? then Ret(Get(R, i.a))
      else Run(env, code, pending, pc + (if i.LoadBool? && i.skip then 2 else 1), R[i.a := Loaded(i, env, R)])
  }

  /** Take the jump at j, with the assignment of the TESTSET that controls it, if any. */
  function Jump(env: Env, code: seq<Instr>, pending: set<int>, j: int, R: Regs): Outcome
    decreases |code| - j, 0
  {
    if !(0 <= j < |code|) || !code[j].Jmp? then Stuck
    else if Differs(env, code, j, R) then Mixed
    else if j in pending then Exit(j, R)
    else
      var R' := if j > 0 && code[j-1].TestSet? then R[code[j-1].a := Get(R, code[j-1].b)] else R;
      var target := j + 1 + code[j].sbx;
      if target <= j then Stuck else Run(env, code, pending, target, R')
  }

  /** luaV_execute on finished code: no jump is pending, or watched. */
  function Execute(env: Env, code: seq<Instr>, R: Regs): Outcome {
    Run(env.(watch := {}), code, {}, 0, R)
  }

  /** A run that does not stop at a watched jump is like the run in which nothing is watched. */
  lemma {:induction false} Unwatched(env: Env, code: seq<Instr>, pending: set<int>, pc: nat, R: Regs)
    requires Run(env, code, pending, pc, R) != Mixed
    ensures Run(env.(watch := {}), code, pending, pc, R) == Run(env, code, pending, pc, R)
    decreases |code| - pc, 1
  {
    if pc < |code| {
      var i := code[pc];
      if IsTest(i) {
        if pc + 1 < |code| && code[pc+1].Jmp? {
          if Taken(i, env, R) { UnwatchedJump(env, code, pending, pc + 1, R); }
          else { Unwatched(env, code, pending, pc + 2, R); }
        }
      } else if i.Jmp? {
        if pc == 0 || !IsTest(code[pc-1]) { UnwatchedJump(env, code, pending, pc, R); }
      } else if !i.Return? {
        Unwatched(env, code, pending, pc + (if i.LoadBool? && i.skip then 2 else 1), R[i.a := Loaded(i, env, R)]);
      }
    }
  }

  lemma {:induction false} UnwatchedJump(env: Env, code: seq<Instr>, pending: set<int>, j: int, R: Regs)
    requires Jump(env, code, pending, j, R) != Mixed
    ensures Jump(env.(watch := {}), code, pending, j, R) == Jump(env, code, pending, j, R)
    decreases |code| - j, 0
  {
    if 0 <= j < |code| && code[j].Jmp? && j !in pending && code[j].sbx >= 0 {
      var R' := if j > 0 && code[j-1].TestSet? then R[code[j-1].a := Get(R, code[j-1].b)] else R;
      Unwatched(env, code, pending, j + 1 + code[j].sbx, R');
    }
  }

  /** If nothing is watched, no run stops at a watched jump. */
  lemma {:induction false} NeverMixed(env: Env, code: seq<Instr>, pending: set<int>, pc: nat, R: Regs)
    requires env.watch == {}
    ensures Run(env, code, pending, pc, R) != Mixed
    decreases |code| - pc, 1
  {
    if pc < |code| {
      var i := code[pc];
      if IsTest(i) {
        JumpNeverMixed(env, code, pending, pc + 1, R);
        NeverMixed(env, code, pending, pc + 2, R);
      } else if i.Jmp? {
        JumpNeverMixed(env, code, pending, pc, R);
      } else if !i.Return? {
        NeverMixed(env, code, pending, pc + (if i.LoadBool? && i.skip then 2 else 1), R[i.a := Loaded(i, env, R)]);
      }
    }
  }

  lemma {:induction false} JumpNeverMixed(env: Env, code: seq<Instr>, pending: set<int>, j: int, R: Regs)
    requires env.watch == {}
    ensures Jump(env, code, pending, j, R) != Mixed
    decreases |code| - j, 0
  {
    if 0 <= j < |code| && code[j].Jmp? && j !in pending && code[j].sbx >= 0 {
      var R' := if j > 0 && code[j-1].TestSet? then R[code[j-1].a := Get(R, code[j-1].b)] else R;
      NeverMixed(env, code, pending, j + 1 + code[j].sbx, R');
    }
  }

  /** The interpreter loop computes `Execute`. */
  method ExecuteLoop(env: Env, code: seq<Instr>, regs0: Regs) returns (o: Outcome)
    ensures o == Execute(env, code, regs0)
  {
    var pc: nat, regs := 0, regs0;
    while pc < |code|
      invariant Run(env.(watch := {}), code, {}, pc, regs) == Execute(env, code, regs0)
      decreases |code| - pc
    {
      var i := code[pc];
      pc := pc + 1;
      match i {
        case Jmp(sbx) =>
          if (pc > 1 && IsTest(code[pc-2])) || sbx < 0 { return Stuck; }
          pc := pc + sbx;
        case Compare(_, _, _, _) =>
          if pc >= |code| || !code[pc].Jmp? { return Stuck; }
          if Taken(i, env, regs) {
            if code[pc].sbx < 0 { return Stuck; }
            pc := pc + code[pc].sbx;
          }
          pc := pc + 1;
        case Test(_, _) =>
          if pc >= |code| || !code[pc].Jmp? { return Stuck; }
          if Taken(i, env, regs) {
            if code[pc].sbx < 0 { return Stuck; }
            pc := pc + code[pc].sbx;
          }
          pc := pc + 1;
        case TestSet(a, b, _) =>
          if pc >= |code| || !code[pc].Jmp? { return Stuck; }
          if Taken(i, env, regs) {
            if code[pc].sbx < 0 { return Stuck; }
            regs := regs[a := Get(regs, b)];
            pc := pc + code[pc].sbx;
          }
          pc := pc + 1;
        case Return(a, _) => return Ret(Get(regs, a));
        case LoadBool(a, v, skip) =>
          regs := regs[a := Boolean(v)];
          if skip { pc := pc + 1; }
        case _ =>
          regs := regs[i.a := Loaded(i, env, regs)];
      }
    }
    o := if pc == |code| then End(regs) else Stuck;
  }

  /** Every test is followed by its jump. */
  ghost predicate TestsPaired(code: seq<Instr>) {
    forall k {:trigger code[k]} :: 0 <= k < |code| && IsTest(code[k]) ==> k + 1 < |code| && code[k+1].Jmp?
  }

  /** The same condition; a TESTSET may have its target changed or be downgraded to TEST. */
  ghost predicate SameTest(i: Instr, i': Instr) {
    i == i' || (i.TestSet? && (i' == Test(i.b, i.cond) || (i'.TestSet? && i'.b == i.b && i'.cond == i.cond)))
  }

  /** At position k, code' differs from `code` at most by what patching a pending jump changes. */
  ghost predicate Kept(code: seq<Instr>, pending: set<int>, code': seq<Instr>, pending': set<int>, k: int)
    requires 0 <= k < |code| <= |code'|
  {
    && (k in pending' ==> k in pending)
    && if k in pending then code[k].Jmp? && code'[k].Jmp?
       else if IsTest(code[k]) && k + 1 in pending then SameTest(code[k], code'[k])
       else code'[k] == code[k]
  }

  /** The positions that matter to a run that starts at lo or with one of the jumps `entries`. */
  predicate Reachable(code: seq<Instr>, lo: nat, entries: seq<int>, k: int)
    requires 0 <= k < |code|
  {
    k >= lo || k in entries || (k + 1 in entries && IsTest(code[k]))
  }

  /** code' continues `code` for runs that start at lo or with one of the jumps `entries`: only pending
      jumps (and the TESTSETs in front of them) were changed, and code may have been added behind. */
  ghost predicate Continues(code: seq<Instr>, pending: set<int>, code': seq<Instr>, pending': set<int>,
                            lo: nat, entries: seq<int>) {
    && lo <= |code| <= |code'|
    && (0 < lo < |code| ==> IsTest(code'[lo-1]) == IsTest(code[lo-1]))
    && (forall j :: j in entries ==>
          && 0 <= j < lo && code[j].Jmp? && (j in pending || j + 1 + code[j].sbx >= lo)
          && (j > 0 && IsTest(code'[j-1]) ==> IsTest(code[j-1])))
    && forall k {:trigger Kept(code, pending, code', pending', k)} ::
         0 <= k < |code| && Reachable(code, lo, entries, k) ==> Kept(code, pending, code', pending', k)
  }

  /** What becomes of an outcome in the continued code. */
  function Continue(env: Env, end: nat, code': seq<Instr>, pending': set<int>, o: Outcome): Outcome {
    match o
    case End(R) => Run(env, code', pending', end, R)
    case Exit(j, R) => Jump(env, code', pending', j, R)
    case _ => o
  }

  /** Patching and appending mean continuing: the run on the new code is the run on the old code,
      resumed where the old one stopped. */
  lemma {:induction false} RunContinues(env: Env, code: seq<Instr>, pending: set<int>,
                                        code': seq<Instr>, pending': set<int>, lo: nat, entries: seq<int>, pc: nat,
                                        R: Regs)
    requires Continues(code, pending, code', pending', lo, entries)
    requires lo <= pc
    requires |code| == |code'| || Run(env, code, pending, pc, R) != Stuck
    ensures Run(env, code', pending', pc, R)
         == Continue(env, |code|, code', pending', Run(env, code, pending, pc, R))
    decreases |code| - pc, 1
  {
    if pc < |code| {
      var i, i' := code[pc], code'[pc];
      assert Kept(code, pending, code', pending', pc);
      if IsTest(i) {
        assert pc + 1 < |code| ==> Kept(code, pending, code', pending', pc + 1);
        assert Taken(i, env, R) == Taken(i', env, R);
        if pc + 1 == |code| || !code[pc+1].Jmp? {
        } else if Taken(i, env, R) {
          JumpContinues(env, code, pending, code', pending', lo, entries, pc + 1, R);
        } else {
          RunContinues(env, code, pending, code', pending', lo, entries, pc + 2, R);
        }
      } else if i.Jmp? {
        if pc > lo { assert Kept(code, pending, code', pending', pc - 1); }
        if pc == 0 || !IsTest(code[pc-1]) {
          JumpContinues(env, code, pending, code', pending', lo, entries, pc, R);
        }
      } else if !i.Return? {
        RunContinues(env, code, pending, code', pending', lo, entries,
                     pc + (if i.LoadBool? && i.skip then 2 else 1), R[i.a := Loaded(i, env, R)]);
      }
    }
  }

  lemma {:induction false} JumpContinues(env: Env, code: seq<Instr>, pending: set<int>,
                                         code': seq<Instr>, pending': set<int>, lo: nat, entries: seq<int>, j: nat,
                                         R: Regs)
    requires Continues(code, pending, code', pending', lo, entries)
    requires lo <= j < |code| || j in entries
    requires j == lo ==> !(j > 0 && IsTest(code[j-1]))
    requires |code| == |code'| || Jump(env, code, pending, j, R) != Stuck
    ensures Jump(env, code', pending', j, R)
         == Continue(env, |code|, code', pending', Jump(env, code, pending, j, R))
    decreases |code| - j, 0
  {
    assert Kept(code, pending, code', pending', j);
    if j > lo || (j > 0 && j in entries && IsTest(code[j-1])) { assert Kept(code, pending, code', pending', j - 1); }
    assert code[j].Jmp? ==> Differs(env, code, j, R) == Differs(env, code', j, R);
    if j !in pending && code[j].Jmp? && code[j].sbx >= 0 && !Differs(env, code, j, R) {
      var R' := if j > 0 && code[j-1].TestSet? then R[code[j-1].a := Get(R, code[j-1].b)] else R;
      RunContinues(env, code, pending, code', pending', lo, entries, j + 1 + code[j].sbx, R');
    }
  }

  /** A run that starts at lo (entry -1), or with the jump `entry`. */
  function Enter(env: Env, code: seq<Instr>, pending: set<int>, lo: nat, entry: int, R: Regs): Outcome {
    if entry < 0 then Run(env, code, pending, lo, R) else Jump(env, code, pending, entry, R)
  }

  lemma EnterContinues(env: Env, code: seq<Instr>, pending: set<int>,
                       code': seq<Instr>, pending': set<int>, lo: nat, entries: seq<int>, entry: int, R: Regs)
    requires Continues(code, pending, code', pending', lo, entries)
    requires entry == -1 || entry in entries
    requires |code| == |code'| || Enter(env, code, pending, lo, entry, R) != Stuck
    ensures Enter(env, code', pending', lo, entry, R)
         == Continue(env, |code|, code', pending', Enter(env, code, pending, lo, entry, R))
  {
    if entry == -1 {
      RunContinues(env, code, pending, code', pending', lo, entries, lo, R);
    } else {
      JumpContinues(env, code, pending, code', pending', lo, entries, entry, R);
    }
  }

  /** The machine leaves only through a pending jump at or after its start. */
  lemma {:induction false} ExitIsPending(env: Env, code: seq<Instr>, pending: set<int>, pc: nat, R: Regs)
    ensures var o := Run(env, code, pending, pc, R);
            o.Exit? ==> o.j in pending && pc <= o.j < |code| && code[o.j].Jmp? && !Differs(env, code, o.j, o.regs)
    decreases |code| - pc, 1
  {
    if pc < |code| {
      var i := code[pc];
      if IsTest(i) {
        JumpExitIsPending(env, code, pending, pc + 1, R);
        ExitIsPending(env, code, pending, pc + 2, R);
      } else if i.Jmp? {
        JumpExitIsPending(env, code, pending, pc, R);
      } else if !i.Return? {
        ExitIsPending(env, code, pending, pc + (if i.LoadBool? && i.skip then 2 else 1), R[i.a := Loaded(i, env, R)]);
      }
    }
  }

  lemma {:induction false} JumpExitIsPending(env: Env, code: seq<Instr>, pending: set<int>, j: nat, R: Regs)
    ensures var o := Jump(env, code, pending, j, R);
            o.Exit? ==> o.j in pending && j <= o.j < |code| && code[o.j].Jmp? && !Differs(env, code, o.j, o.regs)
    decreases |code| - j, 0
  {
    if j < |code| && code[j].Jmp? && j !in pending && code[j].sbx >= 0 {
      var R' := if j > 0 && code[j-1].TestSet? then R[code[j-1].a := Get(R, code[j-1].b)] else R;
      ExitIsPending(env, code, pending, j + 1 + code[j].sbx, R');
    }
  }
}
