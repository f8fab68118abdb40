/** What the compiler of boolean expressions emits passes the bytecode checker, also when it comes from a file. */
module CodeGenChecked {
  import opened Limits
  import opened Machine
  import opened JumpLists
  import opened CodeGenSpec
  import opened CodeGenProof
  import opened CodeGenLimits
  import opened Wrappers
  import Checker
  import Chunks

  // ----- instructions whose operands exist -----

  predicate Register(g: Gen, r: int) {
    0 <= r < g.maxstack
  }

  predicate RKExists(g: Gen, x: int) {
    (0 <= x - BITRK <= MAXINDEXRK && x - BITRK < |g.k|) || Register(g, x)
  }

  /** The jump leads to an instruction before `end`, or to `end`, unless it is pending, and its offset fits. */
  predicate JumpLands(g: Gen, pending: set<int>, end: int, k: int, sbx: int) {
    k in pending || (0 <= k + 1 + sbx <= end && (!g.err ==> Magnitude(sbx) <= MAXARG_sBx))
  }

  /** All that the instruction at k uses exists; jumps of `pending` have no target yet, and a TESTSET in front of one
      has no register. */
  predicate InstrSound(g: Gen, pending: set<int>, end: int, nups: int, k: int)
    requires 0 <= k < |g.code|
  {
    match g.code[k]
    case Move(a, b) => Register(g, a) && Register(g, b)
    case LoadK(a, bx) => Register(g, a) && 0 <= bx < |g.k|
    case LoadBool(a, _, _) => Register(g, a)
    case GetUpval(a, b) => Register(g, a) && 0 <= b < nups
    case Not(a, b) => Register(g, a) && Register(g, b)
    case Jmp(sbx) => JumpLands(g, pending, end, k, sbx)
    case Compare(_, _, b, c) => RKExists(g, b) && RKExists(g, c)
    case Test(a, _) => Register(g, a)
    case TestSet(a, b, _) => Register(g, b) && (Register(g, a) || k + 1 in pending)
    case Return(a, b) => Register(g, a) && 1 <= b <= 2
  }

  /** Sound code, of which jumps lead to `end` at most. */
  ghost predicate CodeSound(g: Gen, pending: set<int>, end: int, nups: int) {
    && 2 <= g.maxstack && end <= |g.code| && (!g.err ==> |g.k| <= MAXARG_Bx)
    && forall k {:trigger InstrSound(g, pending, end, nups, k)} :: 0 <= k < |g.code| ==>
         InstrSound(g, pending, end, nups, k)
  }

  /** One instruction stays as it is, while there may be more of everything. */
  lemma SameInstr(g: Gen, pending: set<int>, end: int, g': Gen, pending': set<int>, end': int, nups: int, k: int)
    requires 0 <= k < |g.code| && k < |g'.code| && g'.code[k] == g.code[k] && InstrSound(g, pending, end, nups, k)
    requires g.maxstack <= g'.maxstack && |g.k| <= |g'.k| && end <= end' && pending <= pending' && (g.err ==> g'.err)
    ensures InstrSound(g', pending', end', nups, k)
  {
  }

  lemma PatchSound(g: Gen, pending: set<int>, end: int, nups: int, s: seq<int>, vtarget: int, reg: int, dtarget: int)
    requires CodeSound(g, pending, end, nups) && (reg == NO_REG || Register(g, reg))
    requires 0 <= vtarget <= end && (0 <= dtarget <= end || !NeedValue(g.code, s))
    ensures CodeSound(PatchList(g, s, vtarget, reg, dtarget), pending - Elems(s), end, nups)
  {
    var g' := PatchList(g, s, vtarget, reg, dtarget);
    forall k | 0 <= k < |g'.code|
      ensures InstrSound(g', pending - Elems(s), end, nups, k)
    {
      assert InstrSound(g, pending, end, nups, k);
      assert g'.code[k] == PatchedAt(g.code, s, vtarget, reg, dtarget, k);
      if k in s && !g'.err { assert !Far(k, if IsValueJump(g.code, k) then vtarget else dtarget); }
    }
  }

  lemma EmitSound(g: Gen, pending: set<int>, end: int, nups: int, i: Instr)
    requires CodeSound(g, pending + Elems(g.held), end, nups)
    requires InstrSound(g.(code := g.code + [i]), pending, |g.code|, nups, |g.code|)
    ensures CodeSound(Emit(g, i), pending, |g.code|, nups)
  {
    var g1 := PatchList(g, g.held, |g.code|, NO_REG, |g.code|);
    var p := pending + Elems(g.held);
    assert CodeSound(g, p, |g.code|, nups) by {
      forall k | 0 <= k < |g.code| ensures InstrSound(g, p, |g.code|, nups, k) {
        assert InstrSound(g, p, end, nups, k);
        SameInstr(g, p, end, g, p, |g.code|, nups, k);
      }
    }
    PatchSound(g, p, |g.code|, nups, g.held, |g.code|, NO_REG, |g.code|);
    var g' := Emit(g, i);
    forall k | 0 <= k < |g'.code|
      ensures InstrSound(g', pending, |g.code|, nups, k)
    {
      if k < |g.code| {
        assert InstrSound(g1, p - Elems(g.held), |g.code|, nups, k);
        SameInstr(g1, p - Elems(g.held), |g.code|, g', pending, |g.code|, nups, k);
      } else {
        SameInstr(g.(code := g.code + [i]), pending, |g.code|, g', pending, |g.code|, nups, k);
      }
    }
  }

  /** More registers and constants leave the same code sound. */
  lemma MoreSound(g: Gen, g': Gen, pending: set<int>, end: int, nups: int)
    requires CodeSound(g, pending, end, nups) && g'.code == g.code
    requires g.maxstack <= g'.maxstack && |g.k| <= |g'.k| && (g.err ==> g'.err) && (!g'.err ==> |g'.k| <= MAXARG_Bx)
    ensures CodeSound(g', pending, end, nups)
  {
    forall k | 0 <= k < |g'.code| ensures InstrSound(g', pending, end, nups, k) {
      assert InstrSound(g, pending, end, nups, k);
      SameInstr(g, pending, end, g', pending, end, nups, k);
    }
  }

  /** More jumps may be pending, and jumps may lead further. */
  lemma LooserSound(g: Gen, pending: set<int>, end: int, pending': set<int>, end': int, nups: int)
    requires CodeSound(g, pending, end, nups) && pending <= pending' && end <= end' <= |g.code|
    ensures CodeSound(g, pending', end', nups)
  {
    forall k | 0 <= k < |g.code| ensures InstrSound(g, pending', end', nups, k) {
      assert InstrSound(g, pending, end, nups, k);
      SameInstr(g, pending, end, g, pending', end', nups, k);
    }
  }

  lemma PutSound(g: Gen, pending: set<int>, end: int, nups: int, i: int, x: Instr)
    requires CodeSound(g, pending, end, nups)
    requires 0 <= i < |g.code| ==> InstrSound(g.(code := Put(g.code, i, x)), pending, end, nups, i)
    ensures CodeSound(g.(code := Put(g.code, i, x)), pending, end, nups)
  {
    var g' := g.(code := Put(g.code, i, x));
    forall k | 0 <= k < |g'.code| ensures InstrSound(g', pending, end, nups, k) {
      if k != i {
        assert InstrSound(g, pending, end, nups, k);
        SameInstr(g, pending, end, g', pending, end, nups, k);
      }
    }
  }

  lemma ConcatSound(g: Gen, pending: set<int>, end: int, nups: int, s: seq<int>, t: seq<int>)
    requires CodeSound(g, pending, end, nups) && Elems(s) <= pending
    ensures CodeSound(Concat(g, s, t), pending, end, nups)
    ensures Concat(g, s, t) == g.(code := Concat(g, s, t).code, err := Concat(g, s, t).err)
    ensures |Concat(g, s, t).code| == |g.code| && (g.err ==> Concat(g, s, t).err)
  {
    var g' := Concat(g, s, t);
    MoreSound(g, g.(err := g'.err), pending, end, nups);
    if s != [] && t != [] {
      assert s[|s|-1] in Elems(s);
      PutSound(g.(err := g'.err), pending, end, nups, s[|s|-1], Jmp(t[0] - (s[|s|-1] + 1)));
    }
  }

  lemma EmitJumpSound(g: Gen, pending: set<int>, end: int, nups: int)
    requires CodeSound(g, pending + Elems(g.held), end, nups)
    ensures var (g', s) := EmitJump(g); CodeSound(g', pending + Elems(s), |g.code|, nups)
  {
    hide Emit, Concat, CodeSound;
    var p := pending + Elems([|g.code|] + g.held);
    var g0 := g.(held := []);
    var g1 := Emit(g0, Jmp(NO_JUMP));
    assert CodeSound(g0, p + Elems([]), |g.code|, nups) by {
      assert pending + Elems(g.held) <= p + Elems([]);
      SoundEnd(g, pending + Elems(g.held), end, nups);
      LooserSound(g, pending + Elems(g.held), end, p + Elems([]), |g.code|, nups);
      SoundEnd(g, p + Elems([]), |g.code|, nups);
      MoreSound(g, g0, p + Elems([]), |g.code|, nups);
    }
    assert |g.code| in p by { assert |g.code| in [|g.code|] + g.held; }
    EmitSound(g0, p, |g.code|, nups, Jmp(NO_JUMP));
    assert Elems([|g.code|]) <= p;
    ConcatSound(g1, p, |g.code|, nups, [|g.code|], g.held);
  }

  lemma SoundEnd(g: Gen, pending: set<int>, end: int, nups: int)
    requires CodeSound(g, pending, end, nups)
    ensures end <= |g.code| && 2 <= g.maxstack && (!g.err ==> |g.k| <= MAXARG_Bx)
  {
  }

  /** A test and its jump: a TESTSET may have no register yet. */
  predicate TestSound(g: Gen, nups: int, i: Instr) {
    match i
    case Compare(_, _, b, c) => RKExists(g, b) && RKExists(g, c)
    case Test(a, _) => Register(g, a)
    case TestSet(_, b, _) => Register(g, b)
    case _ => false
  }

  lemma CondJumpSound(g: Gen, pending: set<int>, end: int, nups: int, i: Instr)
    requires CodeSound(g, pending + Elems(g.held), end, nups) && TestSound(g, nups, i)
    ensures var (g', s) := CondJump(g, i); CodeSound(g', pending + Elems(s), |g.code| + 1, nups)
  {
    hide Emit, EmitJump, CodeSound;
    var p := pending + {|g.code| + 1};
    CondJumpHead(g, i);
    assert Elems([|g.code| + 1]) == {|g.code| + 1};
    SoundEnd(g, pending + Elems(g.held), end, nups);
    LooserSound(g, pending + Elems(g.held), end, p + Elems(g.held), end, nups);
    EmitSound(g, p, end, nups, i);
    var g1 := Emit(g, i);
    EmitShape(g, i);
    assert p + Elems(g1.held) == p;
    EmitJumpSound(g1, p, |g.code|, nups);
    assert p + Elems([|g.code| + 1]) == p;
  }

  lemma EmitShape(g: Gen, i: Instr)
    ensures Emit(g, i).held == [] && |Emit(g, i).code| == |g.code| + 1 && Emit(g, i).maxstack == g.maxstack
    ensures Emit(g, i).k == g.k && Emit(g, i).h == g.h && Emit(g, i).freereg == g.freereg
    ensures Emit(g, i).nactvar == g.nactvar
  {
  }

  // ----- sound expressions -----

  /** The jumps of e without a target. */
  function Open(g: Gen, e: Exp, ctx: set<int>): set<int> {
    Pending(g, e) + ctx + if e.k.VJMP? then {e.info} else {}
  }

  /** Jumps lead to the instruction at the end of the code at most, and past it only if it needs no change. */
  function End(g: Gen, e: Exp): int {
    if e.k.VRELOCABLE? then |g.code| - 1 else |g.code|
  }

  predicate PlaceSound(g: Gen, e: Exp, nups: int) {
    match e.k
    case VLOCAL => Register(g, e.info)
    case VNONRELOC => Register(g, e.info)
    case VK => 0 <= e.info < |g.k|
    case VUPVAL => 0 <= e.info < nups
    case VRELOCABLE => e.info == |g.code| - 1 >= 0 && (g.code[e.info].Not? || g.code[e.info].GetUpval?)
    case VJMP => 1 <= e.info == |g.code| - 1 && g.code[e.info-1].Compare?
    case _ => true
  }

  ghost predicate Sound(g: Gen, e: Exp, nups: int, ctx: set<int>) {
    CodeSound(g, Open(g, e, ctx), End(g, e), nups) && PlaceSound(g, e, nups)
  }

  lemma DischargeVarsSound(g: Gen, e: Exp, nups: int, ctx: set<int>)
    requires Sound(g, e, nups, ctx)
    ensures var (g', e') := DischargeVars(g, e); Sound(g', e', nups, ctx) && e'.ts == e.ts && e'.fs == e.fs
  {
    hide Emit, CodeSound;
    if e.k.VUPVAL? {
      assert Open(g, e, ctx) == Lists(e) + ctx + Elems(g.held);
      EmitUpval(g, e, nups, ctx);
    }
  }

  lemma EmitUpval(g: Gen, e: Exp, nups: int, ctx: set<int>)
    requires CodeSound(g, Lists(e) + ctx + Elems(g.held), |g.code|, nups) && 0 <= e.info < nups
    ensures Sound(Emit(g, GetUpval(0, e.info)), e.(k := VRELOCABLE, info := |g.code|), nups, ctx)
  {
    EmitSound(g, Lists(e) + ctx, |g.code|, nups, GetUpval(0, e.info));
    var g', e' := Emit(g, GetUpval(0, e.info)), e.(k := VRELOCABLE, info := |g.code|);
    assert Open(g', e', ctx) == Lists(e) + ctx;
  }

  /** The value of e is put into reg by one instruction. */
  lemma LoadSound(g: Gen, e: Exp, nups: int, ctx: set<int>, i: Instr, reg: int)
    requires CodeSound(g, Lists(e) + ctx + Elems(g.held), |g.code|, nups) && Register(g, reg)
    requires InstrSound(g.(code := g.code + [i]), {}, |g.code|, nups, |g.code|) && !i.Jmp? && !i.TestSet?
    ensures Sound(Emit(g, i), e.(k := VNONRELOC, info := reg), nups, ctx)
  {
    hide CodeSound;
    var g', e' := Emit(g, i), e.(k := VNONRELOC, info := reg);
    EmitSound(g, Lists(e) + ctx, |g.code|, nups, i);
    EmitShape(g, i);
    assert Open(g', e', ctx) == Lists(e) + ctx;
    LooserSound(g', Lists(e) + ctx, |g.code|, Lists(e) + ctx, |g'.code|, nups);
  }

  lemma RelocateSound(g: Gen, e: Exp, nups: int, ctx: set<int>, reg: int)
    requires Sound(g, e, nups, ctx) && e.k.VRELOCABLE? && Register(g, reg)
    ensures Sound(g.(code := Put(g.code, e.info, SetA(InstrAt(g.code, e.info), reg))),
                  e.(k := VNONRELOC, info := reg), nups, ctx)
  {
    var p, x := Open(g, e, ctx), SetA(InstrAt(g.code, e.info), reg);
    assert InstrSound(g, p, End(g, e), nups, e.info);
    PutSound(g, p, End(g, e), nups, e.info, x);
    var g', e' := g.(code := Put(g.code, e.info, x)), e.(k := VNONRELOC, info := reg);
    LooserSound(g', p, End(g, e), p, |g'.code|, nups);
    assert Open(g', e', ctx) == p;
  }

  lemma AddKSound(g: Gen, pending: set<int>, end: int, nups: int, v: Value)
    requires CodeSound(g, pending, end, nups) && ConstantsOk(g.k, g.h)
    ensures var (g', i) := AddK(g, v); CodeSound(g', pending, end, nups) && 0 <= i < |g'.k|
  {
    MoreSound(g, AddK(g, v).0, pending, end, nups);
  }

  lemma Discharge2RegSound(g: Gen, e: Exp, nups: int, ctx: set<int>, reg: int)
    requires Sound(g, e, nups, ctx) && Shape(g, e) && Register(g, reg)
    ensures var (g', e') := Discharge2Reg(g, e, reg); Sound(g', e', nups, ctx)
  {
    hide Emit, CodeSound, AddK, ConstantsOk, InstrSound;
    var (g1, e1) := DischargeVars(g, e);
    DischargeVarsSound(g, e, nups, ctx);
    DischargeVarsWithin(g, e);
    assert Open(g1, e1, ctx) == Lists(e1) + ctx + Elems(g1.held) || e1.k.VJMP?;
    SameRegisters(g, e);
    match e1.k {
      case VTRUE => PlaceLiteralSound(g1, e1, nups, ctx, true, reg);
      case VFALSE => PlaceLiteralSound(g1, e1, nups, ctx, false, reg);
      case VK => PlaceConstantSound(g1, e1, nups, ctx, e1.info, reg);
      case VKNUM =>
        AddKSound(g1, Lists(e1) + ctx + Elems(g1.held), |g1.code|, nups, e1.nval);
        AddKWithin(g1, e1.nval);
        PlaceConstantSound(AddK(g1, e1.nval).0, e1, nups, ctx, AddK(g1, e1.nval).1, reg);
      case VRELOCABLE => RelocateSound(g1, e1, nups, ctx, reg);
      case VNONRELOC => PlaceRegisterSound(g1, e1, nups, ctx, reg);
      case _ =>
    }
  }

  lemma SameRegisters(g: Gen, e: Exp)
    ensures DischargeVars(g, e).0.maxstack == g.maxstack
  {
  }

  lemma PlaceLiteralSound(g: Gen, e: Exp, nups: int, ctx: set<int>, b: bool, reg: int)
    requires CodeSound(g, Lists(e) + ctx + Elems(g.held), |g.code|, nups) && Register(g, reg)
    ensures Sound(Emit(g, LoadBool(reg, b, false)), e.(k := VNONRELOC, info := reg), nups, ctx)
  {
    hide Emit, CodeSound, Sound;
    LoadSound(g, e, nups, ctx, LoadBool(reg, b, false), reg);
  }

  lemma PlaceConstantSound(g: Gen, e: Exp, nups: int, ctx: set<int>, i: int, reg: int)
    requires CodeSound(g, Lists(e) + ctx + Elems(g.held), |g.code|, nups) && Register(g, reg) && 0 <= i < |g.k|
    ensures Sound(Emit(g, LoadK(reg, i)), e.(k := VNONRELOC, info := reg), nups, ctx)
  {
    hide Emit, CodeSound, Sound;
    LoadSound(g, e, nups, ctx, LoadK(reg, i), reg);
  }

  lemma PlaceRegisterSound(g: Gen, e: Exp, nups: int, ctx: set<int>, reg: int)
    requires CodeSound(g, Lists(e) + ctx + Elems(g.held), |g.code|, nups) && Register(g, reg) && Register(g, e.info)
    requires e.k.VNONRELOC?
    ensures Sound(if reg != e.info then Emit(g, Move(reg, e.info)) else g, e.(k := VNONRELOC, info := reg), nups, ctx)
  {
    hide Emit, CodeSound;
    if reg != e.info {
      LoadSound(g, e, nups, ctx, Move(reg, e.info), reg);
    } else {
      assert Open(g, e, ctx) == Lists(e) + ctx + Elems(g.held);
      assert e.(k := VNONRELOC, info := reg) == e;
    }
  }

  lemma ReserveSound(g: Gen, e: Exp, nups: int, ctx: set<int>, n: nat)
    requires Sound(g, e, nups, ctx)
    ensures Sound(ReserveRegs(g, n), e, nups, ctx)
  {
    hide CodeSound;
    var g' := ReserveRegs(g, n);
    SoundEnd(g, Open(g, e, ctx), End(g, e), nups);
    MoreSound(g, g', Open(g, e, ctx), End(g, e), nups);
    assert Open(g', e, ctx) == Open(g, e, ctx);
  }

  lemma Discharge2AnyRegSound(b: int, g: Gen, e: Exp, nups: int, ctx: set<int>)
    requires Sound(g, e, nups, ctx) && Fits(b, g, e) && !e.k.VJMP?
    ensures var (g', e') := Discharge2AnyReg(g, e); Sound(g', e', nups, ctx)
  {
    hide Discharge2Reg, Sound, ConstantsOk;
    if !e.k.VNONRELOC? {
      ReserveSound(g, e, nups, ctx, 1);
      var g1 := ReserveRegs(g, 1);
      Discharge2RegSound(g1, e, nups, ctx, b);
    }
  }

  lemma LoadTailsSound(g: Gen, pending: set<int>, nups: int, jump: bool, reg: int)
    requires CodeSound(g, pending + Elems(g.held), |g.code|, nups) && Register(g, reg)
    ensures var (g', pf, pt) := LoadTails(g, jump, reg);
            CodeSound(g', pending + Elems(g'.held), |g'.code|, nups)
  {
    hide EmitJump, Emit, CodeSound, Concat;
    var (g1, fj) := if jump then EmitJump(g) else (g, []);
    var p := pending + Elems(fj);
    if jump {
      EmitJumpSound(g, pending, |g.code|, nups);
      JumpShape(g);
      LooserSound(g1, p, |g.code|, p + Elems(g1.held), |g1.code|, nups);
    } else {
      assert p + Elems(g1.held) == pending + Elems(g.held);
    }
    EmitSound(g1, p, |g1.code|, nups, LoadBool(reg, false, true));
    var g2 := Emit(g1, LoadBool(reg, false, true));
    EmitShape(g1, LoadBool(reg, false, true));
    LooserSound(g2, p, |g1.code|, p + Elems(g2.held), |g2.code|, nups);
    EmitSound(g2, p, |g2.code|, nups, LoadBool(reg, true, false));
    var g3 := Emit(g2, LoadBool(reg, true, false));
    EmitShape(g2, LoadBool(reg, true, false));
    LooserSound(g3, p, |g2.code|, p, |g3.code|, nups);
    assert g3.held == [] && Elems([]) <= p;
    ConcatSound(g3, p, |g3.code|, nups, g3.held, fj);
    var g4 := PatchToHere(g3, fj);
    assert g4.held == fj;
    SoundEnd(Concat(g3, g3.held, fj), p, |g3.code|, nups);
    MoreSound(Concat(g3, g3.held, fj), PatchToHere(g3, fj), p, |g3.code|, nups);
  }

  lemma JumpShape(g: Gen)
    ensures var (g', s) := EmitJump(g);
            && g'.held == [] && |g'.code| == |g.code| + 1 && g'.maxstack == g.maxstack && s == [|g.code|] + g.held
            && g'.freereg == g.freereg && g'.k == g.k && g'.h == g.h && g'.nactvar == g.nactvar
  {
  }

  /** All jumps of both lists get their targets. */
  lemma PatchValuesSound(g: Gen, nups: int, ctx: set<int>, ts: seq<int>, fs: seq<int>, jump: bool, reg: int)
    requires CodeSound(g, Elems(ts) + Elems(fs) + ctx + Elems(g.held), |g.code|, nups) && Register(g, reg)
    requires Disjoint(ts, fs) && Jumps(g.code, fs) && Inside(|g.code|, g.held)
    ensures var g' := PatchValues(g, ts, fs, jump, reg);
            CodeSound(g', ctx + Elems(g'.held), |g'.code|, nups) && g'.maxstack == g.maxstack
  {
    hide LoadTails, NeedValue, CodeSound, Patched, PatchedFar;
    if ts == [] && fs == [] {
      assert Elems(ts) + Elems(fs) + ctx + Elems(g.held) == ctx + Elems(g.held);
    } else {
      var p := Elems(ts) + Elems(fs) + ctx;
      var need := NeedValue(g.code, ts) || NeedValue(g.code, fs);
      LoadTailsSound(g, p, nups, jump, reg);
      LoadTailsWithin(g, jump, reg);
      TailsShape(g, jump, reg);
      var (g2, pf, pt) := if need then LoadTails(g, jump, reg) else (g, NO_JUMP, NO_JUMP);
      var final := |g2.code|;
      PatchSound(g2, p + Elems(g2.held), final, nups, fs, final, reg, pf);
      var g3 := PatchList(g2, fs, final, reg, pf);
      if !need { StillNoNeed(g2, ts, fs, final, reg, pf); }
      PatchSound(g3, p + Elems(g2.held) - Elems(fs), final, nups, ts, final, reg, pt);
      var g4 := PatchList(g3, ts, final, reg, pt);
      assert g4.held == g2.held;
      LooserSound(g4, p + Elems(g2.held) - Elems(fs) - Elems(ts), final, ctx + Elems(g4.held), final, nups);
    }
  }

  lemma TailsShape(g: Gen, jump: bool, reg: int)
    ensures LoadTails(g, jump, reg).0.maxstack == g.maxstack
  {
    hide EmitJump, Emit, Concat;
    var (g1, fj) := if jump then EmitJump(g) else (g, []);
    if jump { JumpShape(g); }
    EmitShape(g1, LoadBool(reg, false, true));
    var g2 := Emit(g1, LoadBool(reg, false, true));
    EmitShape(g2, LoadBool(reg, true, false));
    ConcatShape(Emit(g2, LoadBool(reg, true, false)), [], fj);
  }

  lemma ConcatShape(g: Gen, s: seq<int>, t: seq<int>)
    ensures Concat(g, s, t) == g.(code := Concat(g, s, t).code, err := Concat(g, s, t).err)
    ensures |Concat(g, s, t).code| == |g.code| && (g.err ==> Concat(g, s, t).err)
  {
  }

  lemma StillNoNeed(g: Gen, ts: seq<int>, fs: seq<int>, vtarget: int, reg: int, dtarget: int)
    requires !NeedValue(g.code, ts) && Disjoint(ts, fs) && Jumps(g.code, fs)
    ensures !NeedValue(PatchList(g, fs, vtarget, reg, dtarget).code, ts)
  {
    var c := PatchList(g, fs, vtarget, reg, dtarget).code;
    forall j | j in ts ensures IsValueJump(c, j) {
      assert IsValueJump(g.code, j) && j !in fs && j - 1 !in fs;
      assert c[j-1] == PatchedAt(g.code, fs, vtarget, reg, dtarget, j - 1);
    }
  }

  /** Whatever is done to a jump, it stays a jump. */
  lemma EmitKeepsJumps(g: Gen, i: Instr, s: seq<int>)
    requires Jumps(g.code, s)
    ensures Jumps(Emit(g, i).code, s)
  {
    var c := Patched(g.code, g.held, |g.code|, NO_REG, |g.code|);
    forall j | j in s ensures 0 <= j < |g.code| && Emit(g, i).code[j].Jmp? {
      assert c[j] == PatchedAt(g.code, g.held, |g.code|, NO_REG, |g.code|, j);
    }
  }

  lemma DischargeKeepsJumps(g: Gen, e: Exp, reg: int, s: seq<int>)
    requires Jumps(g.code, s)
    ensures Jumps(DischargeVars(g, e).0.code, s) && Jumps(Discharge2Reg(g, e, reg).0.code, s)
  {
    hide Emit, AddK;
    var (g1, e1) := DischargeVars(g, e);
    if e.k.VUPVAL? { EmitKeepsJumps(g, GetUpval(0, e.info), s); }
    AddKKeepsCode(g1, e1.nval);
    match e1.k {
      case VTRUE => EmitKeepsJumps(g1, LoadBool(reg, true, false), s);
      case VFALSE => EmitKeepsJumps(g1, LoadBool(reg, false, false), s);
      case VK => EmitKeepsJumps(g1, LoadK(reg, e1.info), s);
      case VKNUM => EmitKeepsJumps(AddK(g1, e1.nval).0, LoadK(reg, AddK(g1, e1.nval).1), s);
      case VNONRELOC => EmitKeepsJumps(g1, Move(reg, e1.info), s);
      case _ =>
    }
  }

  lemma AddKKeepsCode(g: Gen, v: Value)
    ensures AddK(g, v).0.code == g.code
  {
  }

  /** The lists of an expression whose jumps are about to be patched. */
  ghost predicate ListsApart(g: Gen, e: Exp) {
    Disjoint(e.ts, e.fs) && Jumps(g.code, e.ts) && Jumps(g.code, e.fs) && (e.k.VJMP? ==> e.info !in e.fs)
  }

  lemma CloseListsSound(g: Gen, e: Exp, nups: int, ctx: set<int>, reg: int)
    requires Sound(g, e, nups, ctx) && ListsApart(g, e) && ListsInside(g, e) && Register(g, reg) && !e.k.VRELOCABLE?
    ensures var g' := CodeGenSpec.CloseLists(g, e, reg);
            CodeSound(g', ctx + Elems(g'.held), |g'.code|, nups) && g'.maxstack == g.maxstack
  {
    hide PatchValues, Concat, CodeSound;
    if e.k.VJMP? {
      var ts := e.ts + [e.info];
      var g1 := Concat(g, e.ts, [e.info]);
      ConcatSound(g, Open(g, e, ctx), |g.code|, nups, e.ts, [e.info]);
      assert Open(g, e, ctx) == Elems(ts) + Elems(e.fs) + ctx + Elems(g1.held);
      ConcatKeepsJumps(g, e.ts, [e.info], e.fs);
      PatchValuesSound(g1, nups, ctx, ts, e.fs, false, reg);
    } else {
      assert Open(g, e, ctx) == Elems(e.ts) + Elems(e.fs) + ctx + Elems(g.held);
      PatchValuesSound(g, nups, ctx, e.ts, e.fs, true, reg);
    }
  }

  lemma ConcatKeepsJumps(g: Gen, s: seq<int>, t: seq<int>, u: seq<int>)
    requires Jumps(g.code, u)
    ensures Jumps(Concat(g, s, t).code, u)
  {
  }

  lemma Exp2RegSound(g: Gen, e: Exp, nups: int, ctx: set<int>, reg: int)
    requires Sound(g, e, nups, ctx) && ListsApart(g, e) && Shape(g, e) && Register(g, reg)
    ensures var (g', e') := Exp2Reg(g, e, reg); Sound(g', e', nups, ctx)
  {
    hide Discharge2Reg, CodeGenSpec.CloseLists, CodeSound, ConstantsOk;
    Discharge2RegSound(g, e, nups, ctx, reg);
    Discharge2RegWithin(g, e, reg);
    DischargeKeepsJumps(g, e, reg, e.ts);
    DischargeKeepsJumps(g, e, reg, e.fs);
    var (g1, e1) := Discharge2Reg(g, e, reg);
    GrowsStack(g, e, reg);
    CloseListsSound(g1, e1, nups, ctx, reg);
    var (g', e') := Exp2Reg(g, e, reg);
    assert Open(g', e', ctx) == ctx + Elems(g'.held);
  }

  lemma GrowsStack(g: Gen, e: Exp, reg: int)
    ensures Discharge2Reg(g, e, reg).0.maxstack == g.maxstack
  {
    hide Emit, AddK;
    var g1, e1 := DischargeVars(g, e).0, DischargeVars(g, e).1;
    if e.k.VUPVAL? { EmitShape(g, GetUpval(0, e.info)); }
    var (g2, i) := AddK(g1, e1.nval);
    AddKStack(g1, e1.nval);
    EmitShape(g1, LoadBool(reg, true, false));
    EmitShape(g1, LoadBool(reg, false, false));
    EmitShape(g1, LoadK(reg, e1.info));
    EmitShape(g2, LoadK(reg, i));
    EmitShape(g1, Move(reg, e1.info));
  }

  lemma AddKStack(g: Gen, v: Value)
    ensures AddK(g, v).0.maxstack == g.maxstack
  {
  }

  lemma FreeSound(g: Gen, e: Exp, nups: int, ctx: set<int>)
    requires Sound(g, e, nups, ctx)
    ensures Sound(FreeExp(g, e), e, nups, ctx)
  {
    hide CodeSound;
    var g' := FreeExp(g, e);
    SoundEnd(g, Open(g, e, ctx), End(g, e), nups);
    MoreSound(g, g', Open(g, e, ctx), End(g, e), nups);
    assert Open(g', e, ctx) == Open(g, e, ctx);
  }

  lemma Exp2NextRegSound(b: int, g: Gen, e: Exp, nups: int, ctx: set<int>)
    requires Sound(g, e, nups, ctx) && ListsApart(g, e) && Fits(b, g, e)
    ensures var (g', e') := Exp2NextReg(g, e); Sound(g', e', nups, ctx)
  {
    hide DischargeVars, Exp2Reg, ConstantsOk, Sound;
    DischargeVarsWithin(g, e);
    DischargeVarsSound(g, e, nups, ctx);
    DischargeKeepsJumps(g, e, 0, e.ts);
    DischargeKeepsJumps(g, e, 0, e.fs);
    var (g1, e1) := DischargeVars(g, e);
    StillJump(g, e);
    FreeSound(g1, e1, nups, ctx);
    var g2 := FreeExp(g1, e1);
    ReserveSound(g2, e1, nups, ctx, 1);
    Exp2RegSound(ReserveRegs(g2, 1), e1, nups, ctx, b);
  }

  lemma StillJump(g: Gen, e: Exp)
    ensures var e' := DischargeVars(g, e).1; e'.k.VJMP? ==> e == e'
  {
  }

  lemma Exp2AnyRegSound(b: int, g: Gen, e: Exp, nups: int, ctx: set<int>)
    requires Sound(g, e, nups, ctx) && ListsApart(g, e) && Fits(b, g, e)
    ensures var (g', e') := Exp2AnyReg(g, e); Sound(g', e', nups, ctx)
  {
    hide DischargeVars, Exp2Reg, Exp2NextReg, ConstantsOk, CodeSound;
    DischargeVarsWithin(g, e);
    DischargeVarsSound(g, e, nups, ctx);
    DischargeKeepsJumps(g, e, 0, e.ts);
    DischargeKeepsJumps(g, e, 0, e.fs);
    StillJump(g, e);
    var (g1, e1) := DischargeVars(g, e);
    if InRegister(e1) {
    } else if e1.k.VNONRELOC? && e1.info >= g1.nactvar {
      Exp2RegSound(g1, e1, nups, ctx, e1.info);
    } else {
      Exp2NextRegSound(b, g1, e1, nups, ctx);
    }
  }

  lemma ToOperandSound(b: int, g: Gen, e: Exp, nups: int, ctx: set<int>)
    requires Sound(g, e, nups, ctx) && Fits(b, g, e) && e.ts == [] && e.fs == []
    ensures var (g', e', x) := ToOperand(g, e); Sound(g', e', nups, ctx) && RKExists(g', x)
  {
    hide Exp2AnyReg, AddK, ConstantsOk, CodeSound;
    if (e.k.VTRUE? || e.k.VFALSE? || e.k.VKNUM?) && |g.k| <= MAXINDEXRK {
      var v := if e.k.VKNUM? then e.nval else Boolean(e.k.VTRUE?);
      AddKSound(g, Open(g, e, ctx), End(g, e), nups, v);
      AddKWithin(g, v);
      assert Open(AddK(g, v).0, e.(k := VK, info := AddK(g, v).1), ctx) == Open(g, e, ctx);
    } else if e.k.VK? && e.info <= MAXINDEXRK {
    } else {
      Exp2AnyRegSound(b, g, e, nups, ctx);
      Exp2AnyRegWithin(b, g, e);
    }
  }

  lemma Exp2RKSound(b: int, g: Gen, e: Exp, nups: int, ctx: set<int>)
    requires Sound(g, e, nups, ctx) && ListsApart(g, e) && Fits(b, g, e)
    ensures var (g', e', x) := Exp2RK(g, e); Sound(g', e', nups, ctx) && RKExists(g', x)
  {
    hide DischargeVars, ToOperand, Exp2AnyReg, Sound, ConstantsOk;
    if e.ts == [] && e.fs == [] {
      DischargeVarsWithin(g, e);
      DischargeVarsSound(g, e, nups, ctx);
    } else {
      Exp2AnyRegWithin(b, g, e);
      Exp2AnyRegSound(b, g, e, nups, ctx);
    }
    var (g1, e1) := Exp2Val(g, e);
    ToOperandSound(b, g1, e1, nups, ctx);
  }

  // ----- branches -----

  /** The code behind a branch: the jumps of the lists, those on hold and the new ones are open. */
  ghost predicate BranchSound(g: Gen, e: Exp, pc: seq<int>, nups: int, ctx: set<int>) {
    CodeSound(g, Pending(g, e) + ctx + Elems(pc), |g.code|, nups)
  }

  lemma JumpOnCondSound(b: int, g: Gen, e: Exp, cond: bool, nups: int, ctx: set<int>)
    requires Sound(g, e, nups, ctx) && Fits(b, g, e) && !e.k.VJMP? && !e.k.VLOCAL? && !e.k.VUPVAL?
    ensures var (g', e', pc) := JumpOnCond(g, e, cond); BranchSound(g', e', pc, nups, ctx)
  {
    hide Discharge2AnyReg, CondJump, CodeSound, ConstantsOk;
    if e.k.VRELOCABLE? && InstrAt(g.code, e.info).Not? && |g.code| > 0 {
      NotBranch(g, e, cond, nups, ctx);
    } else {
      Discharge2AnyRegWithin(b, g, e);
      Discharge2AnyRegSound(b, g, e, nups, ctx);
      var (g1, e1) := Discharge2AnyReg(g, e);
      var g2 := FreeExp(g1, e1);
      FreeSound(g1, e1, nups, ctx);
      assert Open(g2, e1, ctx) == Pending(g2, e1) + ctx;
      TestBranch(g2, e1, TestSet(NO_REG, e1.info, cond), |g2.code|, nups, ctx);
    }
  }

  lemma TestBranch(g: Gen, e: Exp, i: Instr, end: int, nups: int, ctx: set<int>)
    requires CodeSound(g, Pending(g, e) + ctx, end, nups) && TestSound(g, nups, i)
    ensures var (g', pc) := CondJump(g, i); BranchSound(g', e, pc, nups, ctx)
  {
    hide CodeSound, CondJump;
    assert Pending(g, e) + ctx == Lists(e) + ctx + Elems(g.held);
    CondJumpSound(g, Lists(e) + ctx, end, nups, i);
    CondJumpShape(g, i);
    var (g', pc) := CondJump(g, i);
    assert Pending(g', e) + ctx + Elems(pc) == Lists(e) + ctx + Elems(pc);
    LooserSound(g', Lists(e) + ctx + Elems(pc), |g.code| + 1, Pending(g', e) + ctx + Elems(pc), |g'.code|, nups);
  }

  lemma CondJumpShape(g: Gen, i: Instr)
    ensures var (g', pc) := CondJump(g, i);
            && g'.held == [] && |g'.code| == |g.code| + 2 && g'.maxstack == g.maxstack && g'.k == g.k
            && pc == [|g.code| + 1]
  {
    hide Emit, EmitJump;
    EmitShape(g, i);
    JumpShape(Emit(g, i));
  }

  /** The NOT at the end is taken back. */
  lemma NotBranch(g: Gen, e: Exp, cond: bool, nups: int, ctx: set<int>)
    requires Sound(g, e, nups, ctx) && e.k.VRELOCABLE? && g.code[e.info].Not?
    ensures var (g', e', pc) := JumpOnCond(g, e, cond); BranchSound(g', e', pc, nups, ctx)
  {
    hide CondJump;
    var g1 := g.(code := g.code[..|g.code|-1]);
    var i := Test(g.code[e.info].b, !cond);
    assert InstrSound(g, Open(g, e, ctx), End(g, e), nups, e.info);
    assert Open(g, e, ctx) == Pending(g1, e) + ctx;
    forall k | 0 <= k < |g1.code| ensures InstrSound(g1, Pending(g1, e) + ctx, |g1.code|, nups, k) {
      assert InstrSound(g, Open(g, e, ctx), End(g, e), nups, k);
      SameInstr(g, Open(g, e, ctx), End(g, e), g1, Pending(g1, e) + ctx, |g1.code|, nups, k);
    }
    TestBranch(g1, e, i, |g1.code|, nups, ctx);
  }

  lemma LiteralJumpSound(g: Gen, e: Exp, nups: int, ctx: set<int>)
    requires Sound(g, e, nups, ctx) && (e.k.VTRUE? || e.k.VFALSE?)
    ensures var (g', e', pc) := LiteralJump(g, e); BranchSound(g', e', pc, nups, ctx)
  {
    hide EmitJump, CodeSound, ValueJumps;
    var g1 := g.(mixed := g.mixed + ValueJumps(g.code, g.held, e.k.VTRUE?));
    SoundEnd(g, Open(g, e, ctx), |g.code|, nups);
    MoreSound(g, g1, Open(g, e, ctx), |g.code|, nups);
    assert Open(g, e, ctx) == Lists(e) + ctx + Elems(g1.held);
    EmitJumpSound(g1, Lists(e) + ctx, |g.code|, nups);
    JumpShape(g1);
    var (g', pc) := EmitJump(g1);
    assert Pending(g', e) + ctx + Elems(pc) == Lists(e) + ctx + Elems(pc);
    LooserSound(g', Lists(e) + ctx + Elems(pc), |g.code|, Pending(g', e) + ctx + Elems(pc), |g'.code|, nups);
  }

  lemma InvertSound(g: Gen, e: Exp, nups: int, ctx: set<int>)
    requires Sound(g, e, nups, ctx) && e.k.VJMP?
    ensures Sound(InvertJump(g, e), e, nups, ctx)
  {
    assert InstrSound(g, Open(g, e, ctx), End(g, e), nups, e.info - 1);
    match g.code[e.info-1]
    case Compare(op, cond, x, y) =>
      PutSound(g, Open(g, e, ctx), End(g, e), nups, e.info - 1, Compare(op, !cond, x, y));
      assert Open(InvertJump(g, e), e, ctx) == Open(g, e, ctx);
  }

  lemma BranchJumpSound(b: int, g: Gen, e: Exp, cond: bool, nups: int, ctx: set<int>)
    requires Sound(g, e, nups, ctx) && Fits(b, g, e) && !e.k.VLOCAL? && !e.k.VUPVAL?
    ensures var (g', e', pc) := BranchJump(g, e, cond); BranchSound(g', e', pc, nups, ctx)
  {
    hide JumpOnCond, LiteralJump, InvertJump, CodeSound, ConstantsOk;
    var (g', e', pc) := BranchJump(g, e, cond);
    if if cond then e.k.VFALSE? else e.k.VTRUE? {
      LiteralJumpSound(g, e, nups, ctx);
    } else if e.k.VJMP? {
      InvertSound(g, e, nups, ctx);
      assert Open(g', e, ctx) == Pending(g', e) + ctx + Elems(pc);
    } else if e.k.VTRUE? || e.k.VFALSE? || (cond && (e.k.VK? || e.k.VKNUM?)) {
      assert Open(g, e, ctx) == Pending(g', e') + ctx + Elems(pc);
    } else {
      JumpOnCondSound(b, g, e, !cond, nups, ctx);
    }
  }

  lemma CloseSound(g: Gen, e: Exp, pc: seq<int>, cond: bool, nups: int, ctx: set<int>)
    requires BranchSound(g, e, pc, nups, ctx)
    ensures var (g', e') := Close(g, e, pc, cond); CodeSound(g', Pending(g', e') + ctx, |g'.code|, nups)
  {
    hide Concat, CodeSound;
    var p := Pending(g, e) + ctx + Elems(pc);
    var s, t := if cond then e.fs else e.ts, if cond then e.ts else e.fs;
    ConcatSound(g, p, |g.code|, nups, s, pc);
    var g1 := Concat(g, s, pc);
    ConcatSound(g1, p, |g.code|, nups, g1.held, t);
    var (g', e') := Close(g, e, pc, cond);
    assert Pending(g', e') + ctx == p;
    SoundEnd(Concat(g1, g1.held, t), p, |g.code|, nups);
    MoreSound(Concat(g1, g1.held, t), g', p, |g.code|, nups);
  }

  lemma GoIfSound(b: int, g: Gen, e: Exp, cond: bool, nups: int, ctx: set<int>)
    requires Sound(g, e, nups, ctx) && Fits(b, g, e)
    ensures var (g', e') := GoIf(g, e, cond); CodeSound(g', Pending(g', e') + ctx, |g'.code|, nups)
  {
    hide DischargeVars, BranchJump, Close, CodeSound, ConstantsOk;
    DischargeVarsSound(g, e, nups, ctx);
    DischargeVarsWithin(g, e);
    var (g1, e1) := DischargeVars(g, e);
    BranchJumpSound(b, g1, e1, cond, nups, ctx);
    var (g2, e2, pc) := BranchJump(g1, e1, cond);
    CloseSound(g2, e2, pc, cond, nups, ctx);
  }

  // ----- whole expressions -----

  lemma RemovedSound(g: Gen, pending: set<int>, end: int, nups: int, s: seq<int>)
    requires CodeSound(g, pending, end, nups)
    ensures CodeSound(g.(code := ValuesRemoved(g.code, s)), pending, end, nups)
  {
    var g' := g.(code := ValuesRemoved(g.code, s));
    forall k | 0 <= k < |g'.code| ensures InstrSound(g', pending, end, nups, k) {
      assert InstrSound(g, pending, end, nups, k);
    }
  }

  lemma SwapListsSound(g: Gen, e: Exp, nups: int, ctx: set<int>)
    requires Sound(g, e, nups, ctx)
    ensures var (g', e') := SwapLists(g, e); Sound(g', e', nups, ctx)
  {
    hide CodeSound;
    var p, g1 := Open(g, e, ctx), g.(code := ValuesRemoved(g.code, e.ts));
    RemovedSound(g, p, End(g, e), nups, e.ts);
    RemovedSound(g1, p, End(g, e), nups, e.fs);
    var (g', e') := SwapLists(g, e);
    assert Open(g', e', ctx) == p;
  }

  lemma NotValueSound(b: int, g: Gen, e: Exp, nups: int, ctx: set<int>)
    requires Sound(g, e, nups, ctx) && Fits(b, g, e) && !e.k.VLOCAL? && !e.k.VUPVAL?
    ensures var (g', e') := NotValue(g, e); Sound(g', e', nups, ctx)
  {
    hide Discharge2AnyReg, Emit, InvertJump, CodeSound, ConstantsOk;
    if e.k.VJMP? {
      InvertSound(g, e, nups, ctx);
    } else if e.k.VRELOCABLE? || e.k.VNONRELOC? {
      Discharge2AnyRegWithin(b, g, e);
      Discharge2AnyRegSound(b, g, e, nups, ctx);
      var (g1, e1) := Discharge2AnyReg(g, e);
      FreeSound(g1, e1, nups, ctx);
      EmitNotSound(FreeExp(g1, e1), e1, nups, ctx);
    } else {
      assert Open(g, NotValue(g, e).1, ctx) == Open(g, e, ctx);
    }
  }

  lemma EmitNotSound(g: Gen, e: Exp, nups: int, ctx: set<int>)
    requires Sound(g, e, nups, ctx) && e.k.VNONRELOC?
    ensures Sound(Emit(g, Not(0, e.info)), e.(k := VRELOCABLE, info := |g.code|), nups, ctx)
  {
    assert Open(g, e, ctx) == Lists(e) + ctx + Elems(g.held);
    EmitSound(g, Lists(e) + ctx, |g.code|, nups, Not(0, e.info));
    var g', e' := Emit(g, Not(0, e.info)), e.(k := VRELOCABLE, info := |g.code|);
    assert Open(g', e', ctx) == Lists(e) + ctx;
  }

  lemma CodeNotSound(b: int, g: Gen, e: Exp, nups: int, ctx: set<int>)
    requires Sound(g, e, nups, ctx) && Fits(b, g, e)
    ensures var (g', e') := CodeNot(g, e); Sound(g', e', nups, ctx)
  {
    hide DischargeVars, NotValue, SwapLists, Sound, ConstantsOk;
    DischargeVarsWithin(g, e);
    DischargeVarsSound(g, e, nups, ctx);
    var (g1, e1) := DischargeVars(g, e);
    NotValueSound(b, g1, e1, nups, ctx);
    SwapListsSound(NotValue(g1, e1).0, NotValue(g1, e1).1, nups, ctx);
  }

  /** The list of the first operand that is not joined is empty. */
  lemma PosfixSound(g: Gen, cond: bool, e1: Exp, e: Exp, nups: int, ctx: set<int>)
    requires Sound(g, e, nups, Lists(e1) + ctx) && (if cond then e1.ts == [] else e1.fs == []) && ListsApart(g, e)
    ensures var (g', e') := Posfix(g, cond, e1, e); Sound(g', e', nups, ctx)
  {
    hide DischargeVars, Concat, CodeSound;
    DischargeVarsSound(g, e, nups, Lists(e1) + ctx);
    DischargeKeepsJumps(g, e, 0, e.ts);
    DischargeKeepsJumps(g, e, 0, e.fs);
    var (g1, e2) := DischargeVars(g, e);
    var s, t := if cond then e2.fs else e2.ts, if cond then e1.fs else e1.ts;
    var p := Open(g1, e2, Lists(e1) + ctx);
    ConcatSound(g1, p, End(g1, e2), nups, s, t);
    var (g', e') := Posfix(g, cond, e1, e);
    assert Open(g', e', ctx) == p;
    SameInstrAt(g1, s, t, e2.info);
    SameInstrAt(g1, s, t, e2.info - 1);
  }

  /** Linking changes jumps only. */
  lemma SameInstrAt(g: Gen, s: seq<int>, t: seq<int>, k: int)
    requires Jumps(g.code, s)
    ensures 0 <= k < |g.code| && !g.code[k].Jmp? ==> Concat(g, s, t).code[k] == g.code[k]
  {
    if s != [] { assert s[|s|-1] in s; }
  }

  lemma ReadyOperand(g: Gen, e: Exp, nups: int)
    requires Ready(e) && PlaceSound(g, e, nups)
    ensures RKExists(g, Exp2RK(g, e).2)
  {
  }

  lemma CodeCompSound(b: int, g: Gen, op: CmpOp, cond: bool, e1: Exp, e2: Exp, nups: int, ctx: set<int>)
    requires Ready(e1) && PlaceSound(g, e1, nups) && 0 <= g.nactvar <= b && Fits(b + Temp(g, e1), g, e2)
    requires Sound(g, e2, nups, ctx) && ListsApart(g, e2)
    ensures var (g', e') := CodeComp(g, op, cond, e1, e2); Sound(g', e', nups, ctx)
  {
    hide Exp2RK, CondJump, CodeSound, ConstantsOk;
    var b' := b + Temp(g, e1);
    ReadyStays(g, e1);
    ReadyOperand(g, e1, nups);
    Exp2RKWithin(b', g, e2);
    Exp2RKSound(b', g, e2, nups, ctx);
    var (g2, e2', o2) := Exp2RK(g, e2);
    var o1 := Exp2RK(g, e1).2;
    Grows(g, g2, Place(e2) + 3, Literal(e2), b' + 1);
    assert RKExists(g2, o1);
    var g3 := FreeExp(FreeExp(g2, e2'), e1);
    var swap := !cond && op != OpEq;
    var i := Compare(op, cond || swap, if swap then o2 else o1, if swap then o1 else o2);
    CompareSound(g2, e2', g3, e1, i, nups, ctx);
  }

  lemma CompareSound(g: Gen, e: Exp, g1: Gen, e1: Exp, i: Instr, nups: int, ctx: set<int>)
    requires Sound(g, e, nups, ctx) && Ready(e) && Ready(e1) && g1 == g.(freereg := g1.freereg)
    requires i.Compare? && TestSound(g, nups, i)
    ensures var (g', s) := CondJump(g1, i); Sound(g', e1.(k := VJMP, info := Head(s)), nups, ctx)
  {
    hide CodeSound, CondJump;
    assert Open(g, e, ctx) == ctx + Elems(g1.held);
    SoundEnd(g, Open(g, e, ctx), End(g, e), nups);
    MoreSound(g, g1, ctx + Elems(g1.held), End(g, e), nups);
    CondJumpSound(g1, ctx, End(g, e), nups, i);
    CondJumpShape(g1, i);
    CondJumpCode(g1, i);
    var (g', s) := CondJump(g1, i);
    var e' := e1.(k := VJMP, info := Head(s));
    assert Open(g', e', ctx) == ctx + Elems(s);
    LooserSound(g', ctx + Elems(s), |g.code| + 1, Open(g', e', ctx), |g'.code|, nups);
  }

  lemma CondJumpCode(g: Gen, i: Instr)
    ensures CondJump(g, i).0.code[|g.code|] == i
  {
  }

  /** The upvalues of E are among nups. */
  predicate UpvaluesBelow(E: Expr, nups: int) {
    match E
    case Upval(i) => 0 <= i < nups
    case Paren(e) => UpvaluesBelow(e, nups)
    case Negate(e) => UpvaluesBelow(e, nups)
    case And(l, r) => UpvaluesBelow(l, nups) && UpvaluesBelow(r, nups)
    case Or(l, r) => UpvaluesBelow(l, nups) && UpvaluesBelow(r, nups)
    case Rel(_, l, r) => UpvaluesBelow(l, nups) && UpvaluesBelow(r, nups)
    case _ => true
  }

  /** The code so far. */
  ghost predicate StartSound(g: Gen, nups: int, ctx: set<int>) {
    Wf(g) && CodeSound(g, Elems(g.held) + ctx, |g.code|, nups)
  }

  lemma StateApart(E: Expr, g0: Gen, g: Gen, e: Exp)
    requires Compiled(E, g0, g, e)
    ensures ListsApart(g, e) && Wf(g) && g.nactvar == g0.nactvar
  {
    ThreadedJumps(g.code, e.ts);
    ThreadedJumps(g.code, e.fs);
  }

  lemma LeafSound(E: Expr, g: Gen, nups: int, ctx: set<int>)
    requires StartSound(g, nups, ctx) && Scoped(E, g.nactvar) && UpvaluesBelow(E, nups)
    requires E.Local? || E.Upval? || E.True? || E.False? || E.Numeral? || E.Str?
    ensures var (g', e') := Compile(g, E); Sound(g', e', nups, ctx)
  {
    hide CodeSound, AddK;
    var (g', e') := Compile(g, E);
    if E.Str? { AddKSound(g, Elems(g.held) + ctx, |g.code|, nups, Text(E.s)); AddKKeepsHeld(g, Text(E.s)); }
    assert Open(g', e', ctx) == Elems(g.held) + ctx;
  }

  lemma AddKKeepsHeld(g: Gen, v: Value)
    ensures AddK(g, v).0.held == g.held && AddK(g, v).0.code == g.code
  {
  }

  /** What is known of an expression that was compiled. */
  lemma CompileFacts(E: Expr, g: Gen)
    requires Wf(g) && Scoped(E, g.nactvar)
    ensures var (g', e') := Compile(g, E);
            && Compiled(E, g, g', e') && Used(E, g, g', e') && Fits(g.freereg, g', e') && ListsApart(g', e')
  {
    hide Compiled, Wf, ConstantsOk;
    WfStarts(g);
    CompileCorrect(E, g);
    CompileWithin(E, g);
    StateApart(E, g, Compile(g, E).0, Compile(g, E).1);
  }

  lemma BranchLists(g: Gen, e: Exp, cond: bool)
    ensures var e' := GoIf(g, e, cond).1; if cond then e'.ts == [] else e'.fs == []
  {
    hide BranchJump, DischargeVars;
  }

  lemma BranchStart(l: Expr, g0: Gen, g: Gen, e: Exp, cond: bool, nups: int, ctx: set<int>)
    requires Compiled(l, g0, g, e) && Fits(g0.freereg, g, e) && Sound(g, e, nups, ctx)
    ensures var (g', e') := GoIf(g, e, cond); StartSound(g', nups, Lists(e') + ctx) && g'.nactvar == g0.nactvar
  {
    hide GoIf, Compiled, Sound, CodeSound, Wf, ConstantsOk;
    GoIfSound(g0.freereg, g, e, cond, nups, ctx);
    GoIfWf(l, cond, g0, g, e);
    var (g', e') := GoIf(g, e, cond);
    assert Pending(g', e') + ctx == Elems(g'.held) + (Lists(e') + ctx);
  }

  lemma OperandStart(l: Expr, g0: Gen, g: Gen, e: Exp, nups: int, ctx: set<int>)
    requires Compiled(l, g0, g, e) && Fits(g0.freereg, g, e) && Sound(g, e, nups, ctx) && ListsApart(g, e)
    ensures var (g', e', x) := Exp2RK(g, e);
            && StartSound(g', nups, ctx) && g'.nactvar == g0.nactvar && Ready(e') && PlaceSound(g', e', nups)
            && Fits(g0.freereg, g', e')
  {
    hide Exp2RK, Compiled, CodeSound, Wf, ConstantsOk;
    Exp2RKSound(g0.freereg, g, e, nups, ctx);
    Exp2RKWithin(g0.freereg, g, e);
    OperandWf(l, g0, g, e);
    var (g', e', x) := Exp2RK(g, e);
    assert Open(g', e', ctx) == Elems(g'.held) + ctx;
  }

  lemma JoinSound(cond: bool, r: Expr, g1: Gen, e1: Exp, nups: int, ctx: set<int>)
    requires var (g2, e2) := GoIf(g1, e1, cond); var (g3, e3) := Compile(g2, r);
             ListsApart(g3, e3) && Sound(g3, e3, nups, Lists(e2) + ctx)
    ensures var (g2, e2) := GoIf(g1, e1, cond); var (g3, e3) := Compile(g2, r);
            var (g4, e4) := Posfix(g3, cond, e2, e3); Sound(g4, e4, nups, ctx)
  {
    hide GoIf, Compile, Posfix, Sound;
    BranchLists(g1, e1, cond);
    var (g2, e2) := GoIf(g1, e1, cond);
    var (g3, e3) := Compile(g2, r);
    PosfixSound(g3, cond, e2, e3, nups, ctx);
  }

  lemma RelSound(op: RelOp, r: Expr, b: int, g2: Gen, e2: Exp, nups: int, ctx: set<int>)
    requires Ready(e2) && PlaceSound(g2, e2, nups) && Fits(b, g2, e2)
    requires var (g3, e3) := Compile(g2, r); Used(r, g2, g3, e3) && ListsApart(g3, e3) && Sound(g3, e3, nups, ctx)
    ensures var (g3, e3) := Compile(g2, r);
            var (g4, e4) := CodeComp(g3, CompOf(op).0, CompOf(op).1, e2, e3); Sound(g4, e4, nups, ctx)
  {
    hide Compile, CodeComp, CompOf, Sound, Within, ConstantsOk;
    var (g3, e3) := Compile(g2, r);
    Grows(g2, g3, Instructions(r) - Place(e3), Constants(r) - Literal(e3), g2.freereg + Registers(r));
    CodeCompSound(b, g3, CompOf(op).0, CompOf(op).1, e2, e3, nups, ctx);
  }

  /** Compiling leaves the code sound, with the jumps of the expression open. */
  lemma {:induction false} CompileSound(E: Expr, g: Gen, nups: int, ctx: set<int>)
    requires StartSound(g, nups, ctx) && Scoped(E, g.nactvar) && UpvaluesBelow(E, nups)
    ensures var (g', e') := Compile(g, E); Sound(g', e', nups, ctx)
    decreases E, 1
  {
    hide GoIf, Exp2RK, CodeComp, CodeNot, Posfix, DischargeVars, Sound, CodeSound, Wf, Compiled, Used, Fits, ListsApart;
    match E {
      case Paren(e) =>
        CompileSound(e, g, nups, ctx);
        DischargeVarsSound(Compile(g, e).0, Compile(g, e).1, nups, ctx);
      case Negate(e) =>
        CompileSound(e, g, nups, ctx);
        CompileFacts(e, g);
        CodeNotSound(g.freereg, Compile(g, e).0, Compile(g, e).1, nups, ctx);
      case And(l, r) =>
        BranchSecond(E, true, l, r, g, nups, ctx);
      case Or(l, r) =>
        BranchSecond(E, false, l, r, g, nups, ctx);
      case Rel(op, l, r) =>
        CompileSound(l, g, nups, ctx);
        CompileFacts(l, g);
        var (g1, e1) := Compile(g, l);
        OperandStart(l, g, g1, e1, nups, ctx);
        var (g2, e2, x) := Exp2RK(g1, e1);
        CompileSound(r, g2, nups, ctx);
        CompileFacts(r, g2);
        RelSound(op, r, g.freereg, g2, e2, nups, ctx);
      case _ => LeafSound(E, g, nups, ctx);
    }
  }

  lemma {:induction false} BranchSecond(E: Expr, cond: bool, l: Expr, r: Expr, g: Gen, nups: int, ctx: set<int>)
    requires E == JoinExpr(cond, l, r)
    requires StartSound(g, nups, ctx) && Scoped(l, g.nactvar) && Scoped(r, g.nactvar)
    requires UpvaluesBelow(l, nups) && UpvaluesBelow(r, nups)
    ensures var (g1, e1) := Compile(g, l); var (g2, e2) := GoIf(g1, e1, cond); var (g3, e3) := Compile(g2, r);
            var (g4, e4) := Posfix(g3, cond, e2, e3); Sound(g4, e4, nups, ctx)
    decreases E, 0
  {
    hide GoIf, Posfix, Compile, Sound, CodeSound, Wf, Compiled, Used, Fits, ListsApart;
    CompileSound(l, g, nups, ctx);
    CompileFacts(l, g);
    var (g1, e1) := Compile(g, l);
    BranchStart(l, g, g1, e1, cond, nups, ctx);
    var (g2, e2) := GoIf(g1, e1, cond);
    CompileSound(r, g2, nups, Lists(e2) + ctx);
    CompileFacts(r, g2);
    JoinSound(cond, r, g1, e1, nups, ctx);
  }

  // ----- a whole function -----

  /** The function `return E` with its final return. */
  function Finished(n: nat, E: Expr): Gen {
    Emit(CompileReturn(NewFunction(n), E), Return(0, 1))
  }

  lemma ReturnSound(E: Expr, n: nat, nups: int)
    requires n < MAXSTACK && Scoped(E, n) && UpvaluesBelow(E, nups)
    ensures var g := CompileReturn(NewFunction(n), E); CodeSound(g, {}, |g.code| - 1, nups) && Wf(g) && g.held == []
  {
    hide Compile, Exp2AnyReg, Emit, Compiled, Wf, ConstantsOk, Sound, CodeSound, Meaning;
    var g0 := NewFunction(n);
    NewFunctionSound(n, nups);
    CompileSound(E, g0, nups, {});
    CompileFacts(E, g0);
    var (g1, e1) := Compile(g0, E);
    Exp2AnyRegSound(n, g1, e1, nups, {});
    Exp2AnyRegWithin(n, g1, e1);
    var (g2, e2) := Exp2AnyReg(g1, e1);
    AnyRegWf(E, g0, g1, e1);
    LastSound(g2, e2, nups);
    EmitLemma(g2, Return(e2.info, 2));
  }

  lemma NewFunctionSound(n: nat, nups: int)
    requires n < MAXSTACK
    ensures StartSound(NewFunction(n), nups, {})
  {
  }

  lemma AnyRegWf(E: Expr, g0: Gen, g: Gen, e: Exp)
    requires Compiled(E, g0, g, e)
    ensures Wf(Exp2AnyReg(g, e).0)
  {
    hide Exp2AnyReg, Meaning;
    Exp2AnyRegLemma(E, g0, g, e);
  }

  lemma LastSound(g: Gen, e: Exp, nups: int)
    requires Sound(g, e, nups, {}) && InRegister(e)
    ensures CodeSound(Emit(g, Return(e.info, 2)), {}, |g.code|, nups)
    ensures |Emit(g, Return(e.info, 2)).code| == |g.code| + 1
  {
    hide Emit;
    assert Open(g, e, {}) == {} + Elems(g.held);
    EmitSound(g, {}, |g.code|, nups, Return(e.info, 2));
    EmitShape(g, Return(e.info, 2));
  }

  lemma FinishedSound(E: Expr, n: nat, nups: int)
    requires n < MAXSTACK && Scoped(E, n) && UpvaluesBelow(E, nups)
    ensures var g := Finished(n, E); CodeSound(g, {}, |g.code| - 1, nups) && Wf(g)
    ensures Finished(n, E).code == CompileReturn(NewFunction(n), E).code + [Return(0, 1)]
  {
    hide CompileReturn, Emit, Wf;
    var g := CompileReturn(NewFunction(n), E);
    ReturnSound(E, n, nups);
    assert {} + Elems(g.held) == {};
    EmitSound(g, {}, |g.code| - 1, nups, Return(0, 1));
    EmitLemma(g, Return(0, 1));
    PatchedNone(g.code, |g.code|, NO_REG, |g.code|);
  }

  // ----- words -----

  function Bit(b: bool): int {
    if b then 1 else 0
  }

  /** CREATE_ABC and CREATE_ABx */
  function Encode(i: Instr): Checker.Word {
    match i
    case Move(a, b) => Checker.Word(Checker.OP_MOVE, a, b, 0)
    case LoadK(a, bx) => Checker.Word(Checker.OP_LOADK, a, bx / 512, bx % 512)
    case LoadBool(a, v, skip) => Checker.Word(Checker.OP_LOADBOOL, a, Bit(v), Bit(skip))
    case GetUpval(a, b) => Checker.Word(Checker.OP_GETUPVAL, a, b, 0)
    case Not(a, b) => Checker.Word(Checker.OP_NOT, a, b, 0)
    case Jmp(sbx) => Checker.Word(Checker.OP_JMP, 0, (sbx + MAXARG_sBx) / 512, (sbx + MAXARG_sBx) % 512)
    case Compare(cmp, cond, b, c) =>
      Checker.Word(match cmp case OpEq => Checker.OP_EQ case OpLt => Checker.OP_LT case OpLe => Checker.OP_LE,
                   Bit(cond), b, c)
    case Test(a, cond) => Checker.Word(Checker.OP_TEST, a, 0, Bit(cond))
    case TestSet(a, b, cond) => Checker.Word(Checker.OP_TESTSET, a, b, Bit(cond))
    case Return(a, b) => Checker.Word(Checker.OP_RETURN, a, b, 0)
  }

  /** The fields hold the operands. */
  lemma EncodeInRange(g: Gen, nups: int, k: int)
    requires 0 <= k < |g.code| && InstrSound(g, {}, |g.code| - 1, nups, k) && !g.err
    requires g.maxstack < MAXSTACK && |g.k| <= MAXARG_Bx && nups < 256
    ensures Encode(g.code[k]).InRange()
    ensures g.code[k].Jmp? ==> Encode(g.code[k]).sBx() == g.code[k].sbx
    ensures g.code[k].LoadK? ==> Encode(g.code[k]).Bx() == g.code[k].bx
  {
  }

  /** Some instructions as words. */
  lemma EncodedWords()
    ensures Encode(Move(0, 1)) == Checker.Word(Checker.OP_MOVE, 0, 1, 0)
    ensures Encode(LoadK(1, 514)) == Checker.Word(Checker.OP_LOADK, 1, 1, 2)
    ensures Encode(LoadBool(0, true, false)) == Checker.Word(Checker.OP_LOADBOOL, 0, 1, 0)
    ensures Encode(GetUpval(1, 0)) == Checker.Word(Checker.OP_GETUPVAL, 1, 0, 0)
    ensures Encode(Not(0, 1)) == Checker.Word(Checker.OP_NOT, 0, 1, 0)
    ensures Encode(Jmp(1)) == Checker.Word(Checker.OP_JMP, 0, 256, 0)
    ensures Encode(Compare(OpEq, true, 0, 256)) == Checker.Word(Checker.OP_EQ, 1, 0, 256)
    ensures Encode(Compare(OpLt, false, 1, 0)) == Checker.Word(Checker.OP_LT, 0, 1, 0)
    ensures Encode(Compare(OpLe, true, 0, 1)) == Checker.Word(Checker.OP_LE, 1, 0, 1)
    ensures Encode(Test(2, true)) == Checker.Word(Checker.OP_TEST, 2, 0, 1)
    ensures Encode(TestSet(1, 0, false)) == Checker.Word(Checker.OP_TESTSET, 1, 0, 0)
    ensures Encode(Return(0, 2)) == Checker.Word(Checker.OP_RETURN, 0, 2, 0)
  {
  }

  /** Operands that fit their fields. */
  predicate OperandsFit(i: Instr) {
    match i
    case LoadK(_, bx) => 0 <= bx <= MAXARG_Bx
    case Jmp(sbx) => -MAXARG_sBx <= sbx <= MAXARG_sBx
    case _ => true
  }

  /** No two instructions have the same word. */
  lemma EncodeInjective(i: Instr, j: Instr)
    requires OperandsFit(i) && OperandsFit(j) && Encode(i) == Encode(j)
    ensures i == j
  {
  }

  ghost predicate Encodable(g: Gen) {
    forall k {:trigger g.code[k]} :: 0 <= k < |g.code| ==> Encode(g.code[k]).InRange()
  }

  lemma FinishedEncodable(g: Gen, nups: int)
    requires CodeSound(g, {}, |g.code| - 1, nups) && Wf(g) && !g.err && nups < 256
    ensures Encodable(g)
  {
    hide Encode;
    forall k | 0 <= k < |g.code| ensures Encode(g.code[k]).InRange() {
      assert InstrSound(g, {}, |g.code| - 1, nups, k);
      EncodeInRange(g, nups, k);
    }
  }

  /** The prototype of the function: a fixed number of parameters, and no nested functions. */
  ghost function ProtoOf(g: Gen, n: nat, nups: nat): Checker.Proto
    requires Encodable(g) && g.maxstack >= 0
  {
    Checker.Proto(seq(|g.code|, k requires 0 <= k < |g.code| => Encode(g.code[k])),
                  seq(|g.k|, k requires 0 <= k < |g.k| => g.k[k].Text?), [], nups, nups, |g.code|, n,
                  false, false, false, g.maxstack)
  }

  lemma NoSetlists(g: Gen, n: nat, nups: nat, dest: nat)
    requires Encodable(g) && g.maxstack >= 0 && dest <= |g.code|
    ensures Checker.SetlistRun(ProtoOf(g, n, nups).code, dest) == 0
  {
    if dest > 0 { assert ProtoOf(g, n, nups).code[dest-1] == Encode(g.code[dest-1]); }
  }

  lemma ProtoFacts(g: Gen, n: nat, nups: nat, k: int)
    requires Encodable(g) && g.maxstack >= 0 && 0 <= k < |g.code|
    ensures var pt := ProtoOf(g, n, nups);
            && |pt.code| == |g.code| && pt.code[k] == Encode(g.code[k]) && |pt.kIsString| == |g.k|
            && pt.maxstacksize == g.maxstack && pt.nups == nups && pt.nested == []
  {
  }

  ghost predicate InLimits(g: Gen, nups: nat, k: int) {
    && Encodable(g) && 2 <= g.maxstack < MAXSTACK && |g.k| <= MAXARG_Bx && nups < 256 && !g.err
    && 0 <= k < |g.code| && InstrSound(g, {}, |g.code| - 1, nups, k)
  }

  lemma LoadOperands(g: Gen, n: nat, nups: nat, k: int)
    requires InLimits(g, nups, k) && IsLoad(g.code[k])
    ensures Checker.OperandsOk(ProtoOf(g, n, nups), k)
  {
    hide ProtoOf;
    ProtoFacts(g, n, nups, k);
    EncodeInRange(g, nups, k);
  }

  lemma TestOperands(g: Gen, n: nat, nups: nat, k: int)
    requires InLimits(g, nups, k) && IsTest(g.code[k])
    ensures Checker.OperandsOk(ProtoOf(g, n, nups), k)
  {
    hide ProtoOf;
    ProtoFacts(g, n, nups, k);
  }

  lemma JumpOperands(g: Gen, n: nat, nups: nat, k: int)
    requires InLimits(g, nups, k) && (g.code[k].Jmp? || g.code[k].Return?)
    ensures Checker.OperandsOk(ProtoOf(g, n, nups), k)
  {
    hide ProtoOf;
    ProtoFacts(g, n, nups, k);
    EncodeInRange(g, nups, k);
    if g.code[k].Jmp? { NoSetlists(g, n, nups, k + 1 + g.code[k].sbx); }
  }

  lemma EncodedOperands(g: Gen, n: nat, nups: nat, k: int)
    requires InLimits(g, nups, k)
    ensures Checker.OperandsOk(ProtoOf(g, n, nups), k)
  {
    hide InLimits, ProtoOf, Checker.OperandsOk;
    InstrKinds(g, nups, k);
    if IsLoad(g.code[k]) { LoadOperands(g, n, nups, k); }
    else if IsTest(g.code[k]) { TestOperands(g, n, nups, k); }
    else { JumpOperands(g, n, nups, k); }
  }

  lemma InstrKinds(g: Gen, nups: nat, k: int)
    requires InLimits(g, nups, k)
    ensures 0 <= k < |g.code| && Encodable(g) && g.maxstack >= 0
  {
  }

  lemma LoadChecks(g: Gen, n: nat, nups: nat, k: int)
    requires InLimits(g, nups, k) && IsLoad(g.code[k])
    requires |g.code| >= 2 && g.code[|g.code|-1].Return? && g.code[|g.code|-2].Return?
    ensures Checker.TestOk(ProtoOf(g, n, nups), k) && Checker.OwnChecks(ProtoOf(g, n, nups), k)
  {
    hide ProtoOf, Encodable;
    InstrKinds(g, nups, k);
    ProtoFacts(g, n, nups, k);
    if g.code[k].LoadBool? { ProtoFacts(g, n, nups, k + 1); }
  }

  lemma OtherChecks(g: Gen, n: nat, nups: nat, k: int)
    requires InLimits(g, nups, k) && !IsLoad(g.code[k]) && TestsPaired(g.code)
    requires g.code[|g.code|-1].Return?
    ensures Checker.TestOk(ProtoOf(g, n, nups), k) && Checker.OwnChecks(ProtoOf(g, n, nups), k)
  {
    hide ProtoOf, Encodable;
    InstrKinds(g, nups, k);
    ProtoFacts(g, n, nups, k);
    if IsTest(g.code[k]) { ProtoFacts(g, n, nups, k + 1); }
  }

  lemma EncodedPasses(g: Gen, n: nat, nups: nat, k: int)
    requires InLimits(g, nups, k) && TestsPaired(g.code)
    requires |g.code| >= 2 && g.code[|g.code|-1].Return? && g.code[|g.code|-2].Return?
    ensures Checker.InstructionOk(ProtoOf(g, n, nups), k)
  {
    hide InLimits, ProtoOf, Encodable, Checker.OperandsOk, Checker.TestOk, Checker.OwnChecks;
    InstrKinds(g, nups, k);
    EncodedOperands(g, n, nups, k);
    if IsLoad(g.code[k]) { LoadChecks(g, n, nups, k); } else { OtherChecks(g, n, nups, k); }
    ProtoFacts(g, n, nups, k);
  }

  lemma EncodedHeader(g: Gen, n: nat, nups: nat)
    requires Encodable(g) && n <= g.maxstack < MAXSTACK && |g.code| >= 1 && g.code[|g.code|-1].Return?
    ensures Checker.Precheck(ProtoOf(g, n, nups))
  {
    ProtoFacts(g, n, nups, |g.code| - 1);
  }

  /** The headline: the compiled function `return E` passes the checker, whatever the expression is, unless a limit was
      exceeded. */
  lemma CompiledAccepted(E: Expr, n: nat, nups: nat)
    requires n < MAXSTACK && Scoped(E, n) && UpvaluesBelow(E, nups) && nups < 256 && !Finished(n, E).err
    ensures var g := Finished(n, E);
            Encodable(g) && g.maxstack >= 0 && Checker.Accepts(ProtoOf(g, n, nups))
  {
    hide Finished, CompileReturn, Wf, Encodable, CodeSound, ProtoOf, Checker.InstructionOk, Checker.Precheck;
    hide Checker.IsStart, InLimits;
    var g := Finished(n, E);
    FinishedSound(E, n, nups);
    FinishedShape(E, n, nups);
    FinishedEncodable(g, nups);
    EncodedHeader(g, n, nups);
    var pt := ProtoOf(g, n, nups);
    ProtoFacts(g, n, nups, 0);
    forall k | 0 <= k < |pt.code| ensures Checker.InstructionOk(pt, k) {
      SoundInLimits(g, nups, k);
      EncodedPasses(g, n, nups, k);
    }
  }

  lemma SoundInLimits(g: Gen, nups: nat, k: int)
    requires Encodable(g) && CodeSound(g, {}, |g.code| - 1, nups) && g.maxstack < MAXSTACK && nups < 256 && !g.err
    requires 0 <= k < |g.code|
    ensures InLimits(g, nups, k)
  {
    assert InstrSound(g, {}, |g.code| - 1, nups, k);
  }

  lemma FinishedShape(E: Expr, n: nat, nups: nat)
    requires n < MAXSTACK && Scoped(E, n) && UpvaluesBelow(E, nups) && !Finished(n, E).err
    ensures var g := Finished(n, E);
            && |g.code| >= 2 && g.code[|g.code|-1].Return? && g.code[|g.code|-2].Return?
            && TestsPaired(g.code) && n <= g.maxstack < MAXSTACK
  {
    hide Compile, Exp2AnyReg, Emit;
    FinishedSound(E, n, nups);
    LastReturn(E, n);
  }

  lemma LastReturn(E: Expr, n: nat)
    requires n < MAXSTACK && Scoped(E, n)
    ensures var g := CompileReturn(NewFunction(n), E);
            |g.code| >= 1 && g.code[|g.code|-1].Return? && Finished(n, E).maxstack >= n
  {
    hide Compile, Exp2AnyReg, Emit;
    var g := CompileReturn(NewFunction(n), E);
    ReturnFits(E, NewFunction(n));
    EmitShape(g, Return(0, 1));
    var (g1, e1) := Compile(NewFunction(n), E);
    var (g2, e2) := Exp2AnyReg(g1, e1);
    EmitShape(g2, Return(e2.info, 2));
    EmitLast(g2, Return(e2.info, 2));
  }

  lemma EmitLast(g: Gen, i: Instr)
    ensures Emit(g, i).code[|g.code|] == i
  {
  }

  /** Within the limits the function compiles, and passes. */
  lemma CompiledWithinLimits(E: Expr, n: nat, nups: nat)
    requires Scoped(E, n) && UpvaluesBelow(E, nups) && nups < 256 && n + Registers(E) < MAXSTACK
    requires Instructions(E) + 5 < MAXARG_sBx && Constants(E) <= MAXARG_Bx
    ensures var g := Finished(n, E);
            !g.err && Encodable(g) && g.maxstack >= 0 && Checker.Accepts(ProtoOf(g, n, nups))
  {
    hide CompileReturn, Emit, Wf, Encodable, CodeSound, ProtoOf, Checker.Accepts;
    var g := CompileReturn(NewFunction(n), E);
    ReturnFits(E, NewFunction(n));
    ReturnSound(E, n, nups);
    EmitWithin(g, Return(0, 1));
    Both(NewFunction(n), g, Finished(n, E), Instructions(E) + 4, Constants(E), n + Registers(E), 1, 0, 0);
    CompiledAccepted(E, n, nups);
  }

  // ----- from the compiler to a file and back -----

  function WordNumber(i: Checker.Instruction): nat
    requires i.op != Checker.Undefined
  {
    Chunks.NumberOf(i.op) + 64 * i.A + 16384 * i.C + 8388608 * i.B
  }

  lemma EncodeDefined(i: Instr)
    ensures Encode(i).op != Checker.Undefined
  {
  }

  /** f is the compiled function, with its lines and names. */
  ghost predicate IsBinary(f: Chunks.Function, g: Gen, n: nat, nups: nat)
    requires Encodable(g)
  {
    && |f.code| == |g.code|
    && (forall k {:trigger f.code[k]} :: 0 <= k < |f.code| ==>
          Encode(g.code[k]).op != Checker.Undefined && f.code[k] == WordNumber(Encode(g.code[k])))
    && |f.k| == |g.k| && (forall i :: 0 <= i < |f.k| ==> (f.k[i].StringConst? <==> g.k[i].Text?))
    && f.p == [] && f.numparams == n && f.isVararg == 0 && f.nups == nups && f.maxstacksize == g.maxstack
    && |f.upvalues| == nups && |f.lineinfo| == |f.code|
    && f.source.Some? && f.linedefined >= 0 && f.lastlinedefined >= 0 && !Chunks.HasNegative(f.locvars)
  }

  lemma BinaryView(f: Chunks.Function, g: Gen, n: nat, nups: nat)
    requires Encodable(g) && g.maxstack >= 0 && IsBinary(f, g, n, nups)
    ensures Chunks.View(f) == ProtoOf(g, n, nups)
  {
    hide Encode, Chunks.NumberOf, Chunks.Decode, WordNumber;
    var pt, pt' := Chunks.View(f), ProtoOf(g, n, nups);
    forall k | 0 <= k < |f.code| ensures pt.code[k] == pt'.code[k] {
      EncodeDefined(g.code[k]);
      assert f.code[k] == WordNumber(Encode(g.code[k]));
      DecodeWord(Encode(g.code[k]));
    }
    assert pt.code == pt'.code;
  }

  lemma DecodeWord(i: Checker.Instruction)
    requires i.op != Checker.Undefined
    ensures Chunks.Decode(WordNumber(i)) == i
  {
    hide Chunks.Decode, Chunks.NumberOf;
    Chunks.DecodeFields(i);
  }

  /** Dumped and undumped, the compiled function is the same: the checker lets it pass. */
  lemma CompiledLoads(E: Expr, n: nat, nups: nat, f: Chunks.Function)
    requires n < MAXSTACK && Scoped(E, n) && UpvaluesBelow(E, nups) && nups < 256 && !Finished(n, E).err
    requires var g := Finished(n, E); Encodable(g) ==> IsBinary(f, g, n, nups)
    requires Chunks.Fits(f)
    ensures Chunks.ReadChunk(Chunks.ChunkBytes(f, false), 0) == Ok((f, []))
  {
    hide Finished, Checker.Accepts, Chunks.Fits, Chunks.ReadChunk, Chunks.ChunkBytes, ProtoOf, Chunks.View, Encodable;
    var g := Finished(n, E);
    CompiledAccepted(E, n, nups);
    BinaryView(f, g, n, nups);
    assert Chunks.DepthFrom(f, 0) == 0;
    Chunks.DumpUndump(f, 0);
  }
}
