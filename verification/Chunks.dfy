/** Precompiled chunks: ldump.c writes a function as bytes, lundump.c reads it back. */
module Chunks {
  import opened Limits
  import opened Wrappers
  import Checker

  type Byte = x: int | 0 <= x < 256

  datatype LoadError = UnexpectedEnd | BadInteger | BadConstant | BadCode | TooDeep | BadHeader

  /** A number is its eight bytes in memory. */
  datatype Constant = NilConst | BoolConst(b: bool) | NumberConst(bits: seq<Byte>) | StringConst(s: seq<Byte>)

  /** A string that may be missing. */
  type Name = Option<seq<Byte>>

  datatype LocVar = LocVar(varname: Name, startpc: int, endpc: int)

  /** Proto: a function with its nested functions; instructions are words of 32 bits. */
  datatype Function = Function(source: Name, linedefined: int, lastlinedefined: int,
                               nups: Byte, numparams: Byte, isVararg: Byte, maxstacksize: Byte,
                               code: seq<nat>, k: seq<Constant>, p: seq<Function>,
                               lineinfo: seq<int>, locvars: seq<LocVar>, upvalues: seq<Name>)

  // ----- what the checker sees -----

  /** The opcodes in their order. */
  function OpCodeOf(n: nat): Checker.OpCode {
    match n
    case 0 => Checker.OP_MOVE
    case 1 => Checker.OP_LOADK
    case 2 => Checker.OP_LOADBOOL
    case 3 => Checker.OP_LOADNIL
    case 4 => Checker.OP_GETUPVAL
    case 5 => Checker.OP_GETGLOBAL
    case 6 => Checker.OP_GETTABLE
    case 7 => Checker.OP_SETGLOBAL
    case 8 => Checker.OP_SETUPVAL
    case 9 => Checker.OP_SETTABLE
    case 10 => Checker.OP_NEWTABLE
    case 11 => Checker.OP_SELF
    case 12 => Checker.OP_ADD
    case 13 => Checker.OP_SUB
    case 14 => Checker.OP_MUL
    case 15 => Checker.OP_DIV
    case 16 => Checker.OP_MOD
    case 17 => Checker.OP_POW
    case 18 => Checker.OP_UNM
    case 19 => Checker.OP_NOT
    case 20 => Checker.OP_LEN
    case 21 => Checker.OP_CONCAT
    case 22 => Checker.OP_JMP
    case 23 => Checker.OP_EQ
    case 24 => Checker.OP_LT
    case 25 => Checker.OP_LE
    case 26 => Checker.OP_TEST
    case 27 => Checker.OP_TESTSET
    case 28 => Checker.OP_CALL
    case 29 => Checker.OP_TAILCALL
    case 30 => Checker.OP_RETURN
    case 31 => Checker.OP_FORLOOP
    case 32 => Checker.OP_FORPREP
    case 33 => Checker.OP_TFORLOOP
    case 34 => Checker.OP_SETLIST
    case 35 => Checker.OP_CLOSE
    case 36 => Checker.OP_CLOSURE
    case 37 => Checker.OP_VARARG
    case _ => Checker.Undefined
  }

  /** The fields of a word: op in the low 6 bits, then A, C and B. */
  function Decode(w: nat): Checker.Instruction {
    Checker.Word(OpCodeOf(w % 64), w / 64 % 256, w / 8388608 % 512, w / 16384 % 512)
  }

  function View(f: Function): Checker.Proto {
    Checker.Proto(seq(|f.code|, i requires 0 <= i < |f.code| => Decode(f.code[i])),
                  seq(|f.k|, i requires 0 <= i < |f.k| => f.k[i].StringConst?),
                  seq(|f.p|, i requires 0 <= i < |f.p| => f.p[i].nups as nat),
                  f.nups, |f.upvalues|, |f.lineinfo|, f.numparams,
                  f.isVararg % 2 == 1, f.isVararg / 2 % 2 == 1, f.isVararg / 4 % 2 == 1, f.maxstacksize)
  }

  /** The number of an opcode (lopcodes.h). */
  function NumberOf(op: Checker.OpCode): (n: nat)
    requires op != Checker.Undefined
    ensures n < 38
  {
    match op
    case OP_MOVE => 0
    case OP_LOADK => 1
    case OP_LOADBOOL => 2
    case OP_LOADNIL => 3
    case OP_GETUPVAL => 4
    case OP_GETGLOBAL => 5
    case OP_GETTABLE => 6
    case OP_SETGLOBAL => 7
    case OP_SETUPVAL => 8
    case OP_SETTABLE => 9
    case OP_NEWTABLE => 10
    case OP_SELF => 11
    case OP_ADD => 12
    case OP_SUB => 13
    case OP_MUL => 14
    case OP_DIV => 15
    case OP_MOD => 16
    case OP_POW => 17
    case OP_UNM => 18
    case OP_NOT => 19
    case OP_LEN => 20
    case OP_CONCAT => 21
    case OP_JMP => 22
    case OP_EQ => 23
    case OP_LT => 24
    case OP_LE => 25
    case OP_TEST => 26
    case OP_TESTSET => 27
    case OP_CALL => 28
    case OP_TAILCALL => 29
    case OP_RETURN => 30
    case OP_FORLOOP => 31
    case OP_FORPREP => 32
    case OP_TFORLOOP => 33
    case OP_SETLIST => 34
    case OP_CLOSE => 35
    case OP_CLOSURE => 36
    case OP_VARARG => 37
  }

  lemma OpCodeOfNumber(op: Checker.OpCode)
    requires op != Checker.Undefined
    ensures OpCodeOf(NumberOf(op)) == op
  {
    if NumberOf(op) < 19 { LowOpCode(op); } else { HighOpCode(op); }
  }

  lemma LowOpCode(op: Checker.OpCode)
    requires op != Checker.Undefined && NumberOf(op) < 19
    ensures OpCodeOf(NumberOf(op)) == op
  {
  }

  lemma HighOpCode(op: Checker.OpCode)
    requires op != Checker.Undefined && NumberOf(op) >= 19
    ensures OpCodeOf(NumberOf(op)) == op
  {
  }

  lemma OtherNumbers(n: nat)
    ensures n >= 38 <==> OpCodeOf(n) == Checker.Undefined
  {
  }

  lemma WordFields(n: nat, a: nat, b: nat, c: nat)
    requires n < 64 && a < 256 && b < 512 && c < 512
    ensures var w := n + 64 * a + 16384 * c + 8388608 * b;
            w % 64 == n && w / 64 % 256 == a && w / 16384 % 512 == c && w / 8388608 % 512 == b
  {
    var w := n + 64 * a + 16384 * c + 8388608 * b;
    assert w == n + 64 * (a + 256 * c + 131072 * b);
    assert w / 64 == a + 256 * (c + 512 * b);
    assert w / 16384 == c + 512 * b;
  }

  /** A word is made of its fields: 6 bits for the opcode, 8 for A, 9 for C and 9 for B, from the lowest on. */
  lemma DecodeFields(i: Checker.Instruction)
    requires i.op != Checker.Undefined
    ensures Decode(NumberOf(i.op) + 64 * i.A + 16384 * i.C + 8388608 * i.B) == i
  {
    hide OpCodeOf, NumberOf;
    WordFields(NumberOf(i.op), i.A, i.B, i.C);
    OpCodeOfNumber(i.op);
  }

  /** Bit 1 of is_vararg is LUA_HASARG, bit 2 is LUA_ISVARARG, bit 4 is LUA_NEEDSARG. */
  lemma VarargBits(f: Function, hasArg: bool, isVararg: bool, needsArg: bool)
    requires f.isVararg == (if hasArg then 1 else 0) + (if isVararg then 2 else 0) + if needsArg then 4 else 0
    ensures View(f).hasArg == hasArg && View(f).isVararg == isVararg && View(f).needsArg == needsArg
  {
  }

  // ----- bytes -----

  const INT_SIZE: nat := 4
  const SIZE_T_SIZE: nat := 8
  const NUMBER_SIZE: nat := 8
  const INT_MODULUS: nat := 0x1_0000_0000

  function Pow256(w: nat): (p: nat)
    ensures p > 0
  {
    if w == 0 then 1 else 256 * Pow256(w - 1)
  }

  /** w bytes, the lowest first. */
  function Little(n: nat, w: nat): (s: seq<Byte>)
    ensures |s| == w
  {
    if w == 0 then [] else [n % 256] + Little(n / 256, w - 1)
  }

  function Number(s: seq<Byte>): nat {
    if s == [] then 0 else s[0] as int + 256 * Number(s[1..])
  }

  lemma {:induction false} NumberOfLittle(n: nat, w: nat)
    requires n < Pow256(w)
    ensures Number(Little(n, w)) == n
  {
    if w > 0 {
      NumberOfLittle(n / 256, w - 1);
      assert Little(n, w)[1..] == Little(n / 256, w - 1);
    }
  }

  lemma Powers()
    ensures Pow256(INT_SIZE) == INT_MODULUS && Pow256(SIZE_T_SIZE) == 0x1_0000_0000_0000_0000
  {
    assert Pow256(1) == 256 && Pow256(2) == 65536 && Pow256(3) == 16777216;
    assert Pow256(5) == 0x100_0000_0000 && Pow256(6) == 0x1_0000_0000_0000 && Pow256(7) == 0x100_0000_0000_0000;
  }

  predicate IsInt(x: int) {
    -0x8000_0000 <= x < 0x8000_0000
  }

  /** An int in memory, in two's complement. */
  function IntBytes(x: int): (s: seq<Byte>)
    requires IsInt(x)
    ensures |s| == INT_SIZE
  {
    Little(if x < 0 then x + INT_MODULUS else x, INT_SIZE)
  }

  function IntOf(s: seq<Byte>): int {
    var n := Number(s);
    if n < 0x8000_0000 then n else n - INT_MODULUS
  }

  lemma IntOfBytes(x: int)
    requires IsInt(x)
    ensures IntOf(IntBytes(x)) == x
  {
    Powers();
    NumberOfLittle(if x < 0 then x + INT_MODULUS else x, INT_SIZE);
  }

  // ----- reading -----

  /** A reader takes a value from the front of the input. */
  type Reader<T> = seq<Byte> -> Result<(T, seq<Byte>), LoadError>

  /** LoadBlock */
  function ReadBlock(z: seq<Byte>, n: nat): Result<(seq<Byte>, seq<Byte>), LoadError> {
    if n <= |z| then Ok((z[..n], z[n..])) else Err(UnexpectedEnd)
  }

  function ReadByte(z: seq<Byte>): Result<(Byte, seq<Byte>), LoadError> {
    if |z| > 0 then Ok((z[0], z[1..])) else Err(UnexpectedEnd)
  }

  /** An int of a vector: it may be negative. */
  function ReadRaw(z: seq<Byte>): Result<(int, seq<Byte>), LoadError> {
    var (s, rest) :- ReadBlock(z, INT_SIZE);
    Ok((IntOf(s), rest))
  }

  /** LoadInt */
  function ReadInt(z: seq<Byte>): Result<(nat, seq<Byte>), LoadError> {
    var (x, rest) :- ReadRaw(z);
    if x < 0 then Err(BadInteger) else Ok((x, rest))
  }

  function ReadWord(z: seq<Byte>): Result<(nat, seq<Byte>), LoadError> {
    var (s, rest) :- ReadBlock(z, INT_SIZE);
    Ok((Number(s), rest))
  }

  /** LoadString: its last byte is not part of the string. */
  function ReadString(z: seq<Byte>): Result<(Name, seq<Byte>), LoadError> {
    var (s, rest) :- ReadBlock(z, SIZE_T_SIZE);
    var size := Number(s);
    if size == 0 then Ok((None, rest))
    else
      var (bytes, rest2) :- ReadBlock(rest, size);
      Ok((Some(bytes[..size-1]), rest2))
  }

  function ReadConstant(z: seq<Byte>): Result<(Constant, seq<Byte>), LoadError> {
    var (t, rest) :- ReadByte(z);
    match t
    case 0 => Ok((NilConst, rest))
    case 1 => var (b, rest2) :- ReadByte(rest); Ok((BoolConst(b != 0), rest2))
    case 3 => var (bits, rest2) :- ReadBlock(rest, NUMBER_SIZE); Ok((NumberConst(bits), rest2))
    case 4 =>
      var (s, rest2) :- ReadString(rest);
      // a string of size 0 would be a NULL constant; it is read as an empty one here
      Ok((StringConst(if s.Some? then s.value else []), rest2))
    case _ => Err(BadConstant)
  }

  function ReadLocVar(z: seq<Byte>): Result<(LocVar, seq<Byte>), LoadError> {
    var (name, rest) :- ReadString(z);
    var (startpc, rest2) :- ReadInt(rest);
    var (endpc, rest3) :- ReadInt(rest2);
    Ok((LocVar(name, startpc, endpc), rest3))
  }

  function ReadMany<T>(read: Reader<T>, z: seq<Byte>, n: nat): Result<(seq<T>, seq<Byte>), LoadError>
    decreases n
  {
    if n == 0 then Ok(([], z))
    else
      var (x, rest) :- read(z);
      var (xs, rest2) :- ReadMany(read, rest, n - 1);
      Ok(([x] + xs, rest2))
  }

  /** What is read with xs before it. */
  function Prepend<T>(xs: seq<T>, r: Result<(seq<T>, seq<Byte>), LoadError>): Result<(seq<T>, seq<Byte>), LoadError> {
    var (ys, rest) :- r;
    Ok((xs + ys, rest))
  }

  /** A vector with its length. */
  function ReadVector<T>(read: Reader<T>, z: seq<Byte>): Result<(seq<T>, seq<Byte>), LoadError> {
    var (n, rest) :- ReadInt(z);
    ReadMany(read, rest, n)
  }

  /** A new function in one whose source is p, with its source and lines. */
  function ReadPlace(z: seq<Byte>, p: seq<Byte>): (r: Result<(Function, seq<Byte>), LoadError>)
    ensures r.Ok? ==> r.value.0.source.Some?
  {
    var (source, z1) :- ReadString(z);
    var (linedefined, z2) :- ReadInt(z1);
    var (lastlinedefined, z3) :- ReadInt(z2);
    Ok((Function(Some(if source.Some? then source.value else p), linedefined, lastlinedefined,
                 0, 0, 0, 0, [], [], [], [], [], []), z3))
  }

  /** Its sizes and its code. */
  function ReadCode(z: seq<Byte>, f: Function): (r: Result<(Function, seq<Byte>), LoadError>)
    ensures r.Ok? ==> r.value.0.source == f.source
  {
    var (bytes, z1) :- ReadBlock(z, 4);
    var (code, z2) :- ReadVector(ReadWord, z1);
    Ok((f.(nups := bytes[0], numparams := bytes[1], isVararg := bytes[2], maxstacksize := bytes[3], code := code), z2))
  }

  /** LoadDebug */
  function ReadDebug(z: seq<Byte>, f: Function): Result<(Function, seq<Byte>), LoadError> {
    var (lineinfo, z1) :- ReadVector(ReadRaw, z);
    var (locvars, z2) :- ReadVector(ReadLocVar, z1);
    var (upvalues, z3) :- ReadVector(ReadString, z2);
    Ok((f.(lineinfo := lineinfo, locvars := locvars, upvalues := upvalues), z3))
  }

  /** LoadFunction; p is the source of the enclosing function. */
  ghost function ReadFunction(z: seq<Byte>, p: seq<Byte>, calls: nat): Result<(Function, seq<Byte>), LoadError>
    decreases LUAI_MAXCCALLS - calls, 0, 0
  {
    if calls + 1 > LUAI_MAXCCALLS then Err(TooDeep)
    else
      var (f0, z0) :- ReadPlace(z, p);
      var (f1, z1) :- ReadCode(z0, f0);
      var (f2, z2) :- ReadConstants(z1, f1, calls + 1);
      var (f, z3) :- ReadDebug(z2, f2);
      if Checker.Accepts(View(f)) then Ok((f, z3)) else Err(BadCode)
  }

  /** LoadConstants: the constants and the nested functions. */
  ghost function ReadConstants(z: seq<Byte>, f: Function, calls: nat): Result<(Function, seq<Byte>), LoadError>
    requires f.source.Some?
    decreases LUAI_MAXCCALLS - calls, 2, 0
  {
    var (k, z1) :- ReadVector(ReadConstant, z);
    var (n, z2) :- ReadInt(z1);
    var (p, z3) :- ReadFunctions(z2, n, f.source.value, calls);
    Ok((f.(k := k, p := p), z3))
  }

  ghost function ReadFunctions(z: seq<Byte>, n: nat, p: seq<Byte>, calls: nat)
    : Result<(seq<Function>, seq<Byte>), LoadError>
    decreases LUAI_MAXCCALLS - calls, 1, n
  {
    if n == 0 then Ok(([], z))
    else
      var (f, rest) :- ReadFunction(z, p, calls);
      var (fs, rest2) :- ReadFunctions(rest, n - 1, p, calls);
      Ok(([f] + fs, rest2))
  }

  // ----- writing -----

  predicate IsSize(n: nat) {
    n < 0x8000_0000
  }

  predicate FitsName(s: Name) {
    s.Some? ==> |s.value| + 1 < 0x1_0000_0000_0000_0000
  }

  predicate FitsConstant(c: Constant) {
    && (c.NumberConst? ==> |c.bits| == NUMBER_SIZE)
    && (c.StringConst? ==> FitsName(Some(c.s)))
  }

  predicate FitsLocVar(v: LocVar) {
    FitsName(v.varname) && IsInt(v.startpc) && IsInt(v.endpc)
  }

  ghost predicate FitsStart(f: Function) {
    && FitsName(f.source) && IsInt(f.linedefined) && IsInt(f.lastlinedefined)
    && IsSize(|f.code|) && forall w :: w in f.code ==> w < INT_MODULUS
  }

  ghost predicate FitsConstants(f: Function) {
    IsSize(|f.p|) && IsSize(|f.k|) && forall c :: c in f.k ==> FitsConstant(c)
  }

  ghost predicate FitsDebug(f: Function) {
    && IsSize(|f.lineinfo|) && IsSize(|f.locvars|) && IsSize(|f.upvalues|)
    && (forall x :: x in f.lineinfo ==> IsInt(x))
    && (forall v :: v in f.locvars ==> FitsLocVar(v))
    && forall s :: s in f.upvalues ==> FitsName(s)
  }

  /** All values are in the range of their C types. */
  ghost predicate Fits(f: Function) {
    FitsStart(f) && FitsConstants(f) && FitsDebug(f) && forall i :: 0 <= i < |f.p| ==> Fits(f.p[i])
  }

  /** DumpString */
  function StringBytes(s: Name): seq<Byte>
    requires FitsName(s)
  {
    if s.None? then Little(0, SIZE_T_SIZE) else Little(|s.value| + 1, SIZE_T_SIZE) + (s.value + [0])
  }

  function ConstantBytes(c: Constant): seq<Byte>
    requires FitsConstant(c)
  {
    match c
    case NilConst => [0]
    case BoolConst(b) => [1] + [if b then 1 else 0]
    case NumberConst(bits) => [3] + bits
    case StringConst(s) => [4] + StringBytes(Some(s))
  }

  function LocVarBytes(v: LocVar): seq<Byte>
    requires FitsLocVar(v)
  {
    StringBytes(v.varname) + (IntBytes(v.startpc) + IntBytes(v.endpc))
  }

  function WordBytes(w: nat): seq<Byte> {
    Little(w, INT_SIZE)
  }

  function Concat<T>(write: T --> seq<Byte>, s: seq<T>): seq<Byte>
    requires forall x :: x in s ==> write.requires(x)
  {
    if s == [] then [] else write(s[0]) + Concat(write, s[1..])
  }

  /** A vector with its length. */
  function VectorBytes<T>(write: T --> seq<Byte>, s: seq<T>): seq<Byte>
    requires IsSize(|s|) && forall x :: x in s ==> write.requires(x)
  {
    IntBytes(|s|) + Concat(write, s)
  }

  /** The source that is written for a function in one whose source is p. */
  function SourceWritten(f: Function, p: Name, strip: bool): Name {
    if f.source == p || strip then None else f.source
  }

  ghost function PlaceBytes(f: Function, p: Name, strip: bool): seq<Byte>
    requires FitsStart(f)
  {
    StringBytes(SourceWritten(f, p, strip)) + (IntBytes(f.linedefined) + IntBytes(f.lastlinedefined))
  }

  ghost function CodeBytes(f: Function): seq<Byte>
    requires FitsStart(f)
  {
    [f.nups, f.numparams, f.isVararg, f.maxstacksize] + VectorBytes(WordBytes, f.code)
  }

  /** What is left of the function itself, nested ones apart, in a stripped chunk. */
  function Kept(f: Function, strip: bool): (g: Function) {
    if strip then f.(lineinfo := [], locvars := [], upvalues := []) else f
  }

  /** DumpDebug */
  ghost function DebugBytes(f: Function): seq<Byte>
    requires FitsDebug(f)
  {
    VectorBytes(IntBytes, f.lineinfo) + (VectorBytes(LocVarBytes, f.locvars) + VectorBytes(StringBytes, f.upvalues))
  }

  /** DumpFunction */
  ghost function FunctionBytes(f: Function, p: Name, strip: bool): seq<Byte>
    requires Fits(f)
    decreases f, |f.p| + 2
  {
    PlaceBytes(f, p, strip) + (CodeBytes(f) + (ConstantsBytes(f, strip) + DebugBytes(Kept(f, strip))))
  }

  /** DumpConstants */
  ghost function ConstantsBytes(f: Function, strip: bool): seq<Byte>
    requires Fits(f)
    decreases f, |f.p| + 1
  {
    VectorBytes(ConstantBytes, f.k) + (IntBytes(|f.p|) + NestedBytes(f, 0, strip))
  }

  /** The nested functions from the i-th one on. */
  ghost function NestedBytes(f: Function, i: nat, strip: bool): seq<Byte>
    requires Fits(f) && i <= |f.p|
    decreases f, |f.p| - i
  {
    if i == |f.p| then [] else FunctionBytes(f.p[i], f.source, strip) + NestedBytes(f, i + 1, strip)
  }

  // ----- what becomes of a function that is dumped and read back -----

  function SourceRead(f: Function, q: seq<Byte>, strip: bool): seq<Byte> {
    if strip || f.source.None? then q else f.source.value
  }

  /** The function that is read; q is the source of the enclosing one. */
  ghost function Loaded(f: Function, q: seq<Byte>, strip: bool): Function
    decreases f
  {
    var q' := SourceRead(f, q, strip);
    Kept(f, strip).(source := Some(q'), p := seq(|f.p|, i requires 0 <= i < |f.p| => Loaded(f.p[i], q', strip)))
  }

  predicate Negative(v: LocVar) {
    v.startpc < 0 || v.endpc < 0
  }

  ghost predicate HasNegative(s: seq<LocVar>) {
    exists v :: v in s && Negative(v)
  }

  /** Why the function is refused, if it is. */
  ghost function Refusal(f: Function, strip: bool, calls: nat): Option<LoadError>
    decreases f, |f.p| + 1
  {
    if calls + 1 > LUAI_MAXCCALLS then Some(TooDeep)
    else if f.linedefined < 0 || f.lastlinedefined < 0 then Some(BadInteger)
    else
      var e := RefusalFrom(f, 0, strip, calls + 1);
      if e.Some? then e
      else if HasNegative(Kept(f, strip).locvars) then Some(BadInteger)
      else if Checker.Accepts(View(Kept(f, strip))) then None
      else Some(BadCode)
  }

  /** The same for the nested functions from the i-th one on. */
  ghost function RefusalFrom(f: Function, i: nat, strip: bool, calls: nat): Option<LoadError>
    requires i <= |f.p|
    decreases f, |f.p| - i
  {
    if i == |f.p| then None
    else
      var e := Refusal(f.p[i], strip, calls);
      if e.Some? then e else RefusalFrom(f, i + 1, strip, calls)
  }

  // ----- the round trip -----

  /** What was written is read back, whatever follows. */
  ghost predicate Inverse<T(!new)>(read: Reader<T>, write: T --> seq<Byte>, x: T) {
    write.requires(x) && forall more: seq<Byte> :: read(write(x) + more) == Ok((x, more))
  }

  lemma {:induction false} ManyRoundTrip<T(!new)>(read: Reader<T>, write: T --> seq<Byte>, s: seq<T>, rest: seq<Byte>)
    requires forall x :: x in s ==> write.requires(x)
    requires forall x :: x in s ==> Inverse(read, write, x)
    ensures ReadMany(read, Concat(write, s) + rest, |s|) == Ok((s, rest))
  {
    if s == [] {
      assert Concat(write, s) + rest == rest;
    } else {
      var more := Concat(write, s[1..]) + rest;
      assert Concat(write, s) + rest == write(s[0]) + more;
      assert Inverse(read, write, s[0]);
      ManyRoundTrip(read, write, s[1..], rest);
      assert s == [s[0]] + s[1..];
    }
  }

  lemma BlockRoundTrip(s: seq<Byte>, rest: seq<Byte>)
    ensures ReadBlock(s + rest, |s|) == Ok((s, rest))
  {
    assert (s + rest)[..|s|] == s && (s + rest)[|s|..] == rest;
  }

  lemma RawRoundTrip(x: int, rest: seq<Byte>)
    requires IsInt(x)
    ensures ReadRaw(IntBytes(x) + rest) == Ok((x, rest))
  {
    BlockRoundTrip(IntBytes(x), rest);
    IntOfBytes(x);
  }

  lemma IntRoundTrip(x: int, rest: seq<Byte>)
    requires IsInt(x)
    ensures ReadInt(IntBytes(x) + rest) == if x < 0 then Err(BadInteger) else Ok((x as nat, rest))
  {
    RawRoundTrip(x, rest);
  }

  lemma VectorRoundTrip<T(!new)>(read: Reader<T>, write: T --> seq<Byte>, s: seq<T>, rest: seq<Byte>)
    requires IsSize(|s|) && forall x :: x in s ==> write.requires(x)
    requires forall x :: x in s ==> Inverse(read, write, x)
    ensures ReadVector(read, VectorBytes(write, s) + rest) == Ok((s, rest))
  {
    hide ReadInt, ReadMany, Concat;
    assert VectorBytes(write, s) + rest == IntBytes(|s|) + (Concat(write, s) + rest);
    IntRoundTrip(|s|, Concat(write, s) + rest);
    ManyRoundTrip(read, write, s, rest);
  }

  lemma StringRoundTrip(s: Name, rest: seq<Byte>)
    requires FitsName(s)
    ensures ReadString(StringBytes(s) + rest) == Ok((s, rest))
  {
    hide Little, Number;
    Powers();
    if s.None? {
      NumberOfLittle(0, SIZE_T_SIZE);
      BlockRoundTrip(Little(0, SIZE_T_SIZE), rest);
    } else {
      var size, bytes := |s.value| + 1, s.value + [0];
      NumberOfLittle(size, SIZE_T_SIZE);
      assert StringBytes(s) + rest == Little(size, SIZE_T_SIZE) + (bytes + rest);
      BlockRoundTrip(Little(size, SIZE_T_SIZE), bytes + rest);
      BlockRoundTrip(bytes, rest);
      assert bytes[..size-1] == s.value;
    }
  }

  lemma WordInverse(w: nat)
    requires w < INT_MODULUS
    ensures Inverse(ReadWord, WordBytes, w)
  {
    Powers();
    NumberOfLittle(w, INT_SIZE);
    forall more: seq<Byte> ensures ReadWord(WordBytes(w) + more) == Ok((w, more)) {
      BlockRoundTrip(WordBytes(w), more);
    }
  }

  lemma ConstantInverse(c: Constant)
    requires FitsConstant(c)
    ensures Inverse(ReadConstant, ConstantBytes, c)
  {
    hide ReadString, StringBytes;
    forall more: seq<Byte> ensures ReadConstant(ConstantBytes(c) + more) == Ok((c, more)) {
      var z := ConstantBytes(c) + more;
      match c
      case NilConst => assert z[1..] == more;
      case BoolConst(b) => assert z[1..][1..] == more;
      case NumberConst(bits) =>
        assert z[1..] == bits + more;
        BlockRoundTrip(bits, more);
      case StringConst(s) =>
        assert z[1..] == StringBytes(Some(s)) + more;
        StringRoundTrip(Some(s), more);
    }
  }

  lemma LocVarRoundTrip(v: LocVar, rest: seq<Byte>)
    requires FitsLocVar(v)
    ensures ReadLocVar(LocVarBytes(v) + rest) == if Negative(v) then Err(BadInteger) else Ok((v, rest))
  {
    hide ReadString, StringBytes, ReadInt, IntBytes;
    var z2 := IntBytes(v.endpc) + rest;
    var z1 := IntBytes(v.startpc) + z2;
    assert LocVarBytes(v) + rest == StringBytes(v.varname) + z1;
    StringRoundTrip(v.varname, z1);
    IntRoundTrip(v.startpc, z2);
    IntRoundTrip(v.endpc, rest);
  }

  lemma NegativeStep(s: seq<LocVar>)
    ensures !HasNegative([])
    ensures s != [] ==> (HasNegative(s) <==> Negative(s[0]) || HasNegative(s[1..]))
  {
    hide Negative;
    if s != [] { assert forall v :: v in s <==> v == s[0] || v in s[1..]; }
  }

  lemma {:induction false} ManyLocVars(s: seq<LocVar>, rest: seq<Byte>)
    requires forall v :: v in s ==> FitsLocVar(v)
    ensures ReadMany(ReadLocVar, Concat(LocVarBytes, s) + rest, |s|)
         == if HasNegative(s) then Err(BadInteger) else Ok((s, rest))
  {
    hide LocVarBytes, ReadLocVar, FitsLocVar, Negative, HasNegative;
    NegativeStep(s);
    if s == [] {
      assert Concat(LocVarBytes, s) + rest == rest;
    } else {
      var more := Concat(LocVarBytes, s[1..]) + rest;
      assert Concat(LocVarBytes, s) + rest == LocVarBytes(s[0]) + more;
      LocVarRoundTrip(s[0], more);
      ManyLocVars(s[1..], rest);
      assert s == [s[0]] + s[1..];
    }
  }

  lemma LocVarsRoundTrip(s: seq<LocVar>, rest: seq<Byte>)
    requires IsSize(|s|) && forall v :: v in s ==> FitsLocVar(v)
    ensures ReadVector(ReadLocVar, VectorBytes(LocVarBytes, s) + rest)
         == if HasNegative(s) then Err(BadInteger) else Ok((s, rest))
  {
    hide ReadInt, ReadMany, Concat, HasNegative;
    assert VectorBytes(LocVarBytes, s) + rest == IntBytes(|s|) + (Concat(LocVarBytes, s) + rest);
    IntRoundTrip(|s|, Concat(LocVarBytes, s) + rest);
    ManyLocVars(s, rest);
  }

  lemma RawInverse(x: int)
    requires IsInt(x)
    ensures Inverse(ReadRaw, IntBytes, x)
  {
    forall more: seq<Byte> ensures ReadRaw(IntBytes(x) + more) == Ok((x, more)) { RawRoundTrip(x, more); }
  }

  lemma StringInverse(s: Name)
    requires FitsName(s)
    ensures Inverse(ReadString, StringBytes, s)
  {
    forall more: seq<Byte> ensures ReadString(StringBytes(s) + more) == Ok((s, more)) { StringRoundTrip(s, more); }
  }

  /** The function when its source and lines are read. */
  function Placed(f: Function, q': seq<Byte>): (g: Function)
    ensures g.source == Some(q')
  {
    Function(Some(q'), f.linedefined, f.lastlinedefined, 0, 0, 0, 0, [], [], [], [], [], [])
  }

  /** The function when its code is read. */
  function Started(f: Function, q': seq<Byte>): (g: Function)
    ensures g.source == Some(q')
  {
    f.(source := Some(q'), k := [], p := [], lineinfo := [], locvars := [], upvalues := [])
  }

  lemma PlaceRoundTrip(f: Function, p: Name, q: seq<Byte>, strip: bool, rest: seq<Byte>)
    requires FitsStart(f) && (!strip && f.source == p && p.Some? ==> p.value == q)
    ensures ReadPlace(PlaceBytes(f, p, strip) + rest, q)
         == if f.linedefined < 0 || f.lastlinedefined < 0 then Err(BadInteger)
            else Ok((Placed(f, SourceRead(f, q, strip)), rest))
  {
    hide ReadString, StringBytes, ReadInt, IntBytes;
    var name := SourceWritten(f, p, strip);
    var z2 := IntBytes(f.lastlinedefined) + rest;
    var z1 := IntBytes(f.linedefined) + z2;
    assert PlaceBytes(f, p, strip) + rest == StringBytes(name) + z1;
    StringRoundTrip(name, z1);
    IntRoundTrip(f.linedefined, z2);
    IntRoundTrip(f.lastlinedefined, rest);
  }

  lemma CodeRoundTrip(f: Function, q': seq<Byte>, rest: seq<Byte>)
    requires FitsStart(f)
    ensures ReadCode(CodeBytes(f) + rest, Placed(f, q')) == Ok((Started(f, q'), rest))
  {
    hide ReadBlock, ReadVector, VectorBytes, Inverse, WordBytes;
    var bytes := [f.nups, f.numparams, f.isVararg, f.maxstacksize];
    var z1 := VectorBytes(WordBytes, f.code) + rest;
    assert CodeBytes(f) + rest == bytes + z1;
    BlockRoundTrip(bytes, z1);
    forall w | w in f.code ensures Inverse(ReadWord, WordBytes, w) { WordInverse(w); }
    VectorRoundTrip(ReadWord, WordBytes, f.code, rest);
  }

  lemma OwnConstantsRoundTrip(f: Function, rest: seq<Byte>)
    requires FitsConstants(f)
    ensures ReadVector(ReadConstant, VectorBytes(ConstantBytes, f.k) + rest) == Ok((f.k, rest))
  {
    hide ReadVector, VectorBytes, Inverse, FitsConstant, ConstantBytes;
    forall c | c in f.k ensures Inverse(ReadConstant, ConstantBytes, c) { ConstantInverse(c); }
    VectorRoundTrip(ReadConstant, ConstantBytes, f.k, rest);
  }

  lemma DebugRoundTrip(f: Function, g: Function, rest: seq<Byte>)
    requires FitsDebug(f)
    ensures ReadDebug(DebugBytes(f) + rest, g)
         == if HasNegative(f.locvars) then Err(BadInteger)
            else Ok((g.(lineinfo := f.lineinfo, locvars := f.locvars, upvalues := f.upvalues), rest))
  {
    hide ReadVector, VectorBytes, Inverse, HasNegative;
    forall x | x in f.lineinfo ensures Inverse(ReadRaw, IntBytes, x) { RawInverse(x); }
    forall s | s in f.upvalues ensures Inverse(ReadString, StringBytes, s) { StringInverse(s); }
    var z2 := VectorBytes(StringBytes, f.upvalues) + rest;
    var z1 := VectorBytes(LocVarBytes, f.locvars) + z2;
    assert DebugBytes(f) + rest == VectorBytes(IntBytes, f.lineinfo) + z1;
    VectorRoundTrip(ReadRaw, IntBytes, f.lineinfo, z1);
    LocVarsRoundTrip(f.locvars, z2);
    VectorRoundTrip(ReadString, StringBytes, f.upvalues, rest);
  }

  lemma FitsKept(f: Function, strip: bool)
    requires FitsDebug(f)
    ensures FitsDebug(Kept(f, strip))
  {
  }

  lemma FitsNested(f: Function, i: nat)
    requires Fits(f) && i < |f.p|
    ensures Fits(f.p[i])
  {
  }

  /** The checker sees no sources, and of nested functions only the number of upvalues. */
  lemma SameView(f: Function, q: seq<Byte>, strip: bool)
    ensures View(Loaded(f, q, strip)) == View(Kept(f, strip))
  {
    var g, q' := Loaded(f, q, strip), SourceRead(f, q, strip);
    forall i | 0 <= i < |f.p| ensures g.p[i].nups == f.p[i].nups {
      assert g.p[i] == Loaded(f.p[i], q', strip);
    }
    assert View(g).nested == View(Kept(f, strip)).nested;
    assert View(g).code == View(Kept(f, strip)).code && View(g).kIsString == View(Kept(f, strip)).kIsString;
  }

  /** Undump undoes dump: any function whose values fit their types, with all nested ones, is read back, and no byte
      more is read, or it is refused for the first reason there is. */
  lemma {:induction false} FunctionRoundTrip(f: Function, p: Name, q: seq<Byte>, strip: bool, rest: seq<Byte>,
                                             calls: nat)
    requires Fits(f) && (!strip && f.source == p && p.Some? ==> p.value == q)
    ensures ReadFunction(FunctionBytes(f, p, strip) + rest, q, calls)
         == match Refusal(f, strip, calls) case Some(e) => Err(e) case None => Ok((Loaded(f, q, strip), rest))
    decreases f, |f.p| + 2
  {
    hide ReadPlace, PlaceBytes, ReadCode, CodeBytes, ReadConstants, ConstantsBytes, ReadDebug, DebugBytes, View;
    hide Checker.Accepts, FitsStart, FitsConstants, FitsDebug, HasNegative, RefusalFrom, Placed;
    if calls + 1 <= LUAI_MAXCCALLS {
      var q' := SourceRead(f, q, strip);
      FitsKept(f, strip);
      var z2 := DebugBytes(Kept(f, strip)) + rest;
      var z1 := ConstantsBytes(f, strip) + z2;
      var z0 := CodeBytes(f) + z1;
      assert FunctionBytes(f, p, strip) + rest == PlaceBytes(f, p, strip) + z0;
      PlaceRoundTrip(f, p, q, strip, z0);
      CodeRoundTrip(f, q', z1);
      ConstantsRoundTrip(f, q', strip, z2, calls + 1);
      var f2 := Started(f, q').(k := f.k, p := LoadedFrom(f, 0, q', strip));
      DebugRoundTrip(Kept(f, strip), f2, rest);
      LoadedWhole(f, q, strip);
      SameView(f, q, strip);
    }
  }

  lemma {:induction false} ConstantsRoundTrip(f: Function, q': seq<Byte>, strip: bool, rest: seq<Byte>, calls: nat)
    requires Fits(f) && (!strip && f.source.Some? ==> f.source.value == q')
    ensures ReadConstants(ConstantsBytes(f, strip) + rest, Started(f, q'), calls)
         == match RefusalFrom(f, 0, strip, calls)
            case Some(e) => Err(e)
            case None => Ok((Started(f, q').(k := f.k, p := LoadedFrom(f, 0, q', strip)), rest))
    decreases f, |f.p| + 1
  {
    hide ReadVector, VectorBytes, ReadInt, IntBytes, FitsStart, FitsDebug, FitsConstant, RefusalFrom, Started;
    var z2 := NestedBytes(f, 0, strip) + rest;
    var z1 := IntBytes(|f.p|) + z2;
    assert ConstantsBytes(f, strip) + rest == VectorBytes(ConstantBytes, f.k) + z1;
    OwnConstantsRoundTrip(f, z1);
    IntRoundTrip(|f.p|, z2);
    NestedRoundTrip(f, 0, q', strip, rest, calls);
  }

  ghost function LoadedFrom(f: Function, i: nat, q: seq<Byte>, strip: bool): seq<Function>
    requires i <= |f.p|
    decreases |f.p| - i
  {
    if i == |f.p| then [] else [Loaded(f.p[i], q, strip)] + LoadedFrom(f, i + 1, q, strip)
  }

  lemma {:induction false} LoadedElements(f: Function, i: nat, q: seq<Byte>, strip: bool)
    requires i <= |f.p|
    ensures |LoadedFrom(f, i, q, strip)| == |f.p| - i
    ensures forall j :: 0 <= j < |f.p| - i ==> LoadedFrom(f, i, q, strip)[j] == Loaded(f.p[i+j], q, strip)
    decreases |f.p| - i
  {
    if i < |f.p| { LoadedElements(f, i + 1, q, strip); }
  }

  lemma LoadedWhole(f: Function, q: seq<Byte>, strip: bool)
    ensures LoadedFrom(f, 0, SourceRead(f, q, strip), strip) == Loaded(f, q, strip).p
  {
    LoadedElements(f, 0, SourceRead(f, q, strip), strip);
  }

  lemma ReadFirst(z: seq<Byte>, n: nat, p: seq<Byte>, calls: nat)
    requires n > 0
    ensures ReadFunctions(z, n, p, calls) == match ReadFunction(z, p, calls)
      case Err(e) => Err(e)
      case Ok(v) => Prepend([v.0], ReadFunctions(v.1, n - 1, p, calls))
  {
    hide ReadFunction;
  }

  lemma {:induction false} NestedRoundTrip(f: Function, i: nat, q: seq<Byte>, strip: bool, rest: seq<Byte>, calls: nat)
    requires Fits(f) && i <= |f.p| && (!strip && f.source.Some? ==> f.source.value == q)
    ensures ReadFunctions(NestedBytes(f, i, strip) + rest, |f.p| - i, q, calls)
         == match RefusalFrom(f, i, strip, calls)
            case Some(e) => Err(e) case None => Ok((LoadedFrom(f, i, q, strip), rest))
    decreases f, |f.p| - i
  {
    hide Fits, ReadFunction, FunctionBytes, Loaded, Refusal;
    if i == |f.p| {
      assert NestedBytes(f, i, strip) + rest == rest;
    } else {
      FitsNested(f, i);
      var more := NestedBytes(f, i + 1, strip) + rest;
      assert NestedBytes(f, i, strip) + rest == FunctionBytes(f.p[i], f.source, strip) + more;
      ReadFirst(NestedBytes(f, i, strip) + rest, |f.p| - i, q, calls);
      FunctionRoundTrip(f.p[i], f.source, q, strip, more, calls);
      NestedRoundTrip(f, i + 1, q, strip, rest, calls);
    }
  }

  // ----- whole chunks -----

  const HEADER_SIZE: nat := 12

  /** luaU_header: the signature, the version, the format, little-endian, the sizes of int, size_t, Instruction and
      lua_Number, and numbers are not integral. */
  const HEADER: seq<Byte> := [27, 76, 117, 97, 0x51, 0, 1, INT_SIZE, SIZE_T_SIZE, INT_SIZE, NUMBER_SIZE, 0]

  /** The source of a function that has none. */
  const NO_SOURCE: seq<Byte> := [61, 63]

  function ReadHeader(z: seq<Byte>): Result<((), seq<Byte>), LoadError> {
    var (s, rest) :- ReadBlock(z, HEADER_SIZE);
    if s == HEADER then Ok(((), rest)) else Err(BadHeader)
  }

  /** luaU_undump */
  ghost function ReadChunk(z: seq<Byte>, calls: nat): Result<(Function, seq<Byte>), LoadError> {
    var (h, rest) :- ReadHeader(z);
    ReadFunction(rest, NO_SOURCE, calls)
  }

  /** luaU_dump */
  ghost function ChunkBytes(f: Function, strip: bool): seq<Byte>
    requires Fits(f)
  {
    HEADER + FunctionBytes(f, None, strip)
  }

  lemma ChunkRoundTrip(f: Function, strip: bool, rest: seq<Byte>, calls: nat)
    requires Fits(f)
    ensures ReadChunk(ChunkBytes(f, strip) + rest, calls) == match Refusal(f, strip, calls)
      case Some(e) => Err(e) case None => Ok((Loaded(f, NO_SOURCE, strip), rest))
  {
    hide ReadFunction, FunctionBytes, Refusal, Loaded, ReadBlock;
    assert ChunkBytes(f, strip) + rest == HEADER + (FunctionBytes(f, None, strip) + rest);
    BlockRoundTrip(HEADER, FunctionBytes(f, None, strip) + rest);
    FunctionRoundTrip(f, None, NO_SOURCE, strip, rest, calls);
  }

  // ----- the smallest chunk, byte by byte -----

  lemma SmallLittle(n: Byte, w: nat)
    requires w > 0
    ensures Little(n, w) == [n] + Little(0, w - 1)
  {
  }

  lemma SmallInt(n: Byte)
    ensures IntBytes(n) == [n, 0, 0, 0]
  {
    SmallLittle(n, 4);
    SmallLittle(0, 3);
    SmallLittle(0, 2);
    SmallLittle(0, 1);
  }

  lemma SmallSize(n: Byte)
    ensures Little(n, SIZE_T_SIZE) == [n, 0, 0, 0, 0, 0, 0, 0]
  {
    SmallLittle(n, 8);
    SmallLittle(0, 7);
    SmallLittle(0, 6);
    SmallLittle(0, 5);
    SmallLittle(0, 4);
    SmallLittle(0, 3);
    SmallLittle(0, 2);
    SmallLittle(0, 1);
  }

  /** RETURN 0 1, the last instruction of every function. */
  const FINAL_RETURN: nat := 0x0080001E

  lemma FinalReturn()
    ensures WordBytes(FINAL_RETURN) == [0x1E, 0, 0x80, 0]
    ensures Decode(FINAL_RETURN) == Checker.Word(Checker.OP_RETURN, 0, 1, 0)
  {
    assert Little(FINAL_RETURN, 4) == [0x1E] + Little(0x8000, 3);
    assert Little(0x8000, 3) == [0] + Little(0x80, 2);
    SmallLittle(0x80, 2);
    SmallLittle(0, 1);
    assert OpCodeOf(30) == Checker.OP_RETURN;
  }

  /** A function that only returns is accepted if its header is right. */
  lemma ReturnAccepted(f: Function)
    requires f.code == [FINAL_RETURN] && Checker.Precheck(View(f)) && f.maxstacksize > 0
    ensures Checker.Accepts(View(f))
  {
    FinalReturn();
    var pt := View(f);
    assert pt.code == [Checker.Word(Checker.OP_RETURN, 0, 1, 0)];
    assert Checker.OperandsOk(pt, 0) && Checker.TestOk(pt, 0) && Checker.OwnChecks(pt, 0);
    assert Checker.InstructionOk(pt, 0);
  }

  /** An empty main function without source and debug information. */
  function SmallestFunction(): Function {
    Function(None, 0, 0, 0, 0, 2, 2, [FINAL_RETURN], [], [], [], [], [])
  }

  lemma OneReturn(f: Function)
    requires f.code == [FINAL_RETURN]
    ensures VectorBytes(WordBytes, f.code) == [1, 0, 0, 0, 0x1E, 0, 0x80, 0]
  {
    SmallInt(1);
    FinalReturn();
    assert Concat(WordBytes, f.code) == WordBytes(FINAL_RETURN) + Concat(WordBytes, f.code[1..]);
  }

  lemma NoElements<T>(write: T --> seq<Byte>)
    ensures VectorBytes(write, []) == [0, 0, 0, 0]
  {
    SmallInt(0);
    assert Concat(write, []) == [];
  }

  lemma SmallestParts()
    ensures var f := SmallestFunction();
      && FitsStart(f) && FitsConstants(f) && FitsDebug(f)
      && PlaceBytes(f, None, false) == [0, 0, 0, 0, 0, 0, 0, 0, 0, 0, 0, 0, 0, 0, 0, 0]
      && CodeBytes(f) == [0, 0, 2, 2, 1, 0, 0, 0, 0x1E, 0, 0x80, 0]
      && VectorBytes(ConstantBytes, f.k) == [0, 0, 0, 0]
      && DebugBytes(f) == [0, 0, 0, 0, 0, 0, 0, 0, 0, 0, 0, 0]
  {
    hide VectorBytes, IntBytes, Little;
    var f := SmallestFunction();
    SmallInt(0);
    SmallSize(0);
    OneReturn(f);
    NoElements(ConstantBytes);
    NoElements(IntBytes);
    NoElements(LocVarBytes);
    NoElements(StringBytes);
  }

  const SMALLEST_CHUNK: seq<Byte> :=
    [27, 76, 117, 97, 0x51, 0, 1, 4, 8, 4, 8, 0]               // header
    + ([0, 0, 0, 0, 0, 0, 0, 0, 0, 0, 0, 0, 0, 0, 0, 0]        // no source, lines
       + ([0, 0, 2, 2, 1, 0, 0, 0, 0x1E, 0, 0x80, 0]           // upvalues, parameters, vararg, stack; code
          + ([0, 0, 0, 0, 0, 0, 0, 0]                          // constants, functions
             + [0, 0, 0, 0, 0, 0, 0, 0, 0, 0, 0, 0])))         // lines, local variables, upvalues

  lemma SmallestWritten()
    ensures Fits(SmallestFunction())
    ensures ChunkBytes(SmallestFunction(), false) == SMALLEST_CHUNK
  {
    hide PlaceBytes, CodeBytes, VectorBytes, DebugBytes, IntBytes, FitsStart, FitsConstants, FitsDebug;
    var f := SmallestFunction();
    SmallestParts();
    SmallInt(0);
    assert NestedBytes(f, 0, false) == [];
    assert ConstantsBytes(f, false) == [0, 0, 0, 0, 0, 0, 0, 0];
    assert Kept(f, false) == f;
    assert HEADER == [27, 76, 117, 97, 0x51, 0, 1, 4, 8, 4, 8, 0];
  }

  lemma SmallestSound()
    ensures Refusal(SmallestFunction(), false, 0) == None
    ensures Loaded(SmallestFunction(), NO_SOURCE, false) == SmallestFunction().(source := Some([61, 63]))
  {
    hide Checker.Accepts;
    var f := SmallestFunction();
    ReturnAccepted(f);
    assert Kept(f, false) == f;
    assert RefusalFrom(f, 0, false, 1) == None;
    assert !HasNegative(f.locvars);
  }

  /** The smallest chunk is loaded. */
  lemma SmallestLoaded(rest: seq<Byte>)
    ensures ReadChunk(SMALLEST_CHUNK + rest, 0) == Ok((SmallestFunction().(source := Some([61, 63])), rest))
  {
    hide ChunkBytes, ReadChunk, Refusal, Loaded, Fits;
    SmallestWritten();
    SmallestSound();
    ChunkRoundTrip(SmallestFunction(), false, rest, 0);
  }

  // ----- which functions come back as they were -----

  /** How many calls of LoadFunction are active at a time. */
  ghost function Depth(f: Function): (d: nat)
    decreases f, |f.p| + 1
  {
    1 + DepthFrom(f, 0)
  }

  ghost function DepthFrom(f: Function, i: nat): nat
    requires i <= |f.p|
    decreases f, |f.p| - i
  {
    if i == |f.p| then 0
    else
      var d, e := Depth(f.p[i]), DepthFrom(f, i + 1);
      if d > e then d else e
  }

  /** What the compiler makes: no negative lines and positions, and code that the checker accepts. */
  ghost predicate Sound(f: Function) {
    && f.linedefined >= 0 && f.lastlinedefined >= 0 && !HasNegative(f.locvars)
    && Checker.Accepts(View(f)) && forall i :: 0 <= i < |f.p| ==> Sound(f.p[i])
  }

  /** Each function has a source. */
  ghost predicate Sourced(f: Function) {
    f.source.Some? && forall i :: 0 <= i < |f.p| ==> Sourced(f.p[i])
  }

  lemma SameChecks(pt: Checker.Proto, pt': Checker.Proto, pc: nat)
    requires pt' == pt.(sizeupvalues := 0, sizelineinfo := 0) && pc < |pt.code| && Checker.InstructionOk(pt, pc)
    ensures Checker.InstructionOk(pt', pc)
  {
    assert Checker.OperandsOk(pt', pc) by { hide Checker.OwnChecks, Checker.TestOk; }
    assert Checker.TestOk(pt', pc) by { hide Checker.OwnChecks, Checker.OperandsOk; }
    assert Checker.OwnChecks(pt', pc) by { hide Checker.OperandsOk, Checker.TestOk; }
  }

  /** The checker accepts a stripped function if it accepts the function. */
  lemma KeptAccepted(f: Function, strip: bool)
    requires Checker.Accepts(View(f))
    ensures Checker.Accepts(View(Kept(f, strip)))
  {
    hide Checker.InstructionOk, Checker.IsStart;
    if strip {
      var pt, pt' := View(f), View(Kept(f, strip));
      assert pt'.code == pt.code && pt'.kIsString == pt.kIsString && pt'.nested == pt.nested;
      assert pt' == pt.(sizeupvalues := 0, sizelineinfo := 0);
      forall pc: nat | pc < |pt'.code| && Checker.IsStart(pt'.code, pc)
        ensures Checker.InstructionOk(pt', pc)
      {
        assert Checker.InstructionOk(pt, pc);
        SameChecks(pt, pt', pc);
      }
    }
  }

  /** A sound function is refused only if it is nested too deep. */
  lemma {:induction false} SoundRefusal(f: Function, strip: bool, calls: nat)
    requires Sound(f)
    ensures Refusal(f, strip, calls) == if calls + Depth(f) <= LUAI_MAXCCALLS then None else Some(TooDeep)
    decreases f, |f.p| + 1
  {
    hide View, Checker.Accepts;
    if calls + 1 <= LUAI_MAXCCALLS {
      SoundFrom(f, 0, strip, calls + 1);
      KeptAccepted(f, strip);
    }
  }

  lemma {:induction false} SoundFrom(f: Function, i: nat, strip: bool, calls: nat)
    requires Sound(f) && i <= |f.p| && calls <= LUAI_MAXCCALLS
    ensures RefusalFrom(f, i, strip, calls)
         == if calls + DepthFrom(f, i) <= LUAI_MAXCCALLS then None else Some(TooDeep)
    decreases f, |f.p| - i
  {
    hide Refusal, Depth;
    if i < |f.p| {
      SoundRefusal(f.p[i], strip, calls);
      SoundFrom(f, i + 1, strip, calls);
    }
  }

  lemma {:induction false} LoadedSame(f: Function, q: seq<Byte>)
    requires Sourced(f)
    ensures Loaded(f, q, false) == f
  {
    forall i | 0 <= i < |f.p| ensures Loaded(f.p[i], f.source.value, false) == f.p[i] {
      LoadedSame(f.p[i], f.source.value);
    }
    assert Loaded(f, q, false).p == f.p;
  }

  /** Dump, then undump, is the identity on what the compiler makes. */
  lemma DumpUndump(f: Function, calls: nat)
    requires Fits(f) && Sound(f) && Sourced(f) && calls + Depth(f) <= LUAI_MAXCCALLS
    ensures ReadChunk(ChunkBytes(f, false), calls) == Ok((f, []))
  {
    hide Fits, Sound, Sourced, ReadChunk, ChunkBytes, Depth, Loaded, Refusal;
    ChunkRoundTrip(f, false, [], calls);
    assert ChunkBytes(f, false) + [] == ChunkBytes(f, false);
    SoundRefusal(f, false, calls);
    LoadedSame(f, NO_SOURCE);
  }

  /** What is left of a stripped function, field by field. */
  lemma StripKeeps(f: Function, q: seq<Byte>)
    ensures Loaded(f, q, true)
         == Function(Some(q), f.linedefined, f.lastlinedefined, f.nups, f.numparams, f.isVararg, f.maxstacksize,
                     f.code, f.k, seq(|f.p|, i requires 0 <= i < |f.p| => Loaded(f.p[i], q, true)), [], [], [])
  {
  }

  /** Stripping loses sources, lines and names, and nothing else. */
  lemma StripUndump(f: Function, calls: nat)
    requires Fits(f) && Sound(f) && calls + Depth(f) <= LUAI_MAXCCALLS
    ensures ReadChunk(ChunkBytes(f, true), calls) == Ok((Loaded(f, NO_SOURCE, true), []))
  {
    hide Fits, Sound, ReadChunk, ChunkBytes, Depth, Loaded, Refusal;
    ChunkRoundTrip(f, true, [], calls);
    assert ChunkBytes(f, true) + [] == ChunkBytes(f, true);
    SoundRefusal(f, true, calls);
  }

  // ----- a chunk with every part -----

  /** A function nested in one with the same source. */
  function InnerFunction(): Function {
    Function(Some([64]), 3, 5, 0, 0, 0, 2, [FINAL_RETURN], [], [], [], [], [])
  }

  /** A function with constants of all kinds, a nested function and debug information. */
  function OuterFunction(): Function {
    Function(Some([64]), 1, 2, 2, 1, 3, 4, [FINAL_RETURN],
             [NilConst, BoolConst(true), NumberConst([1, 2, 3, 4, 5, 6, 7, 8]), StringConst([107])],
             [InnerFunction()], [6], [LocVar(Some([118]), 0, 9)], [Some([117])])
  }

  const OUTER_CHUNK: seq<Byte> :=
    [27, 76, 117, 97, 0x51, 0, 1, 4, 8, 4, 8, 0]                           // header
    + ([2, 0, 0, 0, 0, 0, 0, 0, 64, 0, 1, 0, 0, 0, 2, 0, 0, 0]             // source, lines
       + ([2, 1, 3, 4, 1, 0, 0, 0, 0x1E, 0, 0x80, 0]                       // upvalues, parameters, vararg, stack; code
          + (OUTER_CONSTANTS + OUTER_DEBUG)))

  const OUTER_CONSTANTS: seq<Byte> :=
    ([4, 0, 0, 0]
     + ([0] + ([1, 1] + ([3, 1, 2, 3, 4, 5, 6, 7, 8] + [4, 2, 0, 0, 0, 0, 0, 0, 0, 107, 0]))))
    + ([1, 0, 0, 0]
       + ([0, 0, 0, 0, 0, 0, 0, 0, 3, 0, 0, 0, 5, 0, 0, 0]
          + ([0, 0, 0, 2, 1, 0, 0, 0, 0x1E, 0, 0x80, 0]
             + ([0, 0, 0, 0, 0, 0, 0, 0] + [0, 0, 0, 0, 0, 0, 0, 0, 0, 0, 0, 0]))))

  const OUTER_DEBUG: seq<Byte> :=
    [1, 0, 0, 0, 6, 0, 0, 0]
    + ([1, 0, 0, 0, 2, 0, 0, 0, 0, 0, 0, 0, 118, 0, 0, 0, 0, 0, 9, 0, 0, 0]
       + [1, 0, 0, 0, 2, 0, 0, 0, 0, 0, 0, 0, 117, 0])

  lemma OneElement<T>(write: T --> seq<Byte>, x: T)
    requires write.requires(x)
    ensures VectorBytes(write, [x]) == [1, 0, 0, 0] + write(x)
  {
    SmallInt(1);
    assert [x][1..] == [];
    assert Concat(write, [x]) == write(x) + Concat(write, [x][1..]);
  }

  lemma OneByteString(c: Byte)
    ensures StringBytes(Some([c])) == [2, 0, 0, 0, 0, 0, 0, 0, c, 0]
  {
    SmallSize(2);
  }

  lemma InnerParts()
    ensures var f := InnerFunction();
      && FitsStart(f) && FitsConstants(f) && FitsDebug(f)
      && PlaceBytes(f, Some([64]), false) == [0, 0, 0, 0, 0, 0, 0, 0, 3, 0, 0, 0, 5, 0, 0, 0]
      && CodeBytes(f) == [0, 0, 0, 2, 1, 0, 0, 0, 0x1E, 0, 0x80, 0]
      && VectorBytes(ConstantBytes, f.k) == [0, 0, 0, 0]
      && DebugBytes(f) == [0, 0, 0, 0, 0, 0, 0, 0, 0, 0, 0, 0]
  {
    hide VectorBytes, IntBytes, Little;
    var f := InnerFunction();
    SmallInt(3);
    SmallInt(5);
    SmallSize(0);
    OneReturn(f);
    NoElements(ConstantBytes);
    NoElements(IntBytes);
    NoElements(LocVarBytes);
    NoElements(StringBytes);
  }

  lemma InnerWritten()
    ensures Fits(InnerFunction())
    ensures FunctionBytes(InnerFunction(), Some([64]), false)
         == [0, 0, 0, 0, 0, 0, 0, 0, 3, 0, 0, 0, 5, 0, 0, 0]
            + ([0, 0, 0, 2, 1, 0, 0, 0, 0x1E, 0, 0x80, 0]
               + ([0, 0, 0, 0, 0, 0, 0, 0] + [0, 0, 0, 0, 0, 0, 0, 0, 0, 0, 0, 0]))
  {
    hide PlaceBytes, CodeBytes, VectorBytes, DebugBytes, IntBytes, FitsStart, FitsConstants, FitsDebug;
    var f := InnerFunction();
    InnerParts();
    SmallInt(0);
    assert NestedBytes(f, 0, false) == [];
    assert ConstantsBytes(f, false) == [0, 0, 0, 0, 0, 0, 0, 0];
    assert Kept(f, false) == f;
  }

  lemma NextConstant(c: Constant, more: seq<Constant>)
    requires FitsConstant(c) && forall x :: x in more ==> FitsConstant(x)
    ensures Concat(ConstantBytes, [c] + more) == ConstantBytes(c) + Concat(ConstantBytes, more)
  {
    assert ([c] + more)[1..] == more;
  }

  lemma LastConstant(c: Constant)
    requires FitsConstant(c)
    ensures Concat(ConstantBytes, [c]) == ConstantBytes(c)
  {
    assert [c][1..] == [];
    assert Concat(ConstantBytes, [c]) == ConstantBytes(c) + Concat(ConstantBytes, []);
  }

  lemma FourConstants(a: Constant, b: Constant, c: Constant, d: Constant)
    requires FitsConstant(a) && FitsConstant(b) && FitsConstant(c) && FitsConstant(d)
    ensures forall x :: x in [a, b, c, d] ==> FitsConstant(x)
    ensures Concat(ConstantBytes, [a, b, c, d])
         == ConstantBytes(a) + (ConstantBytes(b) + (ConstantBytes(c) + ConstantBytes(d)))
  {
    hide FitsConstant;
    LastConstant(d);
    NextConstant(c, [d]);
    NextConstant(b, [c, d]);
    NextConstant(a, [b, c, d]);
    assert [c] + [d] == [c, d] && [b] + [c, d] == [b, c, d] && [a] + [b, c, d] == [a, b, c, d];
  }

  lemma ConstantKinds()
    ensures var k := OuterFunction().k;
      && FitsConstant(k[0]) && FitsConstant(k[1]) && FitsConstant(k[2]) && FitsConstant(k[3])
      && ConstantBytes(k[0]) == [0] && ConstantBytes(k[1]) == [1, 1]
      && ConstantBytes(k[2]) == [3, 1, 2, 3, 4, 5, 6, 7, 8]
      && ConstantBytes(k[3]) == [4, 2, 0, 0, 0, 0, 0, 0, 0, 107, 0]
  {
    hide StringBytes;
    OneByteString(107);
  }

  lemma FourAsVector(k: seq<Constant>)
    requires |k| == 4 && forall i :: 0 <= i < 4 ==> FitsConstant(k[i])
    ensures forall x :: x in k ==> FitsConstant(x)
    ensures VectorBytes(ConstantBytes, k)
         == [4, 0, 0, 0]
            + (ConstantBytes(k[0]) + (ConstantBytes(k[1]) + (ConstantBytes(k[2]) + ConstantBytes(k[3]))))
  {
    hide FitsConstant, ConstantBytes, IntBytes, Concat;
    SmallInt(4);
    FourConstants(k[0], k[1], k[2], k[3]);
    assert k == [k[0], k[1], k[2], k[3]];
  }

  lemma ConstantsOfAllKinds()
    ensures var k := OuterFunction().k;
      && IsSize(|k|) && (forall c :: c in k ==> FitsConstant(c))
      && VectorBytes(ConstantBytes, k)
         == [4, 0, 0, 0]
            + ([0] + ([1, 1] + ([3, 1, 2, 3, 4, 5, 6, 7, 8] + [4, 2, 0, 0, 0, 0, 0, 0, 0, 107, 0])))
  {
    hide FitsConstant, ConstantBytes, VectorBytes;
    ConstantKinds();
    FourAsVector(OuterFunction().k);
  }

  lemma OuterStart()
    ensures var f := OuterFunction();
      && FitsStart(f)
      && PlaceBytes(f, None, false) == [2, 0, 0, 0, 0, 0, 0, 0, 64, 0, 1, 0, 0, 0, 2, 0, 0, 0]
      && CodeBytes(f) == [2, 1, 3, 4, 1, 0, 0, 0, 0x1E, 0, 0x80, 0]
  {
    hide VectorBytes, IntBytes, Little, StringBytes;
    var f := OuterFunction();
    SmallInt(1);
    SmallInt(2);
    OneByteString(64);
    OneReturn(f);
  }

  lemma OneOfEach(x: int, v: LocVar, s: Name)
    requires IsInt(x) && FitsLocVar(v) && FitsName(s)
    ensures VectorBytes(IntBytes, [x]) == [1, 0, 0, 0] + IntBytes(x)
    ensures VectorBytes(LocVarBytes, [v]) == [1, 0, 0, 0] + LocVarBytes(v)
    ensures VectorBytes(StringBytes, [s]) == [1, 0, 0, 0] + StringBytes(s)
  {
    OneElement(IntBytes, x);
    OneElement(LocVarBytes, v);
    OneElement(StringBytes, s);
  }

  lemma OuterDebug()
    ensures var f := OuterFunction(); FitsDebug(f) && DebugBytes(f) == OUTER_DEBUG
  {
    hide VectorBytes, IntBytes, Little, StringBytes;
    var f := OuterFunction();
    SmallInt(0);
    SmallInt(6);
    SmallInt(9);
    OneByteString(117);
    OneByteString(118);
    OneOfEach(6, f.locvars[0], f.upvalues[0]);
    assert VectorBytes(LocVarBytes, f.locvars)
        == [1, 0, 0, 0, 2, 0, 0, 0, 0, 0, 0, 0, 118, 0, 0, 0, 0, 0, 9, 0, 0, 0];
  }

  /** Every part has its place, in the file as in the function. */
  lemma OuterWritten()
    ensures Fits(OuterFunction())
    ensures ChunkBytes(OuterFunction(), false) == OUTER_CHUNK
  {
    hide PlaceBytes, CodeBytes, VectorBytes, DebugBytes, IntBytes, FitsStart, FitsDebug;
    var f := OuterFunction();
    OuterStart();
    OuterDebug();
    ConstantsOfAllKinds();
    InnerWritten();
    SmallInt(1);
    var inner := FunctionBytes(f.p[0], f.source, false);
    assert NestedBytes(f, 1, false) == [];
    assert NestedBytes(f, 0, false) == inner + NestedBytes(f, 1, false) == inner;
    assert ConstantsBytes(f, false) == OUTER_CONSTANTS;
    assert Kept(f, false) == f;
    assert HEADER == [27, 76, 117, 97, 0x51, 0, 1, 4, 8, 4, 8, 0];
  }

  lemma OuterSound()
    ensures Sound(OuterFunction()) && Sourced(OuterFunction()) && Depth(OuterFunction()) == 2
  {
    hide Checker.Accepts;
    var f := OuterFunction();
    ReturnAccepted(f);
    ReturnAccepted(f.p[0]);
    assert DepthFrom(f.p[0], 0) == 0 && DepthFrom(f, 1) == 0;
  }

  lemma OuterLoaded()
    ensures ReadChunk(OUTER_CHUNK, 0) == Ok((OuterFunction(), []))
  {
    hide ChunkBytes, ReadChunk, Fits, Sound, Sourced, Depth;
    OuterWritten();
    OuterSound();
    DumpUndump(OuterFunction(), 0);
  }

  // ----- what undump lets pass -----

  ghost predicate AllAccepted(f: Function) {
    Checker.Accepts(View(f)) && forall i :: 0 <= i < |f.p| ==> AllAccepted(f.p[i])
  }

  /** Whatever the bytes are: the checker has accepted each function that undump returns. */
  lemma {:induction false} OnlyAccepted(z: seq<Byte>, p: seq<Byte>, calls: nat)
    ensures var r := ReadFunction(z, p, calls); r.Ok? ==> AllAccepted(r.value.0)
    decreases LUAI_MAXCCALLS - calls, 0, 0
  {
    hide ReadPlace, ReadCode, ReadConstants, View, Checker.Accepts;
    if ReadFunction(z, p, calls).Ok? {
      var (f0, z0) := ReadPlace(z, p).value;
      var (f1, z1) := ReadCode(z0, f0).value;
      OnlyAcceptedNested(z1, f1, calls + 1);
    }
  }

  lemma {:induction false} OnlyAcceptedNested(z: seq<Byte>, f: Function, calls: nat)
    requires f.source.Some?
    ensures var r := ReadConstants(z, f, calls);
      r.Ok? ==> forall i :: 0 <= i < |r.value.0.p| ==> AllAccepted(r.value.0.p[i])
    decreases LUAI_MAXCCALLS - calls, 2, 0
  {
    hide ReadVector, ReadInt, ReadFunctions, AllAccepted;
    if ReadConstants(z, f, calls).Ok? {
      var z1 := ReadVector(ReadConstant, z).value.1;
      var (n, z2) := ReadInt(z1).value;
      OnlyAcceptedMany(z2, n, f.source.value, calls);
    }
  }

  lemma {:induction false} OnlyAcceptedMany(z: seq<Byte>, n: nat, p: seq<Byte>, calls: nat)
    ensures var r := ReadFunctions(z, n, p, calls);
      r.Ok? ==> forall i :: 0 <= i < |r.value.0| ==> AllAccepted(r.value.0[i])
    decreases LUAI_MAXCCALLS - calls, 1, n
  {
    hide ReadFunction, AllAccepted;
    if n > 0 {
      ReadFirst(z, n, p, calls);
      if ReadFunctions(z, n, p, calls).Ok? {
        OnlyAccepted(z, p, calls);
        OnlyAcceptedMany(ReadFunction(z, p, calls).value.1, n - 1, p, calls);
      }
    }
  }

  // ----- chunks that end too early -----

  /** A reader that comes to the end of the input does not depend on what follows. */
  ghost predicate Extends<T(!new)>(r: Result<(T, seq<Byte>), LoadError>, r': Result<(T, seq<Byte>), LoadError>,
                                   more: seq<Byte>) {
    match r
    case Ok(v) => r' == Ok((v.0, v.1 + more))
    case Err(e) => e != UnexpectedEnd ==> r' == Err(e)
  }

  lemma BlockExtends(z: seq<Byte>, n: nat, more: seq<Byte>)
    ensures Extends(ReadBlock(z, n), ReadBlock(z + more, n), more)
  {
    if n <= |z| { assert (z + more)[..n] == z[..n] && (z + more)[n..] == z[n..] + more; }
  }

  lemma RawExtends(z: seq<Byte>, more: seq<Byte>)
    ensures Extends(ReadRaw(z), ReadRaw(z + more), more)
    ensures Extends(ReadInt(z), ReadInt(z + more), more)
    ensures Extends(ReadWord(z), ReadWord(z + more), more)
  {
    BlockExtends(z, INT_SIZE, more);
  }

  lemma StringExtends(z: seq<Byte>, more: seq<Byte>)
    ensures Extends(ReadString(z), ReadString(z + more), more)
  {
    hide ReadBlock;
    BlockExtends(z, SIZE_T_SIZE, more);
    if ReadBlock(z, SIZE_T_SIZE).Ok? {
      var (s, rest) := ReadBlock(z, SIZE_T_SIZE).value;
      BlockExtends(rest, Number(s), more);
    }
  }

  lemma ConstantExtends(z: seq<Byte>, more: seq<Byte>)
    ensures Extends(ReadConstant(z), ReadConstant(z + more), more)
  {
    hide ReadBlock, ReadString;
    if |z| > 0 {
      assert (z + more)[1..] == z[1..] + more;
      BlockExtends(z[1..], NUMBER_SIZE, more);
      StringExtends(z[1..], more);
      if |z| > 1 { assert (z[1..] + more)[1..] == z[1..][1..] + more; }
    }
  }

  lemma LocVarExtends(z: seq<Byte>, more: seq<Byte>)
    ensures Extends(ReadLocVar(z), ReadLocVar(z + more), more)
  {
    hide ReadInt, ReadString;
    StringExtends(z, more);
    if ReadString(z).Ok? {
      var z1 := ReadString(z).value.1;
      RawExtends(z1, more);
      if ReadInt(z1).Ok? { RawExtends(ReadInt(z1).value.1, more); }
    }
  }

  ghost predicate Extensible<T(!new)>(read: Reader<T>, more: seq<Byte>) {
    forall z :: Extends(read(z), read(z + more), more)
  }

  lemma {:induction false} ManyExtends<T(!new)>(read: Reader<T>, z: seq<Byte>, n: nat, more: seq<Byte>)
    requires Extensible(read, more)
    ensures Extends(ReadMany(read, z, n), ReadMany(read, z + more, n), more)
    decreases n
  {
    if n > 0 {
      assert Extends(read(z), read(z + more), more);
      if read(z).Ok? { ManyExtends(read, read(z).value.1, n - 1, more); }
    }
  }

  lemma VectorExtends<T(!new)>(read: Reader<T>, z: seq<Byte>, more: seq<Byte>)
    requires Extensible(read, more)
    ensures Extends(ReadVector(read, z), ReadVector(read, z + more), more)
  {
    hide ReadInt, ReadMany;
    RawExtends(z, more);
    if ReadInt(z).Ok? {
      var (n, rest) := ReadInt(z).value;
      ManyExtends(read, rest, n, more);
    }
  }

  lemma AllExtensible(more: seq<Byte>)
    ensures Extensible(ReadRaw, more) && Extensible(ReadWord, more) && Extensible(ReadString, more)
    ensures Extensible(ReadConstant, more) && Extensible(ReadLocVar, more)
  {
    hide ReadRaw, ReadWord, ReadString, ReadConstant, ReadLocVar, Extends;
    forall z: seq<Byte>
      ensures Extends(ReadRaw(z), ReadRaw(z + more), more) && Extends(ReadWord(z), ReadWord(z + more), more)
      ensures Extends(ReadString(z), ReadString(z + more), more)
      ensures Extends(ReadConstant(z), ReadConstant(z + more), more)
      ensures Extends(ReadLocVar(z), ReadLocVar(z + more), more)
    {
      RawExtends(z, more);
      StringExtends(z, more);
      ConstantExtends(z, more);
      LocVarExtends(z, more);
    }
  }

  lemma PlaceExtends(z: seq<Byte>, p: seq<Byte>, more: seq<Byte>)
    ensures Extends(ReadPlace(z, p), ReadPlace(z + more, p), more)
  {
    hide ReadInt, ReadString;
    StringExtends(z, more);
    if ReadString(z).Ok? {
      var z1 := ReadString(z).value.1;
      RawExtends(z1, more);
      if ReadInt(z1).Ok? { RawExtends(ReadInt(z1).value.1, more); }
    }
  }

  lemma CodeExtends(z: seq<Byte>, f: Function, more: seq<Byte>)
    ensures Extends(ReadCode(z, f), ReadCode(z + more, f), more)
  {
    hide ReadBlock, ReadVector, ReadWord;
    BlockExtends(z, 4, more);
    if ReadBlock(z, 4).Ok? {
      AllExtensible(more);
      VectorExtends(ReadWord, ReadBlock(z, 4).value.1, more);
    }
  }

  lemma DebugExtends(z: seq<Byte>, f: Function, more: seq<Byte>)
    ensures Extends(ReadDebug(z, f), ReadDebug(z + more, f), more)
  {
    hide ReadVector, ReadRaw, ReadLocVar, ReadString;
    AllExtensible(more);
    VectorExtends(ReadRaw, z, more);
    if ReadVector(ReadRaw, z).Ok? {
      var z1 := ReadVector(ReadRaw, z).value.1;
      VectorExtends(ReadLocVar, z1, more);
      if ReadVector(ReadLocVar, z1).Ok? { VectorExtends(ReadString, ReadVector(ReadLocVar, z1).value.1, more); }
    }
  }

  lemma {:induction false} FunctionExtends(z: seq<Byte>, p: seq<Byte>, calls: nat, more: seq<Byte>)
    ensures Extends(ReadFunction(z, p, calls), ReadFunction(z + more, p, calls), more)
    decreases LUAI_MAXCCALLS - calls, 0, 0
  {
    hide ReadPlace, ReadCode, ReadConstants, ReadDebug, View, Checker.Accepts;
    if calls + 1 <= LUAI_MAXCCALLS {
      PlaceExtends(z, p, more);
      if ReadPlace(z, p).Ok? {
        var (f0, z0) := ReadPlace(z, p).value;
        CodeExtends(z0, f0, more);
        if ReadCode(z0, f0).Ok? {
          var (f1, z1) := ReadCode(z0, f0).value;
          ConstantsExtend(z1, f1, calls + 1, more);
          if ReadConstants(z1, f1, calls + 1).Ok? {
            var (f2, z2) := ReadConstants(z1, f1, calls + 1).value;
            DebugExtends(z2, f2, more);
          }
        }
      }
    }
  }

  lemma {:induction false} ConstantsExtend(z: seq<Byte>, f: Function, calls: nat, more: seq<Byte>)
    requires f.source.Some?
    ensures Extends(ReadConstants(z, f, calls), ReadConstants(z + more, f, calls), more)
    decreases LUAI_MAXCCALLS - calls, 2, 0
  {
    hide ReadVector, ReadInt, ReadFunctions;
    AllExtensible(more);
    VectorExtends(ReadConstant, z, more);
    if ReadVector(ReadConstant, z).Ok? {
      var z1 := ReadVector(ReadConstant, z).value.1;
      RawExtends(z1, more);
      if ReadInt(z1).Ok? {
        var (n, z2) := ReadInt(z1).value;
        FunctionsExtend(z2, n, f.source.value, calls, more);
      }
    }
  }

  lemma {:induction false} FunctionsExtend(z: seq<Byte>, n: nat, p: seq<Byte>, calls: nat, more: seq<Byte>)
    ensures Extends(ReadFunctions(z, n, p, calls), ReadFunctions(z + more, n, p, calls), more)
    decreases LUAI_MAXCCALLS - calls, 1, n
  {
    hide ReadFunction;
    if n > 0 {
      FunctionExtends(z, p, calls, more);
      if ReadFunction(z, p, calls).Ok? {
        FunctionsExtend(ReadFunction(z, p, calls).value.1, n - 1, p, calls, more);
      }
    }
  }

  lemma ChunkExtends(z: seq<Byte>, calls: nat, more: seq<Byte>)
    ensures Extends(ReadChunk(z, calls), ReadChunk(z + more, calls), more)
  {
    hide ReadFunction, ReadBlock;
    BlockExtends(z, HEADER_SIZE, more);
    if ReadBlock(z, HEADER_SIZE).Ok? { FunctionExtends(ReadBlock(z, HEADER_SIZE).value.1, NO_SOURCE, calls, more); }
  }

  /** A chunk of which the end is missing is always refused, and always as one that ends too early. */
  lemma TruncatedRefused(f: Function, strip: bool, n: nat, calls: nat)
    requires Fits(f) && Refusal(f, strip, calls) == None && n < |ChunkBytes(f, strip)|
    ensures ReadChunk(ChunkBytes(f, strip)[..n], calls) == Err(UnexpectedEnd)
  {
    hide Fits, Refusal, ReadChunk, ChunkBytes, Loaded;
    var c := ChunkBytes(f, strip);
    ChunkRoundTrip(f, strip, [], calls);
    assert c + [] == c && c[..n] + c[n..] == c;
    ChunkExtends(c[..n], calls, c[n..]);
  }
}
