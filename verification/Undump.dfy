/** Loading precompiled chunks (lundump.c). */
module Undump {
  import opened Limits
  import opened Wrappers
  import opened Chunks
  import Checker

  // ----- vectors -----

  /** One step of a loop that reads n more elements, with xs read before. */
  lemma ManyStep<T>(read: Reader<T>, z: seq<Byte>, n: nat, xs: seq<T>)
    requires n > 0
    ensures Prepend(xs, ReadMany(read, z, n)) == match read(z)
      case Err(e) => Err(e)
      case Ok(v) => Prepend(xs + [v.0], ReadMany(read, v.1, n - 1))
  {
    if read(z).Ok? && ReadMany(read, read(z).value.1, n - 1).Ok? {
      var (x, rest) := read(z).value;
      var ys := ReadMany(read, rest, n - 1).value.0;
      assert xs + ([x] + ys) == xs + [x] + ys;
    }
  }

  lemma NothingBefore<T>(r: Result<(seq<T>, seq<Byte>), LoadError>)
    ensures Prepend([], r) == r
  {
    if r.Ok? { assert [] + r.value.0 == r.value.0; }
  }

  lemma ManyDone<T>(read: Reader<T>, z: seq<Byte>, xs: seq<T>)
    ensures Prepend(xs, ReadMany(read, z, 0)) == Ok((xs, z))
  {
    assert xs + [] == xs;
  }

  lemma FunctionsDone(z: seq<Byte>, p: seq<Byte>, calls: nat, xs: seq<Function>)
    ensures Prepend(xs, ReadFunctions(z, 0, p, calls)) == Ok((xs, z))
  {
    assert xs + [] == xs;
  }

  lemma FunctionsStep(z: seq<Byte>, n: nat, p: seq<Byte>, calls: nat, xs: seq<Function>)
    requires n > 0
    ensures Prepend(xs, ReadFunctions(z, n, p, calls)) == match ReadFunction(z, p, calls)
      case Err(e) => Err(e)
      case Ok(v) => Prepend(xs + [v.0], ReadFunctions(v.1, n - 1, p, calls))
  {
    hide ReadFunction, ReadFunctions;
    ReadFirst(z, n, p, calls);
    if ReadFunction(z, p, calls).Ok? {
      var (x, rest) := ReadFunction(z, p, calls).value;
      if ReadFunctions(rest, n - 1, p, calls).Ok? {
        var ys := ReadFunctions(rest, n - 1, p, calls).value.0;
        assert xs + ([x] + ys) == xs + [x] + ys;
      }
    }
  }

  /** The elements of an array in memory. */
  function Elements<T>(conv: seq<Byte> -> T, b: seq<Byte>): (xs: seq<T>)
    ensures |xs| == |b| / INT_SIZE
  {
    if |b| < INT_SIZE then [] else [conv(b[..INT_SIZE])] + Elements(conv, b[INT_SIZE..])
  }

  /** The reader of single elements of an array. */
  ghost predicate ReadsElement<T>(read: Reader<T>, conv: seq<Byte> -> T) {
    forall z :: read(z) == if INT_SIZE <= |z| then Ok((conv(z[..INT_SIZE]), z[INT_SIZE..])) else Err(UnexpectedEnd)
  }

  lemma SplitBlock(z: seq<Byte>, n: nat)
    requires n > 0 && n * INT_SIZE <= |z|
    ensures z[..n*INT_SIZE][..INT_SIZE] == z[..INT_SIZE]
    ensures z[..n*INT_SIZE][INT_SIZE..] == z[INT_SIZE..][..(n-1)*INT_SIZE]
    ensures z[n*INT_SIZE..] == z[INT_SIZE..][(n-1)*INT_SIZE..]
  {
  }

  /** One block for the whole array is as good as its elements one by one. */
  lemma {:induction false} ManyElements<T>(read: Reader<T>, conv: seq<Byte> -> T, z: seq<Byte>, n: nat)
    requires ReadsElement(read, conv)
    ensures ReadMany(read, z, n) == if n * INT_SIZE <= |z|
      then Ok((Elements(conv, z[..n*INT_SIZE]), z[n*INT_SIZE..])) else Err(UnexpectedEnd)
    decreases n
  {
    if n > 0 && INT_SIZE <= |z| {
      assert read(z) == Ok((conv(z[..INT_SIZE]), z[INT_SIZE..]));
      ManyElements(read, conv, z[INT_SIZE..], n - 1);
      if n * INT_SIZE <= |z| { SplitBlock(z, n); }
    }
  }

  lemma IntElements()
    ensures ReadsElement(ReadRaw, IntOf) && ReadsElement(ReadWord, Number)
  {
  }

  // ----- the loader -----

  class LoadState {
    /** What is not read yet. */
    var z: seq<Byte>
    /** L->nCcalls */
    var calls: nat

    /** The value of the reader, or its error, and its bytes are taken. */
    ghost predicate Took<T(!new)>(r: Result<T, LoadError>, spec: Result<(T, seq<Byte>), LoadError>)
      reads this
    {
      match r
      case Ok(v) => spec == Ok((v, z))
      case Err(e) => spec == Err(e)
    }

    constructor (z: seq<Byte>, calls: nat)
      ensures this.z == z && this.calls == calls
    {
      this.z, this.calls := z, calls;
    }

    method LoadBlock(size: nat) returns (r: Result<seq<Byte>, LoadError>)
      modifies this`z
      ensures Took(r, ReadBlock(old(z), size))
    {
      if size > |z| {
        z := [];
        return Err(UnexpectedEnd);
      }
      r := Ok(z[..size]);
      z := z[size..];
    }

    method LoadChar() returns (r: Result<Byte, LoadError>)
      modifies this`z
      ensures Took(r, ReadByte(old(z)))
    {
      var b :- LoadBlock(1);
      r := Ok(b[0]);
    }

    method LoadInt() returns (r: Result<nat, LoadError>)
      modifies this`z
      ensures Took(r, ReadInt(old(z)))
    {
      var b :- LoadBlock(INT_SIZE);
      var x := IntOf(b);
      r := if x < 0 then Err(BadInteger) else Ok(x);
    }

    method LoadString() returns (r: Result<Name, LoadError>)
      modifies this`z
      ensures Took(r, ReadString(old(z)))
    {
      var b :- LoadBlock(SIZE_T_SIZE);
      var size := Number(b);
      if size == 0 { return Ok(None); }
      var s :- LoadBlock(size);
      r := Ok(Some(s[..size-1]));
    }

    /** LoadVector after LoadInt */
    method LoadVector<T(!new)>(ghost read: Reader<T>, conv: seq<Byte> -> T) returns (r: Result<seq<T>, LoadError>)
      requires ReadsElement(read, conv)
      modifies this`z
      ensures Took(r, ReadVector(read, old(z)))
    {
      hide ReadMany, ReadInt, ReadsElement, Elements;
      var n :- LoadInt();
      ManyElements(read, conv, z, n);
      var b :- LoadBlock(n * INT_SIZE);
      r := Ok(Elements(conv, b));
    }

    method LoadConstant() returns (r: Result<Constant, LoadError>)
      modifies this`z
      ensures Took(r, ReadConstant(old(z)))
    {
      hide ReadBlock, ReadString;
      var t :- LoadChar();
      match t
      case 0 =>
        r := Ok(NilConst);
      case 1 =>
        var b :- LoadChar();
        r := Ok(BoolConst(b != 0));
      case 3 =>
        var bits :- LoadBlock(NUMBER_SIZE);
        r := Ok(NumberConst(bits));
      case 4 =>
        var s :- LoadString();
        r := Ok(StringConst(if s.Some? then s.value else []));
      case _ =>
        r := Err(BadConstant);
    }

    method LoadOwnConstants() returns (r: Result<seq<Constant>, LoadError>)
      modifies this`z
      ensures Took(r, ReadVector(ReadConstant, old(z)))
    {
      hide ReadInt, ReadMany, ReadConstant;
      var n :- LoadInt();
      ghost var z1 := z;
      var k := [];
      NothingBefore(ReadMany(ReadConstant, z, n));
      for i := 0 to n
        invariant |k| == i && Prepend(k, ReadMany(ReadConstant, z, n - i)) == ReadMany(ReadConstant, z1, n)
      {
        ManyStep(ReadConstant, z, n - i, k);
        var c :- LoadConstant();
        k := k + [c];
      }
      ManyDone(ReadConstant, z, k);
      r := Ok(k);
    }

    method LoadFunctions(p: seq<Byte>) returns (r: Result<seq<Function>, LoadError>)
      modifies this
      ensures Took(r, var (n, z1) :- ReadInt(old(z)); ReadFunctions(z1, n, p, old(calls)))
      ensures r.Ok? ==> calls == old(calls)
      decreases LUAI_MAXCCALLS - calls, 1
    {
      hide ReadInt, ReadFunction, ReadFunctions;
      var n :- LoadInt();
      ghost var z1 := z;
      var fs := [];
      NothingBefore(ReadFunctions(z, n, p, calls));
      for i := 0 to n
        invariant |fs| == i && calls == old(calls)
        invariant Prepend(fs, ReadFunctions(z, n - i, p, calls)) == ReadFunctions(z1, n, p, calls)
      {
        FunctionsStep(z, n - i, p, calls, fs);
        var f :- LoadFunction(p);
        fs := fs + [f];
      }
      FunctionsDone(z, p, calls, fs);
      r := Ok(fs);
    }

    method LoadConstants(f: Function) returns (r: Result<Function, LoadError>)
      requires f.source.Some?
      modifies this
      ensures Took(r, ReadConstants(old(z), f, old(calls)))
      ensures r.Ok? ==> calls == old(calls)
      decreases LUAI_MAXCCALLS - calls, 2
    {
      hide ReadVector, ReadInt, ReadFunctions;
      var k :- LoadOwnConstants();
      var p :- LoadFunctions(f.source.value);
      r := Ok(f.(k := k, p := p));
    }

    method LoadLocVars() returns (r: Result<seq<LocVar>, LoadError>)
      modifies this`z
      ensures Took(r, ReadVector(ReadLocVar, old(z)))
    {
      hide ReadInt, ReadMany, ReadString;
      var n :- LoadInt();
      ghost var z1 := z;
      var s := [];
      NothingBefore(ReadMany(ReadLocVar, z, n));
      for i := 0 to n
        invariant |s| == i && Prepend(s, ReadMany(ReadLocVar, z, n - i)) == ReadMany(ReadLocVar, z1, n)
      {
        ManyStep(ReadLocVar, z, n - i, s);
        var v :- LoadLocVar();
        s := s + [v];
      }
      ManyDone(ReadLocVar, z, s);
      r := Ok(s);
    }

    method LoadLocVar() returns (r: Result<LocVar, LoadError>)
      modifies this`z
      ensures Took(r, ReadLocVar(old(z)))
    {
      hide ReadInt, ReadString;
      var name :- LoadString();
      var startpc :- LoadInt();
      var endpc :- LoadInt();
      r := Ok(LocVar(name, startpc, endpc));
    }

    method LoadUpvalues() returns (r: Result<seq<Name>, LoadError>)
      modifies this`z
      ensures Took(r, ReadVector(ReadString, old(z)))
    {
      hide ReadInt, ReadMany, ReadString;
      var n :- LoadInt();
      ghost var z1 := z;
      var s := [];
      NothingBefore(ReadMany(ReadString, z, n));
      for i := 0 to n
        invariant |s| == i && Prepend(s, ReadMany(ReadString, z, n - i)) == ReadMany(ReadString, z1, n)
      {
        ManyStep(ReadString, z, n - i, s);
        var name :- LoadString();
        s := s + [name];
      }
      ManyDone(ReadString, z, s);
      r := Ok(s);
    }

    method LoadDebug(f: Function) returns (r: Result<Function, LoadError>)
      modifies this`z
      ensures Took(r, ReadDebug(old(z), f))
    {
      hide ReadVector, ReadsElement;
      IntElements();
      var lineinfo :- LoadVector(ReadRaw, IntOf);
      var locvars :- LoadLocVars();
      var upvalues :- LoadUpvalues();
      r := Ok(f.(lineinfo := lineinfo, locvars := locvars, upvalues := upvalues));
    }

    method LoadPlace(p: seq<Byte>) returns (r: Result<Function, LoadError>)
      modifies this`z
      ensures Took(r, ReadPlace(old(z), p))
    {
      hide ReadString, ReadInt;
      var source :- LoadString();
      var linedefined :- LoadInt();
      var lastlinedefined :- LoadInt();
      r := Ok(Function(Some(if source == None then p else source.value), linedefined, lastlinedefined,
                       0, 0, 0, 0, [], [], [], [], [], []));
    }

    method LoadCode(f: Function) returns (r: Result<Function, LoadError>)
      modifies this`z
      ensures Took(r, ReadCode(old(z), f))
    {
      hide ReadVector, ReadsElement;
      IntElements();
      var nups :- LoadChar();
      var numparams :- LoadChar();
      var isVararg :- LoadChar();
      var maxstacksize :- LoadChar();
      var code :- LoadVector(ReadWord, Number);
      r := Ok(f.(nups := nups, numparams := numparams, isVararg := isVararg, maxstacksize := maxstacksize,
                 code := code));
    }

    method LoadFunction(p: seq<Byte>) returns (r: Result<Function, LoadError>)
      modifies this
      ensures Took(r, ReadFunction(old(z), p, old(calls)))
      ensures r.Ok? ==> calls == old(calls)
      decreases LUAI_MAXCCALLS - calls, 0
    {
      hide ReadPlace, ReadCode, ReadConstants, ReadDebug, View, Checker.Accepts;
      calls := calls + 1;
      if calls > LUAI_MAXCCALLS { return Err(TooDeep); }
      var f :- LoadPlace(p);
      f :- LoadCode(f);
      f :- LoadConstants(f);
      f :- LoadDebug(f);
      var ok := Checker.CheckCode(View(f));
      if !ok { return Err(BadCode); }
      calls := calls - 1;
      r := Ok(f);
    }

    method LoadHeader() returns (r: Result<(), LoadError>)
      modifies this`z
      ensures Took(r, ReadHeader(old(z)))
    {
      var s :- LoadBlock(HEADER_SIZE);
      r := if s == HEADER then Ok(()) else Err(BadHeader);
    }
  }

  /** luaU_undump */
  method LoadChunk(z: seq<Byte>, calls: nat) returns (r: Result<Function, LoadError>)
    ensures match r
      case Ok(f) => ReadChunk(z, calls).Ok? && ReadChunk(z, calls).value.0 == f
      case Err(e) => ReadChunk(z, calls) == Err(e)
  {
    hide ReadHeader, ReadFunction;
    var S := new LoadState(z, calls);
    var h :- S.LoadHeader();
    r := S.LoadFunction(NO_SOURCE);
  }

  /** The smallest chunk that the compiler can make. */
  method LoadSmallestChunk() returns (r: Result<Function, LoadError>)
    ensures r == Ok(SmallestFunction().(source := Some(NO_SOURCE)))
  {
    hide ReadChunk;
    SmallestLoaded([]);
    assert SMALLEST_CHUNK + [] == SMALLEST_CHUNK;
    r := LoadChunk(SMALLEST_CHUNK, 0);
  }
}
