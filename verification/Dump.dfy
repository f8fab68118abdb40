/** Saving precompiled chunks (ldump.c). */
module Dump {
  import opened Limits
  import opened Wrappers
  import opened Chunks

  class DumpState {
    /** The status that the writer returns for a block, after all blocks that it got before. */
    const writer: (seq<Byte>, seq<Byte>) -> int
    const strip: bool
    var status: int
    var written: seq<Byte>
    /** All that was to be written up to now. */
    ghost var all: seq<Byte>

    /** The status is what the writer returned for the last block. */
    ghost predicate Failed()
      reads this
    {
      exists w: seq<Byte>, b: seq<Byte> :: writer(w, b) == status && written == w + b
    }

    /** Unless the writer failed, it got everything; and it got nothing out of order. */
    ghost predicate Valid()
      reads this
    {
      written <= all && (if status == 0 then written == all else Failed())
    }

    /** These bytes were dumped; a writer that has failed is never called again. */
    twostate predicate Dumped(bytes: seq<Byte>)
      reads this
    {
      && Valid() && all == old(all) + bytes && old(written) <= written
      && (old(status) != 0 ==> written == old(written) && status == old(status))
    }

    constructor (writer: (seq<Byte>, seq<Byte>) -> int, strip: bool)
      ensures Valid() && status == 0 && written == [] && all == []
      ensures this.writer == writer && this.strip == strip
    {
      this.writer, this.strip := writer, strip;
      status, written, all := 0, [], [];
    }

    method DumpBlock(b: seq<Byte>)
      requires Valid()
      modifies this
      ensures Dumped(b)
      ensures old(status) == 0 ==> status == writer(old(written), b) && written == old(written) + b
    {
      if status == 0 {
        status := writer(written, b);
        written := written + b;
        assert writer(old(written), b) == status && written == old(written) + b;
      }
      all := all + b;
    }

    method DumpChar(y: Byte)
      requires Valid()
      modifies this
      ensures Dumped([y])
    {
      DumpBlock([y]);
    }

    method DumpInt(x: int)
      requires Valid() && IsInt(x)
      modifies this
      ensures Dumped(IntBytes(x))
    {
      DumpBlock(IntBytes(x));
    }

    method DumpVector<T>(write: T --> seq<Byte>, s: seq<T>)
      requires Valid() && IsSize(|s|) && forall x :: x in s ==> write.requires(x)
      modifies this
      ensures Dumped(VectorBytes(write, s))
    {
      DumpInt(|s|);
      DumpBlock(Concat(write, s));
    }

    method DumpString(s: Name)
      requires Valid() && FitsName(s)
      modifies this
      ensures Dumped(StringBytes(s))
    {
      if s == None {
        DumpBlock(Little(0, SIZE_T_SIZE));
      } else {
        DumpBlock(Little(|s.value| + 1, SIZE_T_SIZE));
        DumpBlock(s.value + [0]);
      }
    }

    method DumpConstant(c: Constant)
      requires Valid() && FitsConstant(c)
      modifies this
      ensures Dumped(ConstantBytes(c))
    {
      hide StringBytes, Failed;
      match c
      case NilConst =>
        DumpChar(0);
      case BoolConst(b) =>
        DumpChar(1);
        DumpChar(if b then 1 else 0);
      case NumberConst(bits) =>
        DumpChar(3);
        DumpBlock(bits);
      case StringConst(s) =>
        DumpChar(4);
        DumpString(Some(s));
    }

    method DumpOwnConstants(f: Function)
      requires Valid() && FitsConstants(f)
      modifies this
      ensures Dumped(VectorBytes(ConstantBytes, f.k))
    {
      hide ConstantBytes, FitsConstant, IntBytes, Failed;
      DumpInt(|f.k|);
      ghost var done := IntBytes(|f.k|);
      for i := 0 to |f.k|
        invariant Dumped(done) && done + Concat(ConstantBytes, f.k[i..]) == VectorBytes(ConstantBytes, f.k)
      {
        DumpConstant(f.k[i]);
        done := done + ConstantBytes(f.k[i]);
        assert f.k[i..][1..] == f.k[i+1..];
      }
    }

    method DumpConstants(f: Function)
      requires Valid() && Fits(f)
      modifies this
      ensures Dumped(ConstantsBytes(f, strip))
      decreases f, |f.p| + 1
    {
      hide IntBytes, VectorBytes, FunctionBytes, Failed;
      DumpOwnConstants(f);
      DumpInt(|f.p|);
      ghost var done := VectorBytes(ConstantBytes, f.k) + IntBytes(|f.p|);
      for i := 0 to |f.p|
        invariant Dumped(done) && done + NestedBytes(f, i, strip) == ConstantsBytes(f, strip)
      {
        FitsNested(f, i);
        DumpFunction(f.p[i], f.source);
        done := done + FunctionBytes(f.p[i], f.source, strip);
      }
    }

    method DumpLocVar(v: LocVar)
      requires Valid() && FitsLocVar(v)
      modifies this
      ensures Dumped(LocVarBytes(v))
    {
      hide StringBytes, IntBytes, Failed;
      DumpString(v.varname);
      DumpInt(v.startpc);
      DumpInt(v.endpc);
    }

    method DumpLocVars(s: seq<LocVar>)
      requires Valid() && IsSize(|s|) && forall v :: v in s ==> FitsLocVar(v)
      modifies this
      ensures Dumped(VectorBytes(LocVarBytes, s))
    {
      hide LocVarBytes, FitsLocVar, IntBytes, Failed;
      DumpInt(|s|);
      ghost var done := IntBytes(|s|);
      for i := 0 to |s|
        invariant Dumped(done) && done + Concat(LocVarBytes, s[i..]) == VectorBytes(LocVarBytes, s)
      {
        DumpLocVar(s[i]);
        done := done + LocVarBytes(s[i]);
        assert s[i..][1..] == s[i+1..];
      }
    }

    method DumpUpvalues(s: seq<Name>)
      requires Valid() && IsSize(|s|) && forall u :: u in s ==> FitsName(u)
      modifies this
      ensures Dumped(VectorBytes(StringBytes, s))
    {
      hide StringBytes, IntBytes, Failed;
      DumpInt(|s|);
      ghost var done := IntBytes(|s|);
      for i := 0 to |s|
        invariant Dumped(done) && done + Concat(StringBytes, s[i..]) == VectorBytes(StringBytes, s)
      {
        DumpString(s[i]);
        done := done + StringBytes(s[i]);
        assert s[i..][1..] == s[i+1..];
      }
    }

    method DumpDebug(f: Function)
      requires Valid() && FitsDebug(f)
      modifies this
      ensures FitsDebug(Kept(f, strip)) && Dumped(DebugBytes(Kept(f, strip)))
    {
      hide VectorBytes, Failed;
      FitsKept(f, strip);
      DumpVector(IntBytes, if strip then [] else f.lineinfo);
      DumpLocVars(if strip then [] else f.locvars);
      DumpUpvalues(if strip then [] else f.upvalues);
    }

    method DumpPlace(f: Function, p: Name)
      requires Valid() && FitsStart(f)
      modifies this
      ensures Dumped(PlaceBytes(f, p, strip))
    {
      hide StringBytes, IntBytes, Failed;
      DumpString(if f.source == p || strip then None else f.source);
      DumpInt(f.linedefined);
      DumpInt(f.lastlinedefined);
    }

    method DumpCode(f: Function)
      requires Valid() && FitsStart(f)
      modifies this
      ensures Dumped(CodeBytes(f))
    {
      hide VectorBytes, Failed;
      DumpChar(f.nups);
      DumpChar(f.numparams);
      DumpChar(f.isVararg);
      DumpChar(f.maxstacksize);
      DumpVector(WordBytes, f.code);
    }

    method DumpFunction(f: Function, p: Name)
      requires Valid() && Fits(f)
      modifies this
      ensures Dumped(FunctionBytes(f, p, strip))
      decreases f, |f.p| + 2
    {
      hide PlaceBytes, CodeBytes, ConstantsBytes, DebugBytes, FitsDebug, Failed;
      DumpPlace(f, p);
      DumpCode(f);
      DumpConstants(f);
      DumpDebug(f);
    }

    method DumpHeader()
      requires Valid()
      modifies this
      ensures Dumped(HEADER)
    {
      DumpBlock(HEADER);
    }
  }

  /** luaU_dump: the writer got the whole chunk, or it failed, and then its status is returned. */
  method DumpChunk(f: Function, writer: (seq<Byte>, seq<Byte>) -> int, strip: bool)
    returns (status: int, written: seq<Byte>)
    requires Fits(f)
    ensures if status == 0 then written == ChunkBytes(f, strip)
            else written <= ChunkBytes(f, strip) && exists w, b :: writer(w, b) == status && written == w + b
  {
    hide Fits, FunctionBytes;
    var D := new DumpState(writer, strip);
    D.DumpHeader();
    D.DumpFunction(f, None);
    status, written := D.status, D.written;
  }
}
