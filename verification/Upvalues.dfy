/** The stack, the list of open upvalues and the closures of a state (lfunc.c, ldo.c, lvm.c): they do what cells do. */
module Upvalues {
  import opened Cells

  /** Where an upvalue finds its value: in a slot of a stack, which must not be an old one, or in itself. */
  datatype Place = Slot(a: array<Value>, i: nat) | Own

  ghost function Inserted<T>(s: seq<T>, k: nat, x: T): (r: seq<T>)
    requires k <= |s|
    ensures |r| == |s| + 1 && r[k] == x
    ensures forall j :: 0 <= j < |r| ==> r[j] == if j < k then s[j] else if j == k then x else s[j-1]
    ensures (forall y :: y in r ==> y in s || y == x) && forall y :: y in s ==> y in r
  {
    s[..k] + [x] + s[k..]
  }

  class UpVal {
    var v: Place
    var value: Value
    var next: UpVal?
    /** The variable that it stands for. */
    ghost const cell: nat

    constructor (v: Place, next: UpVal?, ghost cell: nat)
      ensures this.v == v && this.next == next && this.cell == cell
    {
      this.v, this.next, this.cell := v, next, cell;
      value := Nil;
    }
  }

  class LuaState {
    var stack: array<Value>
    var openupval: UpVal?
    var closures: seq<seq<UpVal>>
    ghost var open: seq<UpVal>
    ghost var upvals: set<UpVal>
    ghost var vars: Vars

    /** Open upvalues lie in the stack, one for a slot, from its top downwards. */
    ghost predicate InStack()
      reads this`stack, this`open, this`upvals, upvals`v
    {
      && (forall k :: 0 <= k < |open| ==>
            open[k] in upvals && open[k].v.Slot? && open[k].v.a == stack && open[k].v.i < stack.Length)
      && forall k, l :: 0 <= k < l < |open| ==> open[k].v.i > open[l].v.i
    }

    ghost predicate LinkAt(k: nat)
      requires k < |open| && open[k] in upvals
      reads this`open, this`upvals, upvals`next
    {
      open[k].next == if k + 1 < |open| then open[k+1] else null
    }

    ghost predicate Linked()
      reads this`openupval, this`open, this`upvals, upvals`next
    {
      && openupval == (if open == [] then null else open[0])
      && forall k {:trigger LinkAt(k)} :: 0 <= k < |open| ==> open[k] in upvals && LinkAt(k)
    }

    /** An upvalue, and the cell of its variable; slots from lim on have new variables already. */
    ghost predicate InStep(uv: UpVal, lim: nat)
      requires uv in upvals
      reads this`stack, this`open, this`upvals, this`vars, stack, upvals`v, upvals`value
    {
      && uv.cell < |vars.cells| && uv.cell in vars.captured
      && if uv in open then
           && uv.v.Slot? && uv.v.i < |vars.slots| && uv.v.i < stack.Length
           && vars.cells[uv.cell] == stack[uv.v.i]
           && if uv.v.i < lim then vars.slots[uv.v.i] == uv.cell else uv.cell !in vars.slots
         else uv.v.Own? && uv.value == vars.cells[uv.cell] && uv.cell !in vars.slots
    }

    ghost predicate AllInStep(lim: nat)
      reads this`stack, this`open, this`upvals, this`vars, stack, upvals`v, upvals`value
    {
      && (forall uv {:trigger InStep(uv, lim)} :: uv in upvals ==> InStep(uv, lim))
      && forall uv, uv' :: uv in upvals && uv' in upvals && uv.cell == uv'.cell ==> uv == uv'
    }

    ghost predicate StackOk()
      reads this`stack, this`vars, stack
    {
      && |vars.slots| == stack.Length
      && forall i :: 0 <= i < stack.Length ==> vars.slots[i] < |vars.cells| && stack[i] == vars.cells[vars.slots[i]]
    }

    ghost predicate ClosuresOk()
      reads this`closures, this`upvals, this`vars
    {
      && |closures| == |vars.closures|
      && (forall c :: 0 <= c < |closures| ==> |closures[c]| == |vars.closures[c]|)
      && forall c, b {:trigger closures[c][b]} :: 0 <= c < |closures| && 0 <= b < |closures[c]| ==>
           closures[c][b] in upvals && closures[c][b].cell == vars.closures[c][b]
    }

    ghost predicate ValidBut(lim: nat)
      reads this, stack, upvals
    {
      Wf(vars) && InStack() && Linked() && StackOk() && ClosuresOk() && AllInStep(lim)
    }

    ghost predicate Valid()
      reads this, stack, upvals
    {
      ValidBut(stack.Length)
    }

    /** A state with nothing captured. */
    constructor (size: nat)
      ensures Valid() && stack.Length == size && vars.closures == [] && vars.captured == {}
      ensures fresh(stack) && upvals == {}
    {
      var memory := new Value[size](_ => Nil);
      stack, openupval, closures := memory, null, [];
      open, upvals := [], {};
      vars := Vars(seq(size, i => i), memory[..], [], {});
    }

    /** The open upvalue of the slot, or the place for it. */
    method Search(level: nat) returns (prev: UpVal?, p: UpVal?, ghost k: nat)
      requires InStack() && Linked()
      ensures k <= |open| && p == (if k < |open| then open[k] else null)
      ensures prev == (if k == 0 then null else open[k-1])
      ensures forall j :: 0 <= j < k ==> open[j].v.i > level
      ensures forall j :: k <= j < |open| ==> open[j].v.i <= level
    {
      prev, p, k := null, openupval, 0;
      while p != null && p.v.i > level
        invariant k <= |open| && p == (if k < |open| then open[k] else null)
        invariant prev == (if k == 0 then null else open[k-1])
        invariant forall j :: 0 <= j < k ==> open[j].v.i > level
        decreases |open| - k
      {
        assert LinkAt(k);
        prev, p, k := p, p.next, k + 1;
      }
    }

    /** What holds of the list before position k, and from there on. */
    ghost predicate Splits(level: nat, k: nat)
      reads this`open, this`upvals, upvals`v
    {
      && k <= |open| && (forall j :: 0 <= j < |open| ==> open[j] in upvals && open[j].v.Slot?)
      && (forall j :: 0 <= j < k ==> open[j].v.i > level) && forall j :: k <= j < |open| ==> open[j].v.i < level
    }

    twostate lemma InsertedInStack(new level: nat, new k: nat, new uv: UpVal)
      requires old(InStack()) && old(Splits(level, k)) && level < stack.Length && uv.v == Slot(stack, level)
      requires stack == old(stack) && upvals == old(upvals) + {uv} && open == Inserted(old(open), k, uv)
      requires forall u :: u in old(upvals) ==> u.v == old(u.v)
      ensures InStack()
    {
    }

    twostate lemma InsertedLinked(new level: nat, new k: nat, new uv: UpVal)
      requires old(InStack()) && old(Linked()) && k <= old(|open|)
      requires upvals == old(upvals) + {uv} && uv !in old(upvals) && open == Inserted(old(open), k, uv)
      requires uv.next == (if k < old(|open|) then old(open)[k] else null)
      requires if k == 0 then openupval == uv else openupval == old(openupval) && old(open)[k-1].next == uv
      requires forall u :: u in old(upvals) && (k > 0 ==> u != old(open)[k-1]) ==> u.next == old(u.next)
      ensures Linked()
    {
      forall j: nat | j < |open|
        ensures open[j] in upvals && LinkAt(j)
      {
        if j + 1 < k {
          assert old(LinkAt(j)) && old(open)[j] != old(open)[k-1];
        } else if j > k {
          assert old(LinkAt(j - 1)) && (k > 0 ==> old(open)[j-1] != old(open)[k-1]);
        }
      }
    }

    method Insert(level: nat, prev: UpVal?, p: UpVal?, ghost k: nat) returns (uv: UpVal)
      requires InStack() && Linked() && Splits(level, k) && level < stack.Length == |vars.slots|
      requires p == (if k < |open| then open[k] else null) && prev == (if k == 0 then null else open[k-1])
      modifies this`openupval, this`open, this`upvals, upvals`next
      ensures InStack() && Linked() && fresh(uv) && uv.v == Slot(stack, level) && uv.cell == vars.slots[level]
      ensures upvals == old(upvals) + {uv} && open == Inserted(old(open), k, uv)
    {
      uv := new UpVal(Slot(stack, level), p, vars.slots[level]);
      open := Inserted(open, k, uv);
      upvals := upvals + {uv};
      if prev == null { openupval := uv; } else { prev.next := uv; }
      InsertedInStack(level, k, uv);
      InsertedLinked(level, k, uv);
    }

    ghost method Capture(uv: UpVal)
      requires Valid() && uv in upvals
      modifies this`vars
      ensures Valid() && vars == old(vars).(captured := old(vars).captured + {uv.cell})
    {
      vars := vars.(captured := vars.captured + {uv.cell});
      assert forall u :: u in upvals ==> old(InStep(u, stack.Length));
    }

    /** Another upvalue has the same variable only if it is open in the same slot. */
    lemma NoOther(u: UpVal, level: nat, k: nat)
      requires Valid() && u in upvals && level < stack.Length && Splits(level, k)
      ensures u.cell != vars.slots[level]
    {
      assert InStep(u, stack.Length);
    }

    twostate lemma NewInStep(new level: nat, new k: nat, new uv: UpVal)
      requires old(Valid()) && level < old(stack.Length) && stack == old(stack) && stack[..] == old(stack[..])
      requires uv.v == Slot(stack, level) && uv.cell == old(vars).slots[level] && uv !in old(upvals)
      requires k <= old(|open|) && open == Inserted(old(open), k, uv) && upvals == old(upvals) + {uv}
      requires forall u :: u in old(upvals) ==> u.v == old(u.v) && u.value == old(u.value)
      requires forall u :: u in old(upvals) ==> u.cell != uv.cell
      requires vars == old(vars).(captured := old(vars).captured + {uv.cell})
      ensures AllInStep(stack.Length)
    {
      hide InStack, Linked, ClosuresOk;
      forall u | u in upvals
        ensures InStep(u, stack.Length)
      {
        if u != uv { assert old(InStep(u, stack.Length)); }
      }
    }

    method NewUpval(level: nat, prev: UpVal?, p: UpVal?, ghost k: nat) returns (uv: UpVal)
      requires Valid() && level < stack.Length && Splits(level, k)
      requires p == (if k < |open| then open[k] else null) && prev == (if k == 0 then null else open[k-1])
      modifies this`openupval, this`open, this`upvals, this`vars, upvals`next
      ensures Valid() && upvals == old(upvals) + {uv} && fresh(uv) && uv.cell == old(vars).slots[level]
      ensures vars == old(vars).(captured := old(vars).captured + {uv.cell})
    {
      forall u | u in upvals ensures u.cell != vars.slots[level] { NoOther(u, level, k); }
      uv := Insert(level, prev, p, k);
      vars := vars.(captured := vars.captured + {uv.cell});
      NewInStep(level, k, uv);
    }

    /** luaF_findupval, but for dead upvalues. */
    method FindUpval(level: nat) returns (uv: UpVal)
      requires Valid() && level < stack.Length
      modifies this`openupval, this`open, this`upvals, this`vars, upvals`next
      ensures Valid() && fresh(upvals - old(upvals)) && old(upvals) <= upvals
      ensures uv in upvals && uv.cell == old(vars).slots[level]
      ensures vars == old(vars).(captured := old(vars).captured + {uv.cell})
    {
      hide Wf, StackOk, ClosuresOk, Linked;
      var prev, p, k := Search(level);
      if p != null && p.v.i == level {
        uv := p;
        assert InStep(p, stack.Length);
        Capture(uv);
      } else {
        uv := NewUpval(level, prev, p, k);
      }
    }

    lemma CapturedBefore(a: Vars, c: nat, b: nat)
      requires Wf(a) && HasUpvalue(a, c, b)
      ensures a.closures[c][b] in a.captured
    {
    }

    /** One pseudo-instruction behind OP_CLOSURE. */
    method CaptureOne(x: Capture) returns (uv: UpVal)
      requires Valid() && CaptureOk(vars, x)
      modifies this`openupval, this`open, this`upvals, this`vars, upvals`next
      ensures Valid() && fresh(upvals - old(upvals)) && old(upvals) <= upvals
      ensures uv in upvals && uv.cell == CellOf(old(vars), x)
      ensures vars == old(vars).(captured := old(vars).captured + {uv.cell})
    {
      match x {
        case Upvalue(c, b) =>
          ReadsCell(c, b);
          CapturedBefore(vars, c, b);
          uv := closures[c][b];
        case Local(i) =>
          uv := FindUpval(i);
      }
    }

    ghost predicate Holds(ups: seq<UpVal>, s: seq<nat>)
      reads this`upvals
    {
      |ups| <= |s| && forall l :: 0 <= l < |ups| ==> ups[l] in upvals && ups[l].cell == s[l]
    }

    method AddClosure(ups: seq<UpVal>, ghost s: seq<nat>)
      requires Valid() && |ups| == |s| && Holds(ups, s) && forall x :: x in s ==> x in vars.captured
      modifies this`closures, this`vars
      ensures Valid() && vars == old(vars).(closures := old(vars).closures + [s])
    {
      hide InStack, Linked;
      closures := closures + [ups];
      vars := vars.(closures := vars.closures + [s]);
      forall u | u in upvals ensures InStep(u, stack.Length) { assert old(InStep(u, stack.Length)); }
    }

    /** OP_CLOSURE: the closure gets its upvalues one by one. */
    method MakeClosure(captures: seq<Capture>)
      requires Valid() && Enabled(vars, Op.MakeClosure(captures))
      modifies this`openupval, this`open, this`upvals, this`vars, this`closures, upvals`next
      ensures Valid() && fresh(upvals - old(upvals)) && old(upvals) <= upvals
      ensures vars == Next(old(vars), Op.MakeClosure(captures))
    {
      hide Wf, InStack, Linked, StackOk, AllInStep, ClosuresOk;
      ghost var a, s := vars, CellsOf(vars, captures);
      var ups: seq<UpVal> := [];
      for j := 0 to |captures|
        invariant Valid() && fresh(upvals - old(upvals)) && old(upvals) <= upvals
        invariant |ups| == j && Holds(ups, s) && vars == a.(captured := a.captured + set x | x in s[..j])
      {
        var uv := CaptureOne(captures[j]);
        assert s[..j+1] == s[..j] + [s[j]];
        ups := ups + [uv];
      }
      assert s[..|captures|] == s;
      AddClosure(ups, s);
    }

    // ----- assignments -----

    /** A variable has a new value, in the stack and in its upvalue, wherever it is. */
    twostate lemma Assigns(new x: nat, new val: Value)
      requires old(Valid()) && x < old(|vars.cells|) && vars == Assigned(old(vars), x, val)
      requires stack == old(stack) && open == old(open) && upvals == old(upvals)
      requires openupval == old(openupval) && closures == old(closures)
      requires forall i :: 0 <= i < stack.Length ==>
        stack[i] == if old(vars).slots[i] == x then val else old(stack[i])
      requires forall u :: u in upvals ==> u.v == old(u.v) && u.next == old(u.next)
      requires forall u :: u in upvals && u.v.Own? ==> u.value == if u.cell == x then val else old(u.value)
      ensures Valid()
    {
      forall u | u in upvals
        ensures InStep(u, stack.Length)
      {
        assert old(InStep(u, stack.Length));
      }
      assert forall k: nat :: k < |open| ==> (LinkAt(k) <==> old(LinkAt(k)));
    }

    method SetLocal(i: nat, val: Value)
      requires Valid() && i < stack.Length
      modifies stack, this`vars
      ensures Valid() && vars == Next(old(vars), Op.SetLocal(i, val))
    {
      SlotIsOpen(i);
      ghost var x := vars.slots[i];
      vars := Assigned(vars, x, val);
      stack[i] := val;
      Assigns(x, val);
    }

    /** The variable of a slot is in no closed upvalue. */
    lemma SlotIsOpen(i: nat)
      requires Valid() && i < stack.Length
      ensures forall u :: u in upvals && u.v.Own? ==> u.cell != vars.slots[i]
    {
      forall u | u in upvals && u.v.Own? ensures u.cell != vars.slots[i] { assert InStep(u, stack.Length); }
    }

    function Read(uv: UpVal): Value
      reads uv, if uv.v.Slot? then {uv.v.a} else {}
      requires uv.v.Slot? ==> uv.v.i < uv.v.a.Length
    {
      match uv.v case Slot(a, i) => a[i] case Own => uv.value
    }

    /** The value of an upvalue is that of its variable. */
    lemma ReadsCell(c: nat, b: nat)
      requires Valid() && HasUpvalue(vars, c, b)
      ensures c < |closures| && b < |closures[c]| && closures[c][b] in upvals
      ensures var uv := closures[c][b]; var x := vars.closures[c][b];
        && uv.cell == x < |vars.cells| && (uv.v.Slot? ==> uv.v.a == stack && uv.v.i < stack.Length)
        && Read(uv) == vars.cells[x]
        && if uv.v.Slot? then vars.slots[uv.v.i] == x else x !in vars.slots
    {
      var uv := closures[c][b];
      assert uv in upvals && InStep(uv, stack.Length);
    }

    /** OP_GETUPVAL */
    method GetUpval(ra: nat, c: nat, b: nat)
      requires Valid() && Enabled(vars, Op.GetUpval(ra, c, b))
      modifies stack, this`vars
      ensures Valid() && vars == Next(old(vars), Op.GetUpval(ra, c, b))
    {
      ReadsCell(c, b);
      var val := Read(closures[c][b]);
      SlotIsOpen(ra);
      ghost var x := vars.slots[ra];
      vars := Assigned(vars, x, val);
      stack[ra] := val;
      Assigns(x, val);
    }

    /** OP_SETUPVAL */
    method SetUpval(ra: nat, c: nat, b: nat)
      requires Valid() && Enabled(vars, Op.SetUpval(ra, c, b))
      modifies stack, this`vars, upvals`value
      ensures Valid() && vars == Next(old(vars), Op.SetUpval(ra, c, b))
    {
      ReadsCell(c, b);
      var uv, val := closures[c][b], stack[ra];
      ghost var x := uv.cell;
      vars := Assigned(vars, x, val);
      match uv.v {
        case Slot(a, i) => a[i] := val;
        case Own => uv.value := val;
      }
      Assigns(x, val);
    }

    // ----- the end of a block -----

    /** All variables from the level on are new: upvalues there have to leave the stack. */
    twostate lemma CloseStarts(new level: nat)
      requires old(Valid()) && vars == Closed(old(vars), level)
      requires stack == old(stack) && open == old(open) && upvals == old(upvals)
      requires openupval == old(openupval) && closures == old(closures) && stack[..] == old(stack[..])
      requires forall u :: u in upvals ==> u.v == old(u.v) && u.next == old(u.next) && u.value == old(u.value)
      ensures ValidBut(level)
    {
      NextWf(old(vars), Op.Close(level));
      forall u | u in upvals
        ensures InStep(u, level)
      {
        assert old(InStep(u, stack.Length));
      }
      assert forall k: nat :: k < |open| ==> (LinkAt(k) <==> old(LinkAt(k)));
    }

    lemma CloseEnds(level: nat)
      requires ValidBut(level) && (open == [] || open[0].v.i < level)
      ensures Valid()
    {
      forall u | u in upvals
        ensures InStep(u, stack.Length)
      {
        assert InStep(u, level);
      }
    }

    twostate lemma FirstUnlinked()
      requires old(InStack()) && old(Linked()) && old(open) != [] && upvals == old(upvals) && open == old(open)[1..]
      requires openupval == old(open)[0].next && forall u :: u in upvals ==> u.next == old(u.next)
      ensures Linked()
    {
      assert old(LinkAt(0));
      forall k: nat | k < |open|
        ensures open[k] in upvals && LinkAt(k)
      {
        assert old(LinkAt(k + 1));
      }
    }

    twostate lemma FirstClosed(new level: nat)
      requires old(ValidBut(level)) && old(open) != [] && old(open[0].v.i) >= level && open == old(open)[1..]
      requires upvals == old(upvals) && vars == old(vars) && stack == old(stack) && stack[..] == old(stack[..])
      requires old(open)[0].v.Own? && old(open)[0].value == old(stack[open[0].v.i])
      requires forall u :: u in upvals && u != old(open)[0] ==> u.v == old(u.v) && u.value == old(u.value)
      ensures InStack() && AllInStep(level)
    {
      var uv := old(open)[0];
      assert forall u :: u in old(open) <==> u in open || u == uv;
      forall k | 0 <= k < |open| ensures open[k] != uv { assert open[k] == old(open)[k+1]; }
      forall u | u in upvals
        ensures InStep(u, level)
      {
        assert old(InStep(u, level));
      }
    }

    /** The first open upvalue leaves the stack. */
    method CloseOne(ghost level: nat)
      requires ValidBut(level) && openupval != null && openupval.v.i >= level
      modifies this`openupval, this`open, upvals`v, upvals`value
      ensures ValidBut(level) && |open| < |old(open)|
    {
      hide Wf, LinkAt, InStep;
      var uv := openupval;
      openupval := uv.next;
      open := open[1..];
      uv.value := stack[uv.v.i];
      uv.v := Own;
      FirstUnlinked();
      FirstClosed(level);
    }

    /** luaF_close, but for dead upvalues. */
    method Close(level: nat)
      requires Valid()
      modifies this`openupval, this`open, this`vars, upvals`v, upvals`value
      ensures Valid() && vars == Next(old(vars), Op.Close(level))
    {
      vars := Closed(vars, level);
      CloseStarts(level);
      while openupval != null && openupval.v.i >= level
        invariant ValidBut(level) && vars == Closed(old(vars), level)
        decreases |open|
      {
        CloseOne(level);
      }
      CloseEnds(level);
    }

    // ----- the stack moves -----

    /** correctstack: open upvalues have to point into the new stack. */
    method CorrectStack()
      requires Linked() && forall k :: 0 <= k < |open| ==> open[k] in upvals && open[k].v.Slot?
      requires forall k, l :: 0 <= k < l < |open| ==> open[k] != open[l]
      modifies upvals`v
      ensures forall k :: 0 <= k < |open| ==> open[k].v == Slot(stack, old(open[k].v.i))
      ensures forall u :: u in upvals && u !in open ==> u.v == old(u.v)
    {
      var p := openupval;
      ghost var k := 0;
      while p != null
        invariant k <= |open| && p == if k < |open| then open[k] else null
        invariant forall j :: 0 <= j < k ==> open[j].v == Slot(stack, old(open[j].v.i))
        invariant forall j :: k <= j < |open| ==> open[j].v == old(open[j].v)
        invariant forall u :: u in upvals && u !in open ==> u.v == old(u.v)
        decreases |open| - k
      {
        assert LinkAt(k);
        p.v := Slot(stack, p.v.i);
        p, k := p.next, k + 1;
      }
    }

    twostate lemma MovedInStep(new size: nat, new garbage: seq<Value>)
      requires old(Valid()) && ReallocOk(old(vars), size, garbage) && vars == Resized(old(vars), size, garbage)
      requires stack.Length == size && open == old(open) && upvals == old(upvals)
      requires forall k :: 0 <= k < |open| ==> open[k].v == Slot(stack, old(open[k].v.i))
      requires forall u :: u in upvals && u !in open ==> u.v == old(u.v)
      requires forall u :: u in upvals ==> u.value == old(u.value)
      requires forall i :: 0 <= i < size ==>
        stack[i] == if i < old(stack.Length) then old(stack[i]) else garbage[i-old(stack.Length)]
      ensures InStack() && AllInStep(size)
    {
      hide Resized, Linked, ClosuresOk;
      forall k | 0 <= k < |open| ensures old(open[k].v.i) < size { assert old(InStep(open[k], stack.Length)); }
      forall u | u in upvals
        ensures InStep(u, size)
      {
        assert old(InStep(u, stack.Length));
      }
    }

    twostate lemma Moved(new size: nat, new garbage: seq<Value>)
      requires old(Valid()) && ReallocOk(old(vars), size, garbage) && vars == Resized(old(vars), size, garbage)
      requires stack.Length == size && open == old(open) && upvals == old(upvals)
      requires openupval == old(openupval) && closures == old(closures)
      requires forall k :: 0 <= k < |open| ==> open[k].v == Slot(stack, old(open[k].v.i))
      requires forall u :: u in upvals && u !in open ==> u.v == old(u.v)
      requires forall u :: u in upvals ==> u.next == old(u.next) && u.value == old(u.value)
      requires forall i :: 0 <= i < size ==>
        stack[i] == if i < old(stack.Length) then old(stack[i]) else garbage[i-old(stack.Length)]
      ensures Valid()
    {
      hide InStep, AllInStep, ReallocOk;
      NextWf(old(vars), Op.ReallocStack(size, garbage));
      MovedInStep(size, garbage);
      assert forall k: nat :: k < |open| ==> (LinkAt(k) <==> old(LinkAt(k)));
    }

    /** luaM_reallocvector: the old values, as far as there is room, and then whatever the memory held. */
    method MoreMemory(size: nat, garbage: seq<Value>) returns (memory: array<Value>)
      requires size > stack.Length ==> |garbage| == size - stack.Length
      ensures fresh(memory) && memory.Length == size
      ensures forall i :: 0 <= i < size ==>
        memory[i] == if i < stack.Length then stack[i] else garbage[i-stack.Length]
    {
      memory := new Value[size];
      forall i | 0 <= i < size {
        memory[i] := if i < stack.Length then stack[i] else garbage[i-stack.Length];
      }
    }

    /** luaD_reallocstack */
    method ReallocStack(size: nat, garbage: seq<Value>)
      requires Valid() && ReallocOk(vars, size, garbage)
      modifies this`stack, this`vars, upvals`v
      ensures Valid() && fresh(stack) && vars == Next(old(vars), Op.ReallocStack(size, garbage))
    {
      hide Wf, ClosuresOk, AllInStep, Resized;
      stack := MoreMemory(size, garbage);
      CorrectStack();
      vars := Resized(vars, size, garbage);
      Moved(size, garbage);
    }

    // ----- runs -----

    method Step(op: Op)
      requires Valid() && Enabled(vars, op)
      modifies this, stack, upvals
      ensures Valid() && vars == Next(old(vars), op)
      ensures (stack == old(stack) || fresh(stack)) && fresh(upvals - old(upvals)) && old(upvals) <= upvals
    {
      match op
      case SetLocal(i, val) => SetLocal(i, val);
      case MakeClosure(captures) => MakeClosure(captures);
      case GetUpval(ra, c, b) => GetUpval(ra, c, b);
      case SetUpval(ra, c, b) => SetUpval(ra, c, b);
      case Close(level) => Close(level);
      case ReallocStack(size, garbage) => ReallocStack(size, garbage);
    }

    /** In any run, the stack and the upvalues hold what the cells hold. */
    method Run(ops: seq<Op>)
      requires Valid() && Possible(vars, ops)
      modifies this, stack, upvals
      ensures Valid() && vars == After(old(vars), ops)
    {
      hide InStack, Linked, StackOk, ClosuresOk, AllInStep, Enabled, Next;
      for n := 0 to |ops|
        invariant Valid() && Possible(vars, ops[n..]) && After(vars, ops[n..]) == After(old(vars), ops)
        invariant (stack == old(stack) || fresh(stack)) && fresh(upvals - old(upvals))
      {
        assert ops[n..][0] == ops[n] && ops[n..][1..] == ops[n+1..];
        Step(ops[n]);
      }
    }

    /** Two closures have an upvalue in common if and only if they have the variable in common. */
    lemma OneUpvalPerVariable(c: nat, b: nat, c': nat, b': nat)
      requires Valid() && HasUpvalue(vars, c, b) && HasUpvalue(vars, c', b')
      ensures c < |closures| && b < |closures[c]| && c' < |closures| && b' < |closures[c']|
      ensures closures[c][b] == closures[c'][b'] <==> vars.closures[c][b] == vars.closures[c'][b']
    {
      ReadsCell(c, b);
      ReadsCell(c', b');
    }
  }
}
