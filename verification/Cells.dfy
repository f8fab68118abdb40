/** What local variables and upvalues mean: a variable is a cell of its own, and a closure that captures it holds the
    cell.  There are no open and closed upvalues here, and nothing moves. */
module Cells {

  datatype Value = Nil | Datum(v: int)

  /** The cell of each slot of the stack, the values of all cells, the cells that each closure holds, and the cells that
      were ever captured. */
  datatype Vars = Vars(slots: seq<nat>, cells: seq<Value>, closures: seq<seq<nat>>, captured: set<nat>)

  /** What a closure captures: an upvalue of the running closure, or a local variable. */
  datatype Capture = Upvalue(c: nat, b: nat) | Local(i: nat)

  datatype Op =
    | SetLocal(i: nat, v: Value)
    | MakeClosure(captures: seq<Capture>)
    | GetUpval(ra: nat, c: nat, b: nat)
    | SetUpval(ra: nat, c: nat, b: nat)
    | Close(level: nat)
    | ReallocStack(size: nat, garbage: seq<Value>)  // what new memory holds

  predicate HasUpvalue(a: Vars, c: nat, b: nat) {
    c < |a.closures| && b < |a.closures[c]|
  }

  predicate CaptureOk(a: Vars, x: Capture) {
    match x
    case Upvalue(c, b) => HasUpvalue(a, c, b)
    case Local(i) => i < |a.slots|
  }

  /** Nothing that is captured lies beyond the new end of the stack. */
  predicate ReallocOk(a: Vars, size: nat, garbage: seq<Value>) {
    && |garbage| == (if size > |a.slots| then size - |a.slots| else 0)
    && forall i :: size <= i < |a.slots| ==> a.slots[i] !in a.captured
  }

  predicate Enabled(a: Vars, op: Op) {
    match op
    case SetLocal(i, v) => i < |a.slots|
    case MakeClosure(captures) => forall j :: 0 <= j < |captures| ==> CaptureOk(a, captures[j])
    case GetUpval(ra, c, b) => ra < |a.slots| && HasUpvalue(a, c, b)
    case SetUpval(ra, c, b) => ra < |a.slots| && HasUpvalue(a, c, b)
    case Close(level) => true
    case ReallocStack(size, garbage) => ReallocOk(a, size, garbage)
  }

  /** Each slot has its own cell. */
  ghost predicate Wf(a: Vars) {
    && (forall i :: 0 <= i < |a.slots| ==> a.slots[i] < |a.cells|)
    && (forall i, j :: 0 <= i < j < |a.slots| ==> a.slots[i] != a.slots[j])
    && (forall x :: x in a.captured ==> x < |a.cells|)
    && forall c, b {:trigger a.closures[c][b]} :: 0 <= c < |a.closures| && 0 <= b < |a.closures[c]| ==>
         a.closures[c][b] in a.captured
  }

  function CellOf(a: Vars, x: Capture): nat
    requires CaptureOk(a, x)
  {
    match x case Upvalue(c, b) => a.closures[c][b] case Local(i) => a.slots[i]
  }

  function CellsOf(a: Vars, captures: seq<Capture>): (s: seq<nat>)
    requires forall j :: 0 <= j < |captures| ==> CaptureOk(a, captures[j])
    ensures |s| == |captures| && forall j :: 0 <= j < |s| ==> s[j] == CellOf(a, captures[j])
  {
    seq(|captures|, j requires 0 <= j < |captures| => CellOf(a, captures[j]))
  }

  ghost function Assigned(a: Vars, x: nat, v: Value): Vars
    requires x < |a.cells|
  {
    a.(cells := a.cells[x := v])
  }

  /** New variables from the level on, with the values of the old ones. */
  ghost function Closed(a: Vars, level: nat): (r: Vars)
    requires Wf(a)
    ensures |r.slots| == |a.slots| && |r.cells| >= |a.cells|
    ensures forall i :: 0 <= i < |a.slots| && i < level ==> r.slots[i] == a.slots[i]
    ensures forall i :: level <= i < |a.slots| ==> r.slots[i] == |a.cells| + (i - level)
    ensures forall x :: 0 <= x < |a.cells| ==> r.cells[x] == a.cells[x]
    ensures forall i :: 0 <= i < |a.slots| ==> r.slots[i] < |r.cells| && r.cells[r.slots[i]] == a.cells[a.slots[i]]
  {
    if level >= |a.slots| then a
    else
      a.(slots := seq(|a.slots|, i requires 0 <= i < |a.slots| =>
                    if i < level then a.slots[i] else |a.cells| + (i - level)),
         cells := a.cells + seq(|a.slots| - level, j requires 0 <= j < |a.slots| - level => a.cells[a.slots[level+j]]))
  }

  ghost function Resized(a: Vars, size: nat, garbage: seq<Value>): (r: Vars)
    requires Wf(a) && ReallocOk(a, size, garbage)
    ensures |r.slots| == size && |r.cells| >= |a.cells|
    ensures forall i :: 0 <= i < size ==>
      r.slots[i] == if i < |a.slots| then a.slots[i] else |a.cells| + (i - |a.slots|)
    ensures forall x :: 0 <= x < |a.cells| ==> r.cells[x] == a.cells[x]
    ensures r.captured == a.captured && forall i :: 0 <= i < size ==>
      && r.slots[i] < |r.cells|
      && r.cells[r.slots[i]] == if i < |a.slots| then a.cells[a.slots[i]] else garbage[i-|a.slots|]
  {
    if size <= |a.slots| then a.(slots := a.slots[..size])
    else a.(slots := a.slots + seq(|garbage|, i => |a.cells| + i), cells := a.cells + garbage)
  }

  ghost function Next(a: Vars, op: Op): Vars
    requires Wf(a) && Enabled(a, op)
  {
    match op
    case SetLocal(i, v) => Assigned(a, a.slots[i], v)
    case MakeClosure(captures) =>
      var s := CellsOf(a, captures);
      a.(closures := a.closures + [s], captured := a.captured + set x | x in s)
    case GetUpval(ra, c, b) => Assigned(a, a.slots[ra], a.cells[a.closures[c][b]])
    case SetUpval(ra, c, b) => Assigned(a, a.closures[c][b], a.cells[a.slots[ra]])
    case Close(level) => Closed(a, level)
    case ReallocStack(size, garbage) => Resized(a, size, garbage)
  }

  lemma NextWf(a: Vars, op: Op)
    requires Wf(a) && Enabled(a, op)
    ensures Wf(Next(a, op))
  {
  }

  /** A whole run. */
  ghost predicate Possible(a: Vars, ops: seq<Op>)
    requires Wf(a)
    decreases |ops|
  {
    ops != [] ==> Enabled(a, ops[0]) && (NextWf(a, ops[0]); Possible(Next(a, ops[0]), ops[1..]))
  }

  ghost function After(a: Vars, ops: seq<Op>): (r: Vars)
    requires Wf(a) && Possible(a, ops)
    ensures Wf(r)
    decreases |ops|
  {
    if ops == [] then a
    else
      NextWf(a, ops[0]);
      After(Next(a, ops[0]), ops[1..])
  }

  // ----- sharing -----

  /** The closure sees the variable in this slot. */
  predicate Sees(a: Vars, c: nat, b: nat, i: nat) {
    HasUpvalue(a, c, b) && i < |a.slots| && a.slots[i] == a.closures[c][b]
  }

  /** No slot has the variable any more: only closures have it. */
  ghost predicate Detached(a: Vars, c: nat, b: nat) {
    HasUpvalue(a, c, b) && a.closures[c][b] !in a.slots
  }

  predicate ClosesBelow(op: Op, i: nat) {
    op.Close? && op.level <= i
  }

  lemma StepSees(a: Vars, op: Op, c: nat, b: nat, i: nat)
    requires Wf(a) && Enabled(a, op) && Sees(a, c, b, i)
    ensures if ClosesBelow(op, i) then Detached(Next(a, op), c, b) else Sees(Next(a, op), c, b, i)
    ensures Next(a, op).closures[c][b] == a.closures[c][b]
  {
    assert a.closures[c][b] in a.captured;
  }

  lemma StepDetached(a: Vars, op: Op, c: nat, b: nat)
    requires Wf(a) && Enabled(a, op) && Detached(a, c, b)
    ensures Detached(Next(a, op), c, b) && Next(a, op).closures[c][b] == a.closures[c][b]
  {
    assert a.closures[c][b] in a.captured;
  }

  lemma {:induction false} StaysDetached(a: Vars, ops: seq<Op>, c: nat, b: nat)
    requires Wf(a) && Possible(a, ops) && Detached(a, c, b)
    ensures Detached(After(a, ops), c, b)
    decreases |ops|
  {
    if ops != [] {
      NextWf(a, ops[0]);
      StepDetached(a, ops[0], c, b);
      StaysDetached(Next(a, ops[0]), ops[1..], c, b);
    }
  }

  /** A closure and the function around it share a variable until its block is left, in any run, and never again. */
  lemma {:induction false} SharedUntilClosed(a: Vars, ops: seq<Op>, c: nat, b: nat, i: nat)
    requires Wf(a) && Possible(a, ops) && Sees(a, c, b, i)
    ensures Sees(After(a, ops), c, b, i) <==> forall op :: op in ops ==> !ClosesBelow(op, i)
    ensures !Sees(After(a, ops), c, b, i) ==> Detached(After(a, ops), c, b)
    decreases |ops|
  {
    if ops != [] {
      NextWf(a, ops[0]);
      StepSees(a, ops[0], c, b, i);
      if ClosesBelow(ops[0], i) {
        StaysDetached(Next(a, ops[0]), ops[1..], c, b);
        assert ops[0] in ops;
      } else {
        SharedUntilClosed(Next(a, ops[0]), ops[1..], c, b, i);
        assert forall op :: op in ops <==> op == ops[0] || op in ops[1..];
      }
    }
  }

  /** The closure that is made next. */
  ghost function WithClosure(a: Vars, i: nat): (r: Vars)
    requires Wf(a) && i < |a.slots|
    ensures Wf(r)
  {
    var op := MakeClosure([Local(i)]);
    NextWf(a, op);
    Next(a, op)
  }

  /** Two closures that capture the same slot at different times get the same variable if and only if its block was not
      left in between. */
  lemma SameVariable(a: Vars, i: nat, ops: seq<Op>)
    requires Wf(a) && i < |a.slots| && Possible(WithClosure(a, i), ops)
    ensures var a1 := WithClosure(a, i); var a2 := After(a1, ops);
      i < |a2.slots| ==>
        var r := WithClosure(a2, i);
        HasUpvalue(r, |a.closures|, 0) &&
        (r.closures[|a.closures|][0] == r.closures[|a2.closures|][0]
         <==> forall op :: op in ops ==> !ClosesBelow(op, i))
  {
    var a1 := WithClosure(a, i);
    assert a1.closures[|a.closures|] == [a.slots[i]];
    SharedUntilClosed(a1, ops, |a.closures|, 0, i);
    var a2 := After(a1, ops);
    if i < |a2.slots| {
      var r := WithClosure(a2, i);
      assert r.closures[|a2.closures|] == [a2.slots[i]];
    }
  }

  /** An assignment through one closure is seen exactly where the same variable is. */
  lemma AssignmentSeen(a: Vars, ra: nat, c: nat, b: nat)
    requires Wf(a) && Enabled(a, SetUpval(ra, c, b))
    ensures var r := Next(a, SetUpval(ra, c, b)); var v := a.cells[a.slots[ra]]; var x := a.closures[c][b];
      && (forall i :: 0 <= i < |a.slots| ==>
            r.cells[r.slots[i]] == if Sees(a, c, b, i) then v else a.cells[a.slots[i]])
      && forall c', b' {:trigger r.closures[c'][b']} :: 0 <= c' < |a.closures| && 0 <= b' < |a.closures[c']| ==>
           r.cells[r.closures[c'][b']] == if a.closures[c'][b'] == x then v else a.cells[a.closures[c'][b']]
  {
  }

  /** An assignment to a local variable is seen in its slot, and by the closures that hold the variable. */
  lemma LocalAssignmentSeen(a: Vars, i: nat, v: Value)
    requires Wf(a) && i < |a.slots|
    ensures var r := Next(a, SetLocal(i, v));
      && r.slots == a.slots && r.closures == a.closures && |r.cells| == |a.cells|
      && (forall j :: 0 <= j < |a.slots| ==> r.cells[r.slots[j]] == if j == i then v else a.cells[a.slots[j]])
      && forall c, b {:trigger r.closures[c][b]} :: 0 <= c < |a.closures| && 0 <= b < |a.closures[c]| ==>
           r.cells[r.closures[c][b]] == if Sees(a, c, b, i) then v else a.cells[a.closures[c][b]]
  {
  }

  /** Reading an upvalue puts the value of its variable into a slot. */
  lemma UpvalueRead(a: Vars, ra: nat, c: nat, b: nat)
    requires Wf(a) && Enabled(a, GetUpval(ra, c, b))
    ensures Next(a, GetUpval(ra, c, b)) == Next(a, SetLocal(ra, a.cells[a.closures[c][b]]))
    ensures var r := Next(a, GetUpval(ra, c, b)); r.cells[r.slots[ra]] == a.cells[a.closures[c][b]]
  {
  }
}
