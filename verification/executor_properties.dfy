/** Per-opcode contracts of `Executor.Step`, and the round trips between
    the store and load opcodes (executor.c, checked against the scenarios
    of executor_test.c). */
module ExecutorProperties {
  import opened Results
  import opened Values
  import opened Instructions
  import Int32
  import CallStacks
  import Objects
  import ConstantPools
  import opened Executor

  /** The instruction under the program counter is `(op, x)`. */
  predicate At(m: Machine, op: Byte, x: Word) {
    m.pc < |m.code| && m.code[m.pc] == Instruction(op, x)
  }

  /** Only the operand stack and the program counter may differ. */
  predicate OperandsOnly(m: Machine, m': Machine) {
    m'.frames == m.frames && m'.heap == m.heap && m'.pool == m.pool && m'.code == m.code
  }

  /** PUSH x pushes the signed reading of x and moves to the next instruction. */
  lemma {:induction false} StepPush(m: Machine, x: Word)
    requires Objects.Valid(m.heap) && At(m, PUSH, x)
    ensures Step(m).Ok? && Step(m).value.running
    ensures var m' := Step(m).value.machine;
      && m'.operands.elems == m.operands.elems + [Int(Int32.FromU32(x as nat))]
      && m'.pc == m.pc + 1
      && OperandsOnly(m, m')
  {
    assert Handle(m, m.code[m.pc]).Ok?;
  }

  /** POP drops the top value; with nothing to drop it faults. */
  lemma {:induction false} StepPop(m: Machine, x: Word)
    requires Objects.Valid(m.heap) && At(m, POP, x)
    ensures Step(m).Ok? <==> |m.operands.elems| > 0
    ensures Step(m).Err? ==> Step(m).fault == StackUnderflow
    ensures Step(m).Ok? ==> var m' := Step(m).value.machine;
      && Step(m).value.running
      && m'.operands.elems == m.operands.elems[..|m.operands.elems| - 1]
      && m'.pc == m.pc + 1
      && OperandsOnly(m, m')
  {
    if |m.operands.elems| > 0 {
      assert Handle(m, m.code[m.pc]).Ok?;
    }
  }

  /** DUP pushes a second copy of the top value. */
  lemma {:induction false} StepDup(m: Machine, x: Word)
    requires Objects.Valid(m.heap) && At(m, DUP, x)
    ensures Step(m).Ok? <==> |m.operands.elems| > 0
    ensures Step(m).Ok? ==> var m' := Step(m).value.machine; var s := m.operands.elems;
      && Step(m).value.running
      && m'.operands.elems == s + [s[|s| - 1]]
      && m'.pc == m.pc + 1
      && OperandsOnly(m, m')
  {
    if |m.operands.elems| > 0 {
      assert Handle(m, m.code[m.pc]).Ok?;
    }
  }

  /** PUSH_CONST has no effect besides moving on; so does any opcode the
      dispatch has no case for. */
  lemma {:induction false} StepNoOp(m: Machine, op: Byte, x: Word)
    requires Objects.Valid(m.heap) && At(m, op, x)
    requires op == PUSH_CONST || op > DUP
    ensures Step(m) == Ok(Stepped(m.(pc := m.pc + 1), true))
  {
    assert Handle(m, m.code[m.pc]) == Ok(Stepped(m, true));
  }

  /** ADD, SUB, MUL and DIV replace the top two values, `left` under
      `right`, by `left op right`; the stack is one shorter. */
  lemma {:induction false} StepArith(m: Machine, op: Byte, x: Word)
    requires Objects.Valid(m.heap) && At(m, op, x) && ADD <= op <= DIV
    ensures var s := m.operands.elems; var n := |s|;
      Step(m).Ok? <==> n >= 2 && Arith(op, s[n - 2], s[n - 1]).Ok?
    ensures |m.operands.elems| < 2 ==> Step(m) == Err(StackUnderflow)
    ensures Step(m).Ok? ==> var s := m.operands.elems; var n := |s|; var m' := Step(m).value.machine;
      && Step(m).value.running
      && m'.operands.elems == s[..n - 2] + [Arith(op, s[n - 2], s[n - 1]).value]
      && m'.pc == m.pc + 1
      && OperandsOnly(m, m')
  {
    var s := m.operands.elems;
    if |s| >= 2 && Arith(op, s[|s| - 2], s[|s| - 1]).Ok? {
      assert Handle(m, m.code[m.pc]).Ok?;
    }
  }

  /** The arithmetic scenarios of the source's tests. */
  lemma ArithExamples()
    ensures Arith(ADD, Int(50), Int(25)) == Ok(Int(75))
    ensures Arith(SUB, Int(50), Int(25)) == Ok(Int(25))
    ensures Arith(MUL, Int(50), Int(25)) == Ok(Int(1250))
    ensures Arith(DIV, Int(50), Int(25)) == Ok(Int(2))
    ensures Arith(DIV, Int(-7), Int(2)) == Ok(Int(-3))
    ensures Arith(DIV, Int(1), Int(0)) == Err(DivideByZero)
    ensures Arith(DIV, Int(Int32.MIN), Int(-1)) == Err(Overflow)
    ensures Arith(ADD, Int(Int32.MAX), Int(1)) == Err(Overflow)
  {
    Int32.TruncDivExamples();
    assert Int32.TruncDiv(Int32.MIN, -1) == -Int32.MIN;
  }

  /** JUMP x always branches and leaves the operand stack's contents as
      they were. */
  lemma {:induction false} StepJump(m: Machine, x: Word)
    requires Objects.Valid(m.heap) && At(m, JUMP, x)
    ensures Step(m).Ok? && Step(m).value.running
    ensures var m' := Step(m).value.machine;
      && m'.operands.elems == m.operands.elems
      && m'.pc == x as nat
      && OperandsOnly(m, m')
  {
    var d := Handle(m, m.code[m.pc]);
    assert d.Ok? && d.value.machine.operands.elems == m.operands.elems + [Int(1)];
  }

  /** A compare-and-branch opcode pops `left` and `right` and goes to its
      operand exactly when the relation holds, to the next instruction
      otherwise; the ordering relations need two integers. */
  lemma {:induction false} StepBranch(m: Machine, op: Byte, x: Word)
    requires Objects.Valid(m.heap) && At(m, op, x) && JUMP_EQ <= op <= JUMP_GE
    ensures var s := m.operands.elems; var n := |s|;
      Step(m).Ok? <==> n >= 2 && (op == JUMP_EQ || op == JUMP_NE || (s[n - 2].Int? && s[n - 1].Int?))
    ensures Step(m).Ok? ==> var s := m.operands.elems; var n := |s|; var m' := Step(m).value.machine;
      && Step(m).value.running
      && m'.operands.elems == s[..n - 2]
      && m'.pc == (if Holds(op, s[n - 2], s[n - 1]) then x as nat else m.pc + 1)
      && OperandsOnly(m, m')
  {
    var s := m.operands.elems;
    var n := |s|;
    if n >= 2 && (op == JUMP_EQ || op == JUMP_NE || (s[n - 2].Int? && s[n - 1].Int?)) {
      var d := Handle(m, m.code[m.pc]);
      var b := Compare(op, s[n - 2], s[n - 1]).value;
      assert d.Ok? && d.value.machine.operands.elems == s[..n - 2] + [Bool(b)];
      assert (Bool(b) != Int(0)) == b;
    }
  }

  /** The twelve branch scenarios of the source's tests. */
  lemma BranchExamples()
    ensures Holds(JUMP_EQ, Int(50), Int(50)) && !Holds(JUMP_EQ, Int(50), Int(51))
    ensures Holds(JUMP_NE, Int(50), Int(51)) && !Holds(JUMP_NE, Int(50), Int(50))
    ensures Holds(JUMP_LT, Int(50), Int(51)) && !Holds(JUMP_LT, Int(51), Int(50))
    ensures Holds(JUMP_LE, Int(50), Int(50)) && !Holds(JUMP_LE, Int(51), Int(50))
    ensures Holds(JUMP_GT, Int(51), Int(50)) && !Holds(JUMP_GT, Int(50), Int(51))
    ensures Holds(JUMP_GE, Int(50), Int(50)) && !Holds(JUMP_GE, Int(50), Int(51))
  {
  }

  /** CALL x uses the method entry at pool index x as it stands (no
      vtable lookup): the top `args` values, in push order, become the
      first vars of a new frame, followed by `locals` fresh slots; the
      frame returns to the next instruction and control moves to the
      method's address. */
  lemma {:induction false} StepCall(m: Machine, x: Word)
    requires Objects.Valid(m.heap) && At(m, CALL, x)
    ensures !(ConstantPools.Get(m.pool, x as nat).Ok? && ConstantPools.Get(m.pool, x as nat).value.Method?) ==>
      Step(m) == Err(BadPoolRef)
    ensures ConstantPools.Get(m.pool, x as nat).Ok? && ConstantPools.Get(m.pool, x as nat).value.Method? ==>
      var callee := ConstantPools.Get(m.pool, x as nat).value; var s := m.operands.elems; var k := callee.args;
      && (Step(m).Ok? <==> k <= |s|)
      && (Step(m).Ok? ==> var m' := Step(m).value.machine;
        && Step(m).value.running
        && m'.operands.elems == s[..|s| - k]
        && m'.frames.elems == m.frames.elems + [CallStacks.Frame(s[|s| - k..] + Zeros(callee.locals), m.pc + 1)]
        && m'.pc == callee.address
        && m'.heap == m.heap)
  {
    var e := ConstantPools.Get(m.pool, x as nat);
    if e.Ok? && e.value.Method? && e.value.args <= |m.operands.elems| {
      assert Handle(m, m.code[m.pc]).Ok?;
    }
  }

  /** RETURN pops the top frame and resumes at its saved address; the
      operand stack, which carries any result, is untouched; the program
      stops exactly when no frame is left. */
  lemma {:induction false} StepReturn(m: Machine, x: Word)
    requires Objects.Valid(m.heap) && At(m, RETURN, x)
    ensures Step(m).Ok? <==> |m.frames.elems| > 0
    ensures Step(m).Ok? ==> var fs := m.frames.elems; var m' := Step(m).value.machine;
      && m'.pc == fs[|fs| - 1].returnAddress
      && m'.frames.elems == fs[..|fs| - 1]
      && m'.operands == m.operands
      && m'.heap == m.heap
      && (Step(m).value.running <==> |fs| > 1)
  {
    if |m.frames.elems| > 0 {
      assert Handle(m, m.code[m.pc]).Ok?;
    }
  }

  /** NEW x pushes a reference to a fresh object tagged x with as many
      slots as class x declares fields; every existing cell is kept. */
  lemma {:induction false} StepNew(m: Machine, x: Word)
    requires Objects.Valid(m.heap) && At(m, NEW, x)
    ensures Step(m).Ok? <==> ConstantPools.Get(m.pool, x as nat).Ok? && ConstantPools.Get(m.pool, x as nat).value.Class?
    ensures Step(m).Ok? ==> var m' := Step(m).value.machine; var s := m'.operands.elems;
      && Step(m).value.running
      && |s| == |m.operands.elems| + 1
      && s[..|s| - 1] == m.operands.elems
      && s[|s| - 1].Ref?
      && s[|s| - 1].r !in m.heap.cells
      && m'.heap.cells == m.heap.cells[s[|s| - 1].r := Objects.Obj(x as nat, Zeros(ConstantPools.Get(m.pool, x as nat).value.fields))]
      && m'.pc == m.pc + 1
      && m'.frames == m.frames
  {
    var e := ConstantPools.Get(m.pool, x as nat);
    if e.Ok? && e.value.Class? {
      assert Handle(m, m.code[m.pc]).Ok?;
      var s := Step(m).value.machine.operands.elems;
      assert s[..|s| - 1] == m.operands.elems;
    }
  }

  /** PUSH_VAR i pushes var i of the current frame. */
  lemma {:induction false} StepPushVar(m: Machine, x: Word)
    requires Objects.Valid(m.heap) && At(m, PUSH_VAR, x)
    ensures Step(m).Ok? <==> |m.frames.elems| > 0 && x as nat < |m.frames.elems[|m.frames.elems| - 1].vars|
    ensures Step(m).Ok? ==> var m' := Step(m).value.machine; var fs := m.frames.elems;
      && m'.operands.elems == m.operands.elems + [fs[|fs| - 1].vars[x]]
      && m'.pc == m.pc + 1
      && OperandsOnly(m, m')
  {
    var fs := m.frames.elems;
    if |fs| > 0 && x as nat < |fs[|fs| - 1].vars| {
      assert Handle(m, m.code[m.pc]).Ok?;
    }
  }

  /** POP_VAR i moves the top value into var i of the current frame and
      changes no other var and no other frame. */
  lemma {:induction false} StepPopVar(m: Machine, x: Word)
    requires Objects.Valid(m.heap) && At(m, POP_VAR, x)
    ensures var fs := m.frames.elems;
      Step(m).Ok? <==> |fs| > 0 && |m.operands.elems| > 0 && x as nat < |fs[|fs| - 1].vars|
    ensures Step(m).Ok? ==> var m' := Step(m).value.machine; var fs := m.frames.elems; var s := m.operands.elems;
      && m'.operands.elems == s[..|s| - 1]
      && m'.frames.elems == fs[..|fs| - 1] + [fs[|fs| - 1].(vars := fs[|fs| - 1].vars[x := s[|s| - 1]])]
      && m'.pc == m.pc + 1
      && m'.heap == m.heap
  {
    var fs := m.frames.elems;
    if |fs| > 0 && |m.operands.elems| > 0 && x as nat < |fs[|fs| - 1].vars| {
      assert Handle(m, m.code[m.pc]).Ok?;
    }
  }

  /** POP_VAR i then PUSH_VAR i: the value comes back, the operand stack
      is as it was, and var i keeps it. */
  lemma {:induction false} PopVarThenPushVar(m: Machine, x: Word)
    requires Objects.Valid(m.heap) && At(m, POP_VAR, x)
    requires m.pc + 1 < |m.code| && m.code[m.pc + 1] == Instruction(PUSH_VAR, x)
    requires |m.frames.elems| > 0 && |m.operands.elems| > 0
    requires x as nat < |m.frames.elems[|m.frames.elems| - 1].vars|
    ensures var r := Run(m, 2);
      && r.Ok?
      && var m2 := r.value.machine; var fs := m2.frames.elems;
      && m2.operands.elems == m.operands.elems
      && |fs| == |m.frames.elems|
      && x as nat < |fs[|fs| - 1].vars|
      && fs[|fs| - 1].vars[x] == m.operands.elems[|m.operands.elems| - 1]
      && m2.pc == m.pc + 2
  {
    StepPopVar(m, x);
    var m1 := Step(m).value.machine;
    StepPushVar(m1, x);
    assert Run(m, 2) == Run(m1, 1);
    var s := m.operands.elems;
    assert s[..|s| - 1] + [s[|s| - 1]] == s;
  }

  /** PUSH_FIELD f replaces the object reference on top by its slot. */
  lemma {:induction false} StepPushField(m: Machine, x: Word)
    requires Objects.Valid(m.heap) && At(m, PUSH_FIELD, x)
    requires FieldSlot(m.pool, x as nat).Ok? && |m.operands.elems| > 0
    ensures var s := m.operands.elems; var v := s[|s| - 1];
      Step(m).Ok? <==> v.Ref? && Objects.GetField(m.heap, v.r, FieldSlot(m.pool, x as nat).value).Ok?
    ensures Step(m).Ok? ==> var s := m.operands.elems; var m' := Step(m).value.machine;
      && m'.operands.elems == s[..|s| - 1] + [Objects.GetField(m.heap, s[|s| - 1].r, FieldSlot(m.pool, x as nat).value).value]
      && m'.pc == m.pc + 1
      && OperandsOnly(m, m')
  {
    var s := m.operands.elems;
    var v := s[|s| - 1];
    if v.Ref? && Objects.GetField(m.heap, v.r, FieldSlot(m.pool, x as nat).value).Ok? {
      assert Handle(m, m.code[m.pc]).Ok?;
    }
  }

  /** POP_FIELD f pops a value and then an object reference and stores
      the value in the object's slot. */
  lemma {:induction false} StepPopField(m: Machine, x: Word)
    requires Objects.Valid(m.heap) && At(m, POP_FIELD, x)
    requires FieldSlot(m.pool, x as nat).Ok? && |m.operands.elems| >= 2
    ensures var s := m.operands.elems; var o := s[|s| - 2];
      Step(m).Ok? <==> o.Ref? && Objects.SetField(m.heap, o.r, FieldSlot(m.pool, x as nat).value, s[|s| - 1]).Ok?
    ensures Step(m).Ok? ==> var s := m.operands.elems; var m' := Step(m).value.machine;
      && m'.operands.elems == s[..|s| - 2]
      && m'.heap == Objects.SetField(m.heap, s[|s| - 2].r, FieldSlot(m.pool, x as nat).value, s[|s| - 1]).value
      && m'.pc == m.pc + 1
      && m'.frames == m.frames
  {
    var s := m.operands.elems;
    var o := s[|s| - 2];
    if o.Ref? && Objects.SetField(m.heap, o.r, FieldSlot(m.pool, x as nat).value, s[|s| - 1]).Ok? {
      assert Handle(m, m.code[m.pc]).Ok?;
    }
  }

  /** POP_FIELD f then PUSH_FIELD f on the same object, pushed twice
      beneath the value: the value comes back, and no other slot of any
      object changes. */
  lemma {:induction false} PopFieldThenPushField(m: Machine, x: Word, rest: seq<Value>, a: nat, v: Value, b: nat, j: nat)
    requires Objects.Valid(m.heap) && At(m, POP_FIELD, x)
    requires m.pc + 1 < |m.code| && m.code[m.pc + 1] == Instruction(PUSH_FIELD, x)
    requires m.operands.elems == rest + [Ref(a), Ref(a), v]
    requires FieldSlot(m.pool, x as nat).Ok?
    requires Objects.GetField(m.heap, a, FieldSlot(m.pool, x as nat).value).Ok?
    ensures Run(m, 2).Ok?
    ensures var m2 := Run(m, 2).value.machine;
      && m2.operands.elems == rest + [v]
      && m2.pc == m.pc + 2
      && ((b, j) != (a, FieldSlot(m.pool, x as nat).value) ==>
          Objects.GetField(m2.heap, b, j) == Objects.GetField(m.heap, b, j))
  {
    var slot := FieldSlot(m.pool, x as nat).value;
    var s := m.operands.elems;
    assert s[|s| - 2] == Ref(a) && s[|s| - 1] == v;
    StepPopField(m, x);
    var m1 := Step(m).value.machine;
    assert m1.operands.elems == rest + [Ref(a)];
    Objects.SetThenGet(m.heap, a, slot, v, b, j);
    StepPushField(m1, x);
    assert Run(m, 2) == Run(m1, 1);
    assert (rest + [Ref(a)])[..|rest|] == rest;
  }
}
