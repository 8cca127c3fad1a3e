/** The interpreter (executor.c): one `Step` fetches the instruction at the
    program counter, runs it against the operand stack, the call stack,
    the heap and the constant pool, and reports whether the program is
    still running. */
module Executor {
  import opened Results
  import opened Values
  import opened Instructions
  import Int32
  import GrowableStack
  import CallStacks
  import Objects
  import ConstantPools

  type Operands = GrowableStack.Stack<Value>

  /** The executor state. `min` is the configured minimum capacity of both
      stacks. */
  datatype Machine = Machine(
    pool: ConstantPools.Pool,
    code: seq<Instruction>,
    pc: nat,
    operands: Operands,
    frames: CallStacks.CallStack,
    heap: Objects.Heap,
    min: nat)

  /** The machine after an instruction, and `false` exactly when a RETURN
      emptied the call stack. */
  datatype Stepped = Stepped(machine: Machine, running: bool)

  /** `executor_new`: both stacks empty at their minimum capacity, the
      program counter at the first instruction, nothing allocated. */
  function New(pool: ConstantPools.Pool, code: seq<Instruction>, min: nat): (m: Machine)
    ensures m.pc == 0 && m.operands.elems == [] && m.frames.elems == []
    ensures m.operands.capacity == min && m.frames.capacity == min
    ensures Objects.Valid(m.heap) && m.heap.cells == map[]
  {
    Machine(pool, code, 0, GrowableStack.New(min), CallStacks.New(min), Objects.Empty(), min)
  }

  // ---------------------------------------------------------------------
  // Operand-stack helpers

  /** `evalstack_top` then `evalstack_pop`. */
  function PopValue(s: Operands, min: nat): (r: Result<(Value, Operands)>)
    ensures r.Ok? <==> |s.elems| > 0
    ensures r.Err? ==> r.fault == StackUnderflow
    ensures r.Ok? ==> r.value.0 == s.elems[|s.elems| - 1] && r.value.1.elems == s.elems[..|s.elems| - 1]
  {
    if |s.elems| == 0 then Err(StackUnderflow)
    else Ok((GrowableStack.Top(s).value, GrowableStack.Pop(s, min).value))
  }

  /** Pop `k` values; they come back in push order, as the argument loop of
      `call_method` stores them (the last pushed goes to the highest slot). */
  function PopN(s: Operands, k: nat, min: nat): (r: Result<(seq<Value>, Operands)>)
    ensures r.Ok? <==> k <= |s.elems|
    ensures r.Err? ==> r.fault == StackUnderflow
    ensures r.Ok? ==> r.value.0 == s.elems[|s.elems| - k..] && r.value.1.elems == s.elems[..|s.elems| - k]
    decreases k
  {
    if k == 0 then Ok(([], s))
    else
      var p :- PopValue(s, min);
      var q :- PopN(p.1, k - 1, min);
      assert s.elems[|s.elems| - k..] == s.elems[..|s.elems| - 1][|s.elems| - k..] + [p.0];
      Ok((q.0 + [p.0], q.1))
  }

  /** `apply_binary_function`'s two pops: `right` is the top, `left` the
      value under it. */
  function PopPair(s: Operands, min: nat): (r: Result<(Value, Value, Operands)>)
    ensures r.Ok? <==> |s.elems| >= 2
    ensures r.Err? ==> r.fault == StackUnderflow
    ensures r.Ok? ==> var n := |s.elems|;
      r.value.0 == s.elems[n - 2] && r.value.1 == s.elems[n - 1] && r.value.2.elems == s.elems[..n - 2]
  {
    var right :- PopValue(s, min);
    var left :- PopValue(right.1, min);
    Ok((left.0, right.0, left.1))
  }

  function Bool(b: bool): Value {
    Int(if b then 1 else 0)
  }

  // ---------------------------------------------------------------------
  // op_add .. op_ge

  /** `op_add`, `op_sub`, `op_mul`, `op_div` on 32-bit signed integers.
      Division truncates toward zero. Where the source overflows or divides
      by zero (undefined behaviour) the model reports a fault. On a reference
      operand the source computes on the integer reading of the pointer's
      bits; the model's addresses carry no such bits, so it faults. */
  function Arith(op: Byte, left: Value, right: Value): (r: Result<Value>)
    requires ADD <= op <= DIV
    ensures r.Ok? ==> left.Int? && right.Int? && r.value.Int? && Int32.IsI32(r.value.i)
    ensures r.Ok? && op == ADD ==> r.value.i == left.i + right.i
    ensures r.Ok? && op == SUB ==> r.value.i == left.i - right.i
    ensures r.Ok? && op == MUL ==> r.value.i == left.i * right.i
    ensures r.Ok? && op == DIV ==>
      && right.i != 0
      && Int32.Abs(r.value.i) == Int32.Abs(left.i) / Int32.Abs(right.i)
      && (r.value.i < 0 ==> (left.i < 0) != (right.i < 0))
    ensures !(left.Int? && right.Int?) ==> r == Err(NotAnInteger)
    ensures left.Int? && right.Int? && op == DIV && right.i == 0 ==> r == Err(DivideByZero)
    ensures r.Err? ==> r.fault in {NotAnInteger, DivideByZero, Overflow}
  {
    if !(left.Int? && right.Int?) then Err(NotAnInteger)
    else if op == DIV && right.i == 0 then Err(DivideByZero)
    else
      var x :=
        if op == ADD then left.i + right.i
        else if op == SUB then left.i - right.i
        else if op == MUL then left.i * right.i
        else Int32.TruncDiv(left.i, right.i);
      if Int32.IsI32(x) then Ok(Int(x)) else Err(Overflow)
  }

  /** The relation a compare-and-branch opcode tests, as the branch
      lemmas state it. */
  predicate Holds(op: Byte, left: Value, right: Value)
    requires JUMP_EQ <= op <= JUMP_GE
    requires op != JUMP_EQ && op != JUMP_NE ==> left.Int? && right.Int?
  {
    match op
    case 12 => left == right
    case 13 => left != right
    case 14 => left.i < right.i
    case 15 => left.i <= right.i
    case 16 => left.i > right.i
    case _ => left.i >= right.i
  }

  /** `op_eq` .. `op_ge`: equality compares whole values (the source
      compares the raw union bytes); the orderings need two integers, where
      the source would compare a pointer's integer reading. */
  function Compare(op: Byte, left: Value, right: Value): (r: Result<bool>)
    requires JUMP_EQ <= op <= JUMP_GE
    ensures r.Ok? <==> op == JUMP_EQ || op == JUMP_NE || (left.Int? && right.Int?)
    ensures op == JUMP_EQ ==> r == Ok(left == right)
    ensures op == JUMP_NE ==> r == Ok(left != right)
    ensures r.Ok? && op == JUMP_LT ==> (r.value <==> left.i < right.i)
    ensures r.Ok? && op == JUMP_LE ==> (r.value <==> left.i <= right.i)
    ensures r.Ok? && op == JUMP_GT ==> (r.value <==> left.i > right.i)
    ensures r.Ok? && op == JUMP_GE ==> (r.value <==> left.i >= right.i)
    ensures r.Err? ==> r.fault == NotAnInteger
  {
    if op == JUMP_EQ then Ok(left == right)
    else if op == JUMP_NE then Ok(left != right)
    else if !(left.Int? && right.Int?) then Err(NotAnInteger)
    else if op == JUMP_LT then Ok(left.i < right.i)
    else if op == JUMP_LE then Ok(left.i <= right.i)
    else if op == JUMP_GT then Ok(left.i > right.i)
    else Ok(left.i >= right.i)
  }

  // ---------------------------------------------------------------------
  // Pool entries the opcodes name. An entry of the wrong kind is a fault;
  // the source reads the entry's payload union as the kind it expects.

  function FieldSlot(pool: ConstantPools.Pool, i: nat): (r: Result<nat>)
    ensures r.Ok? <==> ConstantPools.Get(pool, i).Ok? && ConstantPools.Get(pool, i).value.Field?
    ensures r.Ok? ==> r.value == ConstantPools.Get(pool, i).value.slot
    ensures r.Err? ==> r.fault == BadPoolRef
  {
    var e :- ConstantPools.Get(pool, i);
    if e.Field? then Ok(e.slot) else Err(BadPoolRef)
  }

  function MethodAt(pool: ConstantPools.Pool, i: nat): (r: Result<ConstantPools.Entry>)
    ensures r.Ok? <==> ConstantPools.Get(pool, i).Ok? && ConstantPools.Get(pool, i).value.Method?
    ensures r.Ok? ==> r.value == ConstantPools.Get(pool, i).value
    ensures r.Err? ==> r.fault == BadPoolRef
  {
    var e :- ConstantPools.Get(pool, i);
    if e.Method? then Ok(e) else Err(BadPoolRef)
  }

  function ClassFields(pool: ConstantPools.Pool, i: nat): (r: Result<nat>)
    ensures r.Ok? <==> ConstantPools.Get(pool, i).Ok? && ConstantPools.Get(pool, i).value.Class?
    ensures r.Ok? ==> r.value == ConstantPools.Get(pool, i).value.fields
    ensures r.Err? ==> r.fault == BadPoolRef
  {
    var e :- ConstantPools.Get(pool, i);
    if e.Class? then Ok(e.fields) else Err(BadPoolRef)
  }

  function AsRef(v: Value): (r: Result<nat>)
    ensures r.Ok? <==> v.Ref?
    ensures r.Ok? ==> r.value == v.r
    ensures r.Err? ==> r.fault == NotAnObject
  {
    if v.Ref? then Ok(v.r) else Err(NotAnObject)
  }

  // ---------------------------------------------------------------------
  // executor_step

  /** `call_method`: a frame holding the top `args` values in push order
      followed by `locals` slots (uninitialised in the source, `Zero` here),
      returning to the next instruction; control moves to the method. */
  function CallMethod(m: Machine, callee: ConstantPools.Entry): (r: Result<Machine>)
    requires callee.Method?
    ensures r.Ok? <==> callee.args <= |m.operands.elems|
  {
    var p :- PopN(m.operands, callee.args, m.min);
    var frame := CallStacks.Frame(p.0 + Zeros(callee.locals), m.pc + 1);
    Ok(m.(operands := p.1, frames := CallStacks.Push(m.frames, frame), pc := callee.address))
  }

  /** `exit_method`: pop the top frame and resume at its return address;
      the operand stack, which carries the result, is left alone. */
  function ExitMethod(m: Machine): (r: Result<Stepped>)
    ensures r.Ok? <==> |m.frames.elems| > 0
  {
    var frame :- CallStacks.Top(m.frames);
    var frames := CallStacks.Pop(m.frames, m.min).value;
    Ok(Stepped(m.(frames := frames, pc := frame.returnAddress), |frames.elems| > 0))
  }

  /** What every opcode handler keeps: the pool, the code and the
      configured minimum; a valid heap stays valid; the program counter
      moves only for CALL and RETURN; only RETURN can stop the program. */
  predicate Keeps(m: Machine, op: Byte, r: Result<Stepped>) {
    r.Ok? ==>
      && r.value.machine.pool == m.pool && r.value.machine.code == m.code && r.value.machine.min == m.min
      && (Objects.Valid(m.heap) ==> Objects.Valid(r.value.machine.heap))
      && (op != CALL && op != RETURN ==> r.value.machine.pc == m.pc)
      && (op != RETURN ==> r.value.running)
  }

  /** Push `v` and keep running. */
  function Pushed(m: Machine, s: Operands, v: Value): Result<Stepped> {
    Ok(Stepped(m.(operands := GrowableStack.Push(s, v)), true))
  }

  // One handler per case of the `switch` in `executor_step`: the effect of
  // the opcode before the program counter moves on.

  function ExecPush(m: Machine, x: Word): (r: Result<Stepped>)
    ensures Keeps(m, PUSH, r)
  {
    Pushed(m, m.operands, Int(Int32.FromU32(x as nat)))
  }

  function ExecPushVar(m: Machine, x: Word): (r: Result<Stepped>)
    ensures Keeps(m, PUSH_VAR, r)
  {
    var frame :- CallStacks.Top(m.frames);
    if x as nat < |frame.vars| then Pushed(m, m.operands, frame.vars[x]) else Err(BadSlot)
  }

  /** `push_field`: replace the object on top by its slot. */
  function ExecPushField(m: Machine, x: Word): (r: Result<Stepped>)
    ensures Keeps(m, PUSH_FIELD, r)
  {
    var slot :- FieldSlot(m.pool, x as nat);
    var p :- PopValue(m.operands, m.min);
    var a :- AsRef(p.0);
    var v :- Objects.GetField(m.heap, a, slot);
    Pushed(m, p.1, v)
  }

  function ExecPop(m: Machine, x: Word): (r: Result<Stepped>)
    ensures Keeps(m, POP, r)
  {
    var s :- GrowableStack.Pop(m.operands, m.min);
    Ok(Stepped(m.(operands := s), true))
  }

  /** POP_VAR writes through the top frame's vars. The source copies only
      the integer view of the value; the model copies the whole value. */
  function ExecPopVar(m: Machine, x: Word): (r: Result<Stepped>)
    ensures Keeps(m, POP_VAR, r)
  {
    var frame :- CallStacks.Top(m.frames);
    var p :- PopValue(m.operands, m.min);
    if x as nat < |frame.vars| then
      var frames := CallStacks.SetTop(m.frames, frame.(vars := frame.vars[x := p.0])).value;
      Ok(Stepped(m.(operands := p.1, frames := frames), true))
    else Err(BadSlot)
  }

  /** `pop_field`: the value is on top, the object under it. */
  function ExecPopField(m: Machine, x: Word): (r: Result<Stepped>)
    ensures Keeps(m, POP_FIELD, r)
  {
    var slot :- FieldSlot(m.pool, x as nat);
    var value :- PopValue(m.operands, m.min);
    var target :- PopValue(value.1, m.min);
    var a :- AsRef(target.0);
    var h :- Objects.SetField(m.heap, a, slot, value.0);
    Ok(Stepped(m.(operands := target.1, heap := h), true))
  }

  /** `apply_binary_function` with `op_add` .. `op_div`. */
  function ExecArith(m: Machine, op: Byte): (r: Result<Stepped>)
    requires ADD <= op <= DIV
    ensures Keeps(m, op, r)
  {
    var p :- PopPair(m.operands, m.min);
    var v :- Arith(op, p.0, p.1);
    Pushed(m, p.2, v)
  }

  /** JUMP pushes a true flag for the branch that follows every jump. */
  function ExecJump(m: Machine, x: Word): (r: Result<Stepped>)
    ensures Keeps(m, JUMP, r)
  {
    Pushed(m, m.operands, Int(1))
  }

  /** `apply_binary_function` with `op_eq` .. `op_ge`: push the flag. */
  function ExecCompare(m: Machine, op: Byte): (r: Result<Stepped>)
    requires JUMP_EQ <= op <= JUMP_GE
    ensures Keeps(m, op, r)
  {
    var p :- PopPair(m.operands, m.min);
    var b :- Compare(op, p.0, p.1);
    Pushed(m, p.2, Bool(b))
  }

  function ExecCall(m: Machine, x: Word): (r: Result<Stepped>)
    ensures Keeps(m, CALL, r)
  {
    var callee :- MethodAt(m.pool, x as nat);
    var m' :- CallMethod(m, callee);
    Ok(Stepped(m', true))
  }

  function ExecReturn(m: Machine, x: Word): (r: Result<Stepped>)
    ensures Keeps(m, RETURN, r)
  {
    ExitMethod(m)
  }

  /** `new_object`: the object's tag is the class's pool index. */
  function ExecNew(m: Machine, x: Word): (r: Result<Stepped>)
    ensures Keeps(m, NEW, r)
  {
    var fields :- ClassFields(m.pool, x as nat);
    var (h, a) := Objects.ObjectNew(m.heap, x as nat, fields);
    Pushed(m.(heap := h), m.operands, Ref(a))
  }

  function ExecDup(m: Machine, x: Word): (r: Result<Stepped>)
    ensures Keeps(m, DUP, r)
  {
    var v :- GrowableStack.Top(m.operands);
    Pushed(m, m.operands, v)
  }

  /** The `switch` of `executor_step`: the handler of the opcode. */
  function Handle(m: Machine, inst: Instruction): (r: Result<Stepped>)
    ensures Keeps(m, inst.opcode, r)
  {
    var op, x := inst.opcode, inst.operand;
    if op == PUSH then ExecPush(m, x)
    else if op == PUSH_VAR then ExecPushVar(m, x)
    else if op == PUSH_FIELD then ExecPushField(m, x)
    else if op == POP then ExecPop(m, x)
    else if op == POP_VAR then ExecPopVar(m, x)
    else if op == POP_FIELD then ExecPopField(m, x)
    else if ADD <= op <= DIV then ExecArith(m, op)
    else if op == JUMP then ExecJump(m, x)
    else if JUMP_EQ <= op <= JUMP_GE then ExecCompare(m, op)
    else if op == CALL then ExecCall(m, x)
    else if op == RETURN then ExecReturn(m, x)
    else if op == NEW then ExecNew(m, x)
    else if op == DUP then ExecDup(m, x)
    else
      // PUSH_CONST is a stub in the source, and no other opcode has a case.
      Ok(Stepped(m, true))
  }

  /** The tail of `executor_step`: a jump opcode pops the flag its case
      pushed and branches to the operand when it is non-zero; CALL and
      RETURN have set the program counter already; everything else
      advances by one. */
  function Advance(m: Machine, inst: Instruction): (r: Result<Machine>)
    ensures r.Ok? ==> r.value.heap == m.heap && r.value.frames == m.frames
    ensures r.Ok? ==> r.value.pool == m.pool && r.value.code == m.code && r.value.min == m.min
    ensures !IsJump(inst.opcode) ==> r.Ok? && r.value.operands == m.operands
    ensures !IsJump(inst.opcode) && inst.opcode != CALL && inst.opcode != RETURN ==> r.value.pc == m.pc + 1
    ensures !IsJump(inst.opcode) && (inst.opcode == CALL || inst.opcode == RETURN) ==> r.value.pc == m.pc
    ensures IsJump(inst.opcode) ==> (r.Ok? <==> |m.operands.elems| > 0)
    ensures IsJump(inst.opcode) && r.Ok? ==> var n := |m.operands.elems|;
      r.value.operands.elems == m.operands.elems[..n - 1]
      && r.value.pc == if m.operands.elems[n - 1] != Int(0) then inst.operand as nat else m.pc + 1
  {
    if IsJump(inst.opcode) then
      var p :- PopValue(m.operands, m.min);
      var pc := if p.0 != Int(0) then inst.operand as nat else m.pc + 1;
      Ok(m.(operands := p.1, pc := pc))
    else if inst.opcode != CALL && inst.opcode != RETURN then Ok(m.(pc := m.pc + 1))
    else Ok(m)
  }

  /** `executor_step`. A program counter past the end of the code is a
      fault (the source reads beyond the instruction array). */
  function Step(m: Machine): (r: Result<Stepped>)
    ensures r.Ok? ==> r.value.machine.pool == m.pool && r.value.machine.code == m.code && r.value.machine.min == m.min
    ensures r.Ok? && Objects.Valid(m.heap) ==> Objects.Valid(r.value.machine.heap)
    ensures m.pc >= |m.code| ==> r == Err(PcOutOfRange)
    ensures r.Ok? && m.code[m.pc].opcode != RETURN ==> r.value.running
  {
    if m.pc >= |m.code| then Err(PcOutOfRange)
    else
      var inst := m.code[m.pc];
      var d :- Handle(m, inst);
      var m' :- Advance(d.machine, inst);
      Ok(Stepped(m', d.running))
  }

  type Stepper = Machine -> Result<Stepped>

  /** Apply `step` until it reports the program finished or `fuel` steps
      have been taken; `running` is true in the latter case. */
  function Iterate(step: Stepper, m: Machine, fuel: nat): (r: Result<Stepped>)
    decreases fuel
  {
    if fuel == 0 then Ok(Stepped(m, true))
    else
      var s :- step(m);
      if s.running then Iterate(step, s.machine, fuel - 1) else Ok(s)
  }

  /** Iterating `a + b` times is iterating `a` times, then `b` more from
      where the first run stopped, provided it was still running. */
  lemma {:induction false} IterateSplit(step: Stepper, m: Machine, a: nat, b: nat)
    requires Iterate(step, m, a).Ok? && Iterate(step, m, a).value.running
    ensures Iterate(step, m, a + b) == Iterate(step, Iterate(step, m, a).value.machine, b)
    decreases a
  {
    if a > 0 {
      var s := step(m).value;
      IterateSplit(step, s.machine, a - 1, b);
      assert a + b - 1 == (a - 1) + b;
    }
  }

  /** Once the program has finished, more fuel changes nothing: the run
      has halted. */
  lemma {:induction false} IterateHalted(step: Stepper, m: Machine, a: nat, b: nat)
    requires Iterate(step, m, a).Ok? && !Iterate(step, m, a).value.running
    ensures Iterate(step, m, a + b) == Iterate(step, m, a)
    decreases a
  {
    if a > 0 && step(m).Ok? && step(m).value.running {
      IterateHalted(step, step(m).value.machine, a - 1, b);
      assert a + b - 1 == (a - 1) + b;
    }
  }

  /** `executor_step_all`, with a bound on the number of steps: stops
      after the step that reports the program finished (`running` false),
      or with `running` true once the fuel is spent. */
  function Run(m: Machine, fuel: nat): (r: Result<Stepped>) {
    Iterate(Step, m, fuel)
  }

  /** A step that fails or finishes the program ends the run with its
      own result. */
  lemma RunStops(m: Machine, fuel: nat)
    requires fuel > 0 && (Step(m).Err? || !Step(m).value.running)
    ensures Run(m, fuel) == Step(m)
  {
  }

  lemma RunSplit(m: Machine, a: nat, b: nat)
    requires Run(m, a).Ok? && Run(m, a).value.running
    ensures Run(m, a + b) == Run(Run(m, a).value.machine, b)
  {
    IterateSplit(Step, m, a, b);
  }

  lemma RunHalted(m: Machine, a: nat, b: nat)
    requires Run(m, a).Ok? && !Run(m, a).value.running
    ensures Run(m, a + b) == Run(m, a)
  {
    IterateHalted(Step, m, a, b);
  }

  /** One step that keeps the program running, followed by more. */
  lemma RunStep(m: Machine, fuel: nat)
    requires Step(m).Ok? && Step(m).value.running
    ensures Run(m, fuel + 1) == Run(Step(m).value.machine, fuel)
  {
  }

  /** A run never changes the pool, the code or the configured minimum,
      and keeps a valid heap valid. */
  lemma {:induction false} RunKeeps(m: Machine, fuel: nat)
    ensures var r := Run(m, fuel);
      r.Ok? ==> && r.value.machine.pool == m.pool && r.value.machine.code == m.code
                && r.value.machine.min == m.min
                && (Objects.Valid(m.heap) ==> Objects.Valid(r.value.machine.heap))
    decreases fuel
  {
    if fuel > 0 && Step(m).Ok? && Step(m).value.running {
      RunStep(m, fuel - 1);
      RunKeeps(Step(m).value.machine, fuel - 1);
    }
  }
}
